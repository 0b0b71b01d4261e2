/** The client's search: the query parameters built by `add_param`, validated against the
    category, country and language tables, a first search, and one follow-up search per further
    result, fanned out through an `Asyncit` runner and collected after the first response.

    The HTTP request is a function `api` from query parameters to the decoded JSON reply. */
module Filmot {
  import opened Wrappers
  import opened Py
  import opened Values
  import opened ODicts
  import opened Responses
  import opened Asyncit

  // ---------------------------------------------------------------------------------------------
  // The validation tables

  /** The names of `Categories`. */
  const ValidCategories: set<string> := {
    "Autos & Vehicles", "Comedy", "Education", "Entertainment", "Film & Animation", "Gaming",
    "Howto & Style", "Music", "News & Politics", "Nonprofits & Activism", "People & Blogs",
    "Pets & Animals", "Science & Technology", "Sports", "Travel & Events"}

  /** The codes of `Language`. */
  const ValidLanguages: set<string> := {
    "af", "sq", "ar", "an", "hy", "at", "eu", "be", "bn", "bs", "br", "bg", "my", "ca", "zh-cn",
    "cs", "da", "nl", "en", "eo", "et", "fi", "fr", "ka", "de", "gl", "el", "he", "hi", "hr", "hu",
    "is", "id", "it", "ja", "kk", "km", "ko", "lv", "lt", "lb", "mk", "ml", "ms", "ma", "mn", "no",
    "oc", "fa", "pl", "pt-pt", "ru", "sr", "si", "sk", "sl", "es", "sw", "sv", "sy", "ta", "te",
    "tl", "th", "tr", "uk", "ur", "uz", "vi", "ro", "pt-br", "me", "zh-tw", "ze", "nb", "se"}

  /** `value in VALID_COUNTRIES`: the codes of `Countries` are 1 to 250, and Python's `True`
      equals 1. */
  predicate ValidCountry(v: Value) {
    (v.Int? && 1 <= v.i <= 250) || v == Bool(true)
  }

  /** `value in VALID_CATEGORIES` (or `VALID_LANGUAGES`): only a string can equal one. */
  predicate InTable(v: Value, table: set<string>) {
    v.Str? && v.s in table
  }

  // ---------------------------------------------------------------------------------------------
  // add_param

  /** The assertion of `add_param` that `value` fails under `name`. */
  predicate Rejected(name: string, value: Value) {
    || (name == "category" && !InTable(value, ValidCategories))
    || (name == "country" && !ValidCountry(value))
    || (name == "language" && !InTable(value, ValidLanguages))
  }

  /** `add_param(name, value)`: a `None` value is left out; a category, country or language
      outside its table fails the assertion; anything else is set in `query_params`. */
  function AddParam(params: ODict, name: string, value: Value): (r: Result<ODict>)
    ensures value == PyNone ==> r == Ok(params)
    ensures value != PyNone ==> (r.Err? <==> Rejected(name, value))
    ensures r.Err? ==> r.error == AssertionError
    ensures r.Ok? && value != PyNone ==> r.value == Put(params, name, value)
  {
    if value == PyNone then Ok(params)
    else if Rejected(name, value) then Err(AssertionError)
    else Ok(Put(params, name, value))
  }

  /** Successive `add_param` calls, stopping at the first failed assertion. */
  function AddAll(params: ODict, pairs: seq<(string, Value)>): Result<ODict>
    decreases |pairs|
  {
    if pairs == [] then Ok(params)
    else
      var params' :- AddParam(params, pairs[0].0, pairs[0].1);
      AddAll(params', pairs[1..])
  }

  /** The value the last of `pairs` named `k` gives, if it is not `None`, else `d`. */
  function LastGiven(pairs: seq<(string, Value)>, k: string, d: Option<Value>): Option<Value>
    decreases |pairs|
  {
    if pairs == [] then d
    else LastGiven(pairs[1..], k, if pairs[0].0 == k && pairs[0].1 != PyNone then Some(pairs[0].1) else d)
  }

  /** A run of `add_param` calls fails exactly when one of them is given a value that is not
      `None` and fails its assertion; otherwise every name ends with the last value given for it
      that is not `None`, and the other names keep what they had. */
  lemma {:induction false} AddAllSpec(params: ODict, pairs: seq<(string, Value)>)
    decreases |pairs|
    ensures var r := AddAll(params, pairs);
      && (r.Err? <==> exists i :: 0 <= i < |pairs| && pairs[i].1 != PyNone && Rejected(pairs[i].0, pairs[i].1))
      && (r.Err? ==> r.error == AssertionError)
      && (r.Ok? ==> forall k :: Get(r.value, k) == LastGiven(pairs, k, Get(params, k)))
  {
    if pairs != [] {
      var step := AddParam(params, pairs[0].0, pairs[0].1);
      assert forall i :: 0 < i < |pairs| ==> pairs[1..][i - 1] == pairs[i];
      if step.Ok? {
        AddAllSpec(step.value, pairs[1..]);
        forall k ensures Get(step.value, k) ==
                         if pairs[0].0 == k && pairs[0].1 != PyNone then Some(pairs[0].1) else Get(params, k) {
          if pairs[0].1 != PyNone {
            GetPut(params, pairs[0].0, pairs[0].1, k);
          }
        }
      }
    }
  }

  /** With distinct names, a name ends with its own value when that is not `None`; a name that is
      not among them keeps `d`. */
  lemma {:induction false} LastGivenDistinct(pairs: seq<(string, Value)>, k: string, d: Option<Value>)
    requires forall i, j :: 0 <= i < j < |pairs| ==> pairs[i].0 != pairs[j].0
    decreases |pairs|
    ensures (forall i :: 0 <= i < |pairs| ==> pairs[i].0 != k) ==> LastGiven(pairs, k, d) == d
    ensures forall i :: 0 <= i < |pairs| && pairs[i].0 == k ==>
              LastGiven(pairs, k, d) == if pairs[i].1 != PyNone then Some(pairs[i].1) else d
  {
    if pairs != [] {
      var d' := if pairs[0].0 == k && pairs[0].1 != PyNone then Some(pairs[0].1) else d;
      assert forall i :: 0 < i < |pairs| ==> pairs[1..][i - 1] == pairs[i];
      LastGivenDistinct(pairs[1..], k, d');
    }
  }

  // ---------------------------------------------------------------------------------------------
  // The search parameters

  /** The arguments of `search`; an argument left out is `None`. */
  datatype SearchArgs = SearchArgs(
    query: string,
    language: Value, category: Value, excludeCategory: Value, license: Value,
    maxViews: Value, minViews: Value, minLikes: Value, country: Value, channelId: Value,
    title: Value, startDuration: Value, endDuration: Value, searchManualSubs: Value,
    startDate: Value, endDate: Value,
    limit: int)

  /** `f'"{query}"' if " " in query else query` */
  function Quoted(query: string): string {
    if ' ' in query then "\"" + query + "\"" else query
  }

  /** The quoting is undone by dropping the first and last characters of a query with a space. */
  function Unquoted(s: string): string {
    if ' ' in s && |s| >= 2 then s[1..|s| - 1] else s
  }

  /** A query is wrapped in double quotes exactly when it has a space, and the query is what
      is inside them. */
  lemma QuotedSpec(query: string)
    ensures ' ' in query ==> Quoted(query) == "\"" + query + "\""
    ensures ' ' !in query ==> Quoted(query) == query
    ensures Unquoted(Quoted(query)) == query
  {
    if ' ' in query {
      var q := Quoted(query);
      var i :| 0 <= i < |query| && query[i] == ' ';
      assert q[i + 1] == ' ';
      assert q[1..|q| - 1] == query;
    }
  }

  /** The names given to `add_param`, in call order. */
  const ParamNames: seq<string> := [
    "query", "lang", "category", "excludeCategory", "license", "maxViews", "minViews", "minLikes",
    "country", "channelID", "title", "startDuration", "endDuration", "searchManualSubs",
    "startDate", "endDate"]

  /** The names are distinct, and only the third and the ninth are checked by `add_param`. */
  lemma ParamNamesDistinct()
    ensures forall i, j :: 0 <= i < j < |ParamNames| ==> ParamNames[i] != ParamNames[j]
    ensures ParamNames[2] == "category" && ParamNames[8] == "country"
    ensures forall i :: 0 <= i < |ParamNames| ==> ParamNames[i] != "language"
  {
  }

  /** The `add_param` calls of `search`, in order. */
  function Named(args: SearchArgs): (pairs: seq<(string, Value)>)
    ensures |pairs| == |ParamNames| && forall i :: 0 <= i < |pairs| ==> pairs[i].0 == ParamNames[i]
  {
    [("query", Str(Quoted(args.query))), ("lang", args.language), ("category", args.category),
     ("excludeCategory", args.excludeCategory), ("license", args.license), ("maxViews", args.maxViews),
     ("minViews", args.minViews), ("minLikes", args.minLikes), ("country", args.country),
     ("channelID", args.channelId), ("title", args.title), ("startDuration", args.startDuration),
     ("endDuration", args.endDuration), ("searchManualSubs", args.searchManualSubs),
     ("startDate", args.startDate), ("endDate", args.endDate)]
  }

  /** `query_params` as `search` builds it. */
  function QueryParams(args: SearchArgs): Result<ODict> {
    AddAll([], Named(args))
  }

  /** A parameter is present exactly when its argument is not `None`, with that value; no other
      key is present; the query is always present, quoted when it has a space. */
  lemma QueryParamsKeys(args: SearchArgs)
    ensures var r := QueryParams(args);
      r.Ok? ==>
        && (forall i :: 0 <= i < |ParamNames| ==>
              Get(r.value, ParamNames[i]) == if Named(args)[i].1 == PyNone then None else Some(Named(args)[i].1))
        && (forall k :: k !in ParamNames ==> Get(r.value, k) == None)
        && Get(r.value, "query") == Some(Str(Quoted(args.query)))
  {
    var pairs := Named(args);
    AddAllSpec([], pairs);
    ParamNamesDistinct();
    if QueryParams(args).Ok? {
      var r := QueryParams(args).value;
      forall i | 0 <= i < |ParamNames|
        ensures Get(r, ParamNames[i]) == if pairs[i].1 == PyNone then None else Some(pairs[i].1)
      {
        LastGivenDistinct(pairs, ParamNames[i], None);
      }
      forall k | k !in ParamNames ensures Get(r, k) == None {
        LastGivenDistinct(pairs, k, None);
      }
      assert ParamNames[0] == "query";
    }
  }

  /** `search` fails its assertion exactly for a category or a country outside its table, and
      the language is never checked: the check is keyed on `"language"` while the language is
      added as `"lang"`. */
  lemma QueryParamsRejects(args: SearchArgs)
    ensures QueryParams(args).Err? <==>
              || (args.category != PyNone && !InTable(args.category, ValidCategories))
              || (args.country != PyNone && !ValidCountry(args.country))
    ensures QueryParams(args).Err? ==> QueryParams(args).error == AssertionError
  {
    var pairs := Named(args);
    AddAllSpec([], pairs);
    ParamNamesDistinct();
    assert pairs[2] == ("category", args.category) && pairs[8] == ("country", args.country);
    forall i | 0 <= i < |pairs| && i != 2 && i != 8 ensures !Rejected(pairs[i].0, pairs[i].1) {
      assert pairs[i].0 == ParamNames[i] != ParamNames[2] && ParamNames[i] != ParamNames[8];
    }
  }

  /** Whatever the language, it never makes `search` fail, and it is sent as `lang`. */
  lemma LanguageNeverValidated(args: SearchArgs, language: Value)
    ensures QueryParams(args.(language := language)).Err? <==> QueryParams(args).Err?
    ensures var r := QueryParams(args.(language := language));
      r.Ok? && language != PyNone ==> Get(r.value, "lang") == Some(language)
  {
    QueryParamsRejects(args);
    QueryParamsRejects(args.(language := language));
    QueryParamsKeys(args.(language := language));
    assert ParamNames[1] == "lang";
  }

  // ---------------------------------------------------------------------------------------------
  // search_one and the follow-up searches

  /** The decoded JSON reply of the search endpoint. */
  datatype Reply = Reply(result: map<string, Value>, hits: seq<Hit>, subtitles: seq<Line>, moreResults: seq<Value>)

  /** `search_one(query_params)`: the `query` parameter (KeyError without one), the request, and
      the response built from the reply. */
  function SearchOne(api: ODict -> Result<Reply>, params: ODict): (r: Result<SearchResponse>)
    ensures Get(params, "query").None? ==> r == Err(KeyError)
    ensures Get(params, "query").Some? && api(params).Err? ==> r == Err(api(params).error)
    ensures r.Ok? ==> api(params).Ok? && r.value.query == Text(Get(params, "query").value)
                      && r.value.subtitles == api(params).value.subtitles
  {
    match Get(params, "query")
    case None => Err(KeyError)
    case Some(query) =>
      var reply :- api(params);
      Ok(NewSearchResponse(Text(query), reply.result, reply.hits, reply.subtitles, reply.moreResults))
  }

  /** `i["id"]` on a raw result: KeyError without an id, TypeError on anything but a dict. */
  function IdOf(v: Value): (r: Result<Value>)
    ensures r.Ok? <==> v.Dict? && "id" in v.entries
    ensures r.Ok? ==> r.value == v.entries["id"]
  {
    match v
    case Dict(e) => if "id" in e then Ok(e["id"]) else Err(KeyError)
    case _ => Err(TypeError)
  }

  /** The ids of all of `results`, stopping at the first that has none. */
  function IdsOf(results: seq<Value>): Result<seq<Value>> {
    if results == [] then Ok([])
    else
      var id :- IdOf(results[0]);
      var rest :- IdsOf(results[1..]);
      Ok([id] + rest)
  }

  /** `[i["id"] for i in response.more_results[: limit - 1]]` */
  function FollowUpIds(moreResults: seq<Value>, limit: int): Result<seq<Value>> {
    IdsOf(Slice(moreResults, 0, limit - 1))
  }

  lemma {:induction false} IdsOfSpec(results: seq<Value>)
    ensures IdsOf(results).Ok? <==> forall i :: 0 <= i < |results| ==> IdOf(results[i]).Ok?
    ensures IdsOf(results).Ok? ==>
              && |IdsOf(results).value| == |results|
              && forall i :: 0 <= i < |results| ==> Ok(IdsOf(results).value[i]) == IdOf(results[i])
  {
    if results != [] {
      IdsOfSpec(results[1..]);
      assert forall i :: 0 < i < |results| ==> results[1..][i - 1] == results[i];
    }
  }

  /** How many further results `[: limit - 1]` keeps: the first `limit - 1` of them, or, for a
      limit below one, all but the last `1 - limit` (a negative slice bound counts from the end). */
  function FollowUpCount(moreResults: seq<Value>, limit: int): (n: nat)
    ensures n <= |moreResults|
  {
    if limit >= 1 then (if limit - 1 <= |moreResults| then limit - 1 else |moreResults|)
    else if 1 - limit <= |moreResults| then |moreResults| + limit - 1 else 0
  }

  /** The follow-up ids are those of the first `FollowUpCount` further results, in order, and the
      ids fail exactly when one of those is not a dict with an id; with `limit = 1` there are none. */
  lemma FollowUpIdsSpec(moreResults: seq<Value>, limit: int)
    ensures var n, r := FollowUpCount(moreResults, limit), FollowUpIds(moreResults, limit);
      && (r.Ok? <==> forall i :: 0 <= i < n ==> IdOf(moreResults[i]).Ok?)
      && (r.Ok? ==> |r.value| == n && forall i :: 0 <= i < n ==> Ok(r.value[i]) == IdOf(moreResults[i]))
    ensures limit == 1 ==> FollowUpIds(moreResults, limit) == Ok([])
  {
    PrefixSlice(moreResults, limit - 1);
    IdsOfSpec(Slice(moreResults, 0, limit - 1));
  }

  /** `temp_query_params = query_params.copy(); temp_query_params["queryVideoID"] = video_id` */
  function FollowUpQuery(params: ODict, id: Value): (q: ODict)
    ensures Keys(q) == Keys(params) + {"queryVideoID"}
  {
    Put(params, "queryVideoID", id)
  }

  /** A follow-up query is the original one plus the video id; every other parameter is as it
      was, and the original is left as it is (it is a value). */
  lemma FollowUpQuerySpec(params: ODict, id: Value, k: string)
    ensures Get(FollowUpQuery(params, id), "queryVideoID") == Some(id)
    ensures k != "queryVideoID" ==> Get(FollowUpQuery(params, id), k) == Get(params, k)
  {
    GetPut(params, "queryVideoID", id, "queryVideoID");
    GetPut(params, "queryVideoID", id, k);
  }

  /** What `func_wrapper` sees of `search_one(temp_query_params)`: a response, or an exception. */
  function SearchOutcome(api: ODict -> Result<Reply>, params: ODict): Outcome<SearchResponse> {
    match SearchOne(api, params)
    case Ok(r) => Returned(Some(r))
    case Err(_) => Raised
  }

  /** The responses of the follow-up searches that did not raise, in the order they were run. */
  function FollowUps(api: ODict -> Result<Reply>, params: ODict, ids: seq<Value>): seq<SearchResponse> {
    if ids == [] then []
    else
      var last := SearchOne(api, FollowUpQuery(params, ids[|ids| - 1]));
      FollowUps(api, params, ids[..|ids| - 1]) + (if last.Ok? then [last.value] else [])
  }

  /** `search(...)`: the first response followed by the follow-up responses, or the first error
      of the parameters, the first search or the follow-up ids. */
  function SearchSpec(api: ODict -> Result<Reply>, args: SearchArgs): Result<seq<SearchResponse>> {
    var params :- QueryParams(args);
    var response :- SearchOne(api, params);
    var ids :- FollowUpIds(response.moreResults, args.limit);
    Ok([response] + FollowUps(api, params, ids))
  }

  /** The codec `search` gives its runner: with `save_as_json` unset it is never used. */
  function Unused(): Codec<SearchResponse> {
    Codec((v: SearchResponse) => "", (s: string) => SearchResponse("", map[], [], [], []))
  }

  /** The results the runner collected: its queue, in order, with every entry kept as it is. */
  function AllRaw(vs: seq<SearchResponse>): (r: seq<Entry<SearchResponse>>)
    ensures |r| == |vs| && forall i :: 0 <= i < |vs| ==> r[i] == Raw(vs[i])
  {
    if vs == [] then [] else [Raw(vs[0])] + AllRaw(vs[1..])
  }

  /** One more follow-up id adds its response, when the search succeeds, after the others. */
  lemma FollowUpsNext(api: ODict -> Result<Reply>, params: ODict, ids: seq<Value>, i: nat)
    requires i < |ids|
    ensures var one := SearchOne(api, FollowUpQuery(params, ids[i]));
      AllRaw(FollowUps(api, params, ids[..i + 1])) ==
        AllRaw(FollowUps(api, params, ids[..i])) + (if one.Ok? then [Raw(one.value)] else [])
  {
    assert ids[..i + 1][..i] == ids[..i];
  }

  /** `runner.run(func_wrapper(search_one(temp_query_params)))` on a runner with no pool, no rate
      limit, one attempt and `save_output` set: the response is queued when the search succeeds. */
  method SubmitFollowUp(runner: Asyncit<SearchResponse>, api: ODict -> Result<Reply>, query: ODict, now: int)
    requires runner.Valid()
    requires runner.poolSize == 0 && runner.maxRetry == 1 && runner.rateLimit == []
    requires runner.saveOutput && !runner.saveAsJson
    modifies runner
    ensures runner.Valid() && runner.rateLimit == []
    ensures var one := SearchOne(api, query);
      runner.outputQueue == old(runner.outputQueue) + (if one.Ok? then [Raw(one.value)] else [])
  {
    runner.Run(now, (k: nat) => SearchOutcome(api, query), (k: nat) => 1 as Backoff);
  }

  /** The fan-out of `search`: an `Asyncit(save_output=True)` runner given one follow-up search
      per id, waited for, and drained. */
  method RunFollowUps(api: ODict -> Result<Reply>, params: ODict, ids: seq<Value>, now: int)
    returns (responses: seq<SearchResponse>)
    ensures responses == FollowUps(api, params, ids)
  {
    var runner := new Asyncit<SearchResponse>(0, [], None, true, false, None, Unused(), now);
    var i := 0;
    while i < |ids|
      invariant 0 <= i <= |ids|
      invariant runner.Valid() && fresh(runner)
      invariant runner.poolSize == 0 && runner.maxRetry == 1 && runner.rateLimit == []
      invariant runner.saveOutput && !runner.saveAsJson
      invariant runner.outputQueue == AllRaw(FollowUps(api, params, ids[..i]))
    {
      FollowUpsNext(api, params, ids, i);
      SubmitFollowUp(runner, api, FollowUpQuery(params, ids[i]), now);
      i := i + 1;
    }
    assert ids[..i] == ids;
    var finished := runner.Wait();
    assert finished;
    responses := runner.GetOutput();
  }

  /** `search(...)` at clock reading `now`: the parameters, the first search, then the follow-up
      searches, whose collected outputs follow the first response. */
  method Search(api: ODict -> Result<Reply>, args: SearchArgs, now: int) returns (r: Result<seq<SearchResponse>>)
    ensures r == SearchSpec(api, args)
  {
    var params :- QueryParams(args);
    var response :- SearchOne(api, params);
    var ids :- FollowUpIds(response.moreResults, args.limit);
    var responses := RunFollowUps(api, params, ids, now);
    r := Ok([response] + responses);
  }

  /** The first element of the result is the first response, and at most one more response comes
      per follow-up id. */
  lemma SearchStartsWithFirst(api: ODict -> Result<Reply>, args: SearchArgs)
    ensures var r := SearchSpec(api, args);
      r.Ok? ==>
        && QueryParams(args).Ok? && SearchOne(api, QueryParams(args).value).Ok?
        && r.value[0] == SearchOne(api, QueryParams(args).value).value
        && FollowUpIds(r.value[0].moreResults, args.limit).Ok?
        && |r.value| <= 1 + |FollowUpIds(r.value[0].moreResults, args.limit).value|
  {
    var r := SearchSpec(api, args);
    if r.Ok? {
      var params := QueryParams(args).value;
      var response := SearchOne(api, params).value;
      FollowUpsBound(api, params, FollowUpIds(response.moreResults, args.limit).value);
    }
  }

  lemma {:induction false} FollowUpsBound(api: ODict -> Result<Reply>, params: ODict, ids: seq<Value>)
    ensures |FollowUps(api, params, ids)| <= |ids|
    decreases |ids|
  {
    if ids != [] {
      FollowUpsBound(api, params, ids[..|ids| - 1]);
    }
  }
}
