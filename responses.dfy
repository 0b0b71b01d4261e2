/** The search response: its hits sorted by start time, the follow-up results after the first,
    and the location of hits in the first result's subtitles.

    A hit and a subtitle line are records with the fields the code reads; their times, which the
    code compares as floats, are whole seconds here. */
module Responses {
  import opened Wrappers
  import opened Py
  import opened Values

  /** One hit inside the first result's subtitles: its start time and the rest of its fields. */
  datatype Hit = Hit(start: int, data: map<string, Value>)

  /** One subtitle line: its start time `s` and its text `txt`. */
  datatype Line = Line(s: int, txt: string)

  /** The `{"link": ..., "text": ...}` dict that describes where a hit is. */
  datatype Passage = Passage(link: string, text: string)

  datatype SearchResponse = SearchResponse(
    query: string,
    result: map<string, Value>,
    hits: seq<Hit>,
    subtitles: seq<Line>,
    moreResults: seq<Value>)

  // ---------------------------------------------------------------------------------------------
  // Sorting the hits

  predicate SortedByStart(s: seq<Hit>) {
    forall i, j :: 0 <= i < j < |s| ==> s[i].start <= s[j].start
  }

  /** The hits of `s` that start at `t`, in order. */
  function StartingAt(s: seq<Hit>, t: int): seq<Hit> {
    if s == [] then []
    else (if s[0].start == t then [s[0]] else []) + StartingAt(s[1..], t)
  }

  /** Puts `h` before the first hit of `s` that does not start earlier. */
  function Insert(h: Hit, s: seq<Hit>): seq<Hit> {
    if s == [] || h.start <= s[0].start then [h] + s else [s[0]] + Insert(h, s[1..])
  }

  /** `sorted(hits, key=start)`: Python's sort is stable. */
  function SortByStart(hits: seq<Hit>): seq<Hit> {
    if hits == [] then [] else Insert(hits[0], SortByStart(hits[1..]))
  }

  lemma {:induction false} InsertPermutes(h: Hit, s: seq<Hit>)
    ensures multiset(Insert(h, s)) == multiset(s) + multiset{h}
  {
    if s != [] && h.start > s[0].start {
      InsertPermutes(h, s[1..]);
      assert s == [s[0]] + s[1..];
    }
  }

  lemma {:induction false} InsertStable(h: Hit, s: seq<Hit>, t: int)
    ensures StartingAt(Insert(h, s), t) == (if h.start == t then [h] else []) + StartingAt(s, t)
  {
    if s != [] && h.start > s[0].start {
      InsertStable(h, s[1..], t);
      var tail := Insert(h, s[1..]);
      assert ([s[0]] + tail)[1..] == tail;
      Associate(if s[0].start == t then [s[0]] else [], if h.start == t then [h] else [], StartingAt(s[1..], t));
    } else {
      assert ([h] + s)[1..] == s;
    }
  }

  /** When at most one of `a` and `b` is non-empty their order does not matter. */
  lemma Associate(a: seq<Hit>, b: seq<Hit>, c: seq<Hit>)
    requires a == [] || b == []
    ensures a + (b + c) == b + (a + c)
  {
  }

  lemma {:induction false} InsertSorted(h: Hit, s: seq<Hit>)
    requires SortedByStart(s)
    ensures SortedByStart(Insert(h, s))
  {
    if s != [] && h.start > s[0].start {
      InsertSorted(h, s[1..]);
      var tail := Insert(h, s[1..]);
      InsertPermutes(h, s[1..]);
      forall j | 0 <= j < |tail| ensures s[0].start <= tail[j].start {
        assert tail[j] in multiset(tail);
        if tail[j] != h {
          assert tail[j] in multiset(s[1..]);
          var k :| 0 <= k < |s[1..]| && s[1..][k] == tail[j];
          assert s[k + 1] == tail[j];
        }
      }
    }
  }

  /** The sorted hits are in start order, are the same hits, and keep the order of hits that
      start together. */
  lemma {:induction false} SortByStartSpec(hits: seq<Hit>)
    ensures SortedByStart(SortByStart(hits))
    ensures multiset(SortByStart(hits)) == multiset(hits)
    ensures forall t :: StartingAt(SortByStart(hits), t) == StartingAt(hits, t)
  {
    if hits != [] {
      SortByStartSpec(hits[1..]);
      InsertSorted(hits[0], SortByStart(hits[1..]));
      InsertPermutes(hits[0], SortByStart(hits[1..]));
      assert hits == [hits[0]] + hits[1..];
      forall t ensures StartingAt(SortByStart(hits), t) == StartingAt(hits, t) {
        InsertStable(hits[0], SortByStart(hits[1..]), t);
      }
    }
  }

  // ---------------------------------------------------------------------------------------------
  // SearchResponse

  /** `SearchResponse(query, result, hits, subtitles, more_results)`: the hits sorted by start,
      the follow-up results without the first, which is the result itself. */
  function NewSearchResponse(query: string, result: map<string, Value>, hits: seq<Hit>,
                             subtitles: seq<Line>, moreResults: seq<Value>): (r: SearchResponse)
    ensures r.query == query && r.result == result && r.subtitles == subtitles
    ensures SortedByStart(r.hits) && multiset(r.hits) == multiset(hits)
    ensures forall t :: StartingAt(r.hits, t) == StartingAt(hits, t)
    ensures r.moreResults == if moreResults == [] then [] else moreResults[1..]
  {
    SortByStartSpec(hits);
    SearchResponse(query, result, SortByStart(hits), subtitles, Slice(moreResults, 1, |moreResults|))
  }

  /** `str(self.result.id)`; a result without an id reads as `None`. */
  function IdText(r: SearchResponse): string {
    Text(DictGet(r.result, "id", PyNone))
  }

  /** `main_field`: `f"{query}-{result.id}"`. */
  function MainField(r: SearchResponse): string {
    r.query + "-" + IdText(r)
  }

  /** The main field names the query and the result: when the id has no `-`, the text after the
      last `-` is the id and the text before it the query. */
  lemma MainFieldParts(r: SearchResponse)
    ensures MainField(r)[..|r.query|] == r.query && MainField(r)[|r.query|] == '-'
    ensures '-' !in IdText(r) ==> RPartition(MainField(r), '-') == (r.query, IdText(r))
  {
    assert MainField(r) == r.query + ['-'] + IdText(r);
    if '-' !in IdText(r) {
      RPartitionLast(r.query, '-', IdText(r));
    }
  }

  /** `hit_count()` */
  function HitCount(r: SearchResponse): nat {
    |r.hits|
  }

  /** Sorting neither adds nor drops hits: the count is that of the hits given. */
  lemma HitCountOfNew(query: string, result: map<string, Value>, hits: seq<Hit>,
                      subtitles: seq<Line>, moreResults: seq<Value>)
    ensures HitCount(NewSearchResponse(query, result, hits, subtitles, moreResults)) == |hits|
  {
    var r := NewSearchResponse(query, result, hits, subtitles, moreResults);
    assert |multiset(r.hits)| == |multiset(hits)|;
  }

  // ---------------------------------------------------------------------------------------------
  // Where a hit is

  /** The first subtitle line at or after `from` that starts after `t`. */
  function LineAfter(subs: seq<Line>, from: nat, t: int): (r: Option<nat>)
    ensures r.Some? ==>
              && from <= r.value < |subs| && subs[r.value].s > t
              && forall k :: from <= k < r.value ==> subs[k].s <= t
    ensures r.None? ==> forall k :: from <= k < |subs| ==> subs[k].s <= t
    decreases |subs| - from
  {
    if from >= |subs| then None
    else if subs[from].s > t then Some(from)
    else LineAfter(subs, from + 1, t)
  }

  function Texts(lines: seq<Line>): (r: seq<string>)
    ensures |r| == |lines|
  {
    if lines == [] then [] else [lines[0].txt] + Texts(lines[1..])
  }

  /** The address of a video's watch page, before its id. */
  const WatchPage: string := "https://www.youtube.com/watch?v="

  /** `f"https://www.youtube.com/watch?v={id}&t={start}s"` */
  function Link(id: string, start: int): string {
    WatchPage + id + "&t=" + IntToString(start) + "s"
  }

  /** The passage around a hit: the texts of `subs[lo:hi]` joined by spaces, and a link to the
      result at the start of `subs[lo]`, which fails (IndexError) when `lo` is outside the
      subtitles. */
  function PassageAt(subs: seq<Line>, id: string, lo: int, hi: int): (r: Result<Passage>)
    ensures r.Err? <==> !(-|subs| <= lo < |subs|)
    ensures r.Err? ==> r.error == IndexError
    ensures r.Ok? ==> r.value.text == Join(Texts(Slice(subs, lo, hi)), " ")
  {
    var text := Join(Texts(Slice(subs, lo, hi)), " ");
    var start :- Index(subs, lo);
    Ok(Passage(Link(id, start.s), text))
  }

  /** A passage inside the subtitles links to the start of its first line and holds the lines
      up to `hi`. */
  lemma PassageInside(subs: seq<Line>, id: string, lo: nat, hi: nat)
    requires lo < hi <= |subs|
    ensures PassageAt(subs, id, lo, hi) == Ok(Passage(Link(id, subs[lo].s), Join(Texts(subs[lo..hi]), " ")))
  {
    SliceInRange(subs, lo, hi);
  }

  /** At the top of the subtitles the start index wraps: the link points at the next-to-last line
      and, with four lines or more, the text is empty. */
  lemma PassageWraps(subs: seq<Line>, id: string)
    requires |subs| >= 4
    ensures PassageAt(subs, id, -2, 2) == Ok(Passage(Link(id, subs[|subs| - 2].s), ""))
  {
    assert Slice(subs, -2, 2) == [];
  }

  // ---------------------------------------------------------------------------------------------
  // hit_data

  /** The `hit_line` of `hit_data`: the position within `subtitles[1:]` of the first line that
      starts after the hit, or 0. */
  function HitLineOf(subs: seq<Line>, start: int): (h: nat)
    ensures (exists k :: 1 <= k < |subs| && subs[k].s > start) ==>
              && h + 1 < |subs| && subs[h + 1].s > start
              && forall k :: 1 <= k <= h ==> subs[k].s <= start
    ensures !(exists k :: 1 <= k < |subs| && subs[k].s > start) ==> h == 0
  {
    match LineAfter(subs, 1, start)
    case Some(j) => j - 1
    case None => 0
  }

  /** The loop of `hit_data` over `enumerate(subtitles[1:])`: the position `i` of the first line
      that starts after the hit, or 0 when the loop ends without a break. */
  method ScanHitLine(subs: seq<Line>, start: int) returns (hitLine: nat)
    ensures hitLine == HitLineOf(subs, start)
  {
    hitLine := 0;
    var i := 0;
    while i + 1 < |subs|
      invariant forall k :: 1 <= k <= i && k < |subs| ==> subs[k].s <= start
      invariant hitLine == 0
    {
      if subs[i + 1].s > start {
        hitLine := i;
        break;
      }
      i := i + 1;
    }
  }

  /** `hit_data(index)`: the hit at `index` (a negative one counts from the end), and the passage
      of `subtitles[hit_line - 1 : hit_line + 2]`. */
  method HitData(r: SearchResponse, index: int) returns (p: Result<Passage>)
    ensures Index(r.hits, index).Err? ==> p == Err(IndexError)
    ensures Index(r.hits, index).Ok? ==>
              var h := HitLineOf(r.subtitles, Index(r.hits, index).value.start);
              p == PassageAt(r.subtitles, IdText(r), h as int - 1, h + 2)
  {
    var firstHit :- Index(r.hits, index);
    var hitLine := ScanHitLine(r.subtitles, firstHit.start);
    p := PassageAt(r.subtitles, IdText(r), hitLine as int - 1, hitLine + 2);
  }

  // ---------------------------------------------------------------------------------------------
  // hits_data

  /** The next `hit_line` of `hits_data`: the first line after the previous `hit_line` that
      starts after the hit, or the previous `hit_line` when there is none. */
  function NextHitLine(subs: seq<Line>, hitLine: nat, start: int): (h: nat)
    ensures (exists k :: hitLine < k < |subs| && subs[k].s > start) ==>
              && hitLine < h < |subs| && subs[h].s > start
              && forall k :: hitLine < k < h ==> subs[k].s <= start
    ensures !(exists k :: hitLine < k < |subs| && subs[k].s > start) ==> h == hitLine
  {
    match LineAfter(subs, hitLine + 1, start)
    case Some(j) => j
    case None => hitLine
  }

  /** The `hit_line` of every hit in turn, from `hitLine`. */
  function HitLines(subs: seq<Line>, hits: seq<Hit>, hitLine: nat): (hs: seq<nat>)
    ensures |hs| == |hits|
  {
    if hits == [] then []
    else
      var h := NextHitLine(subs, hitLine, hits[0].start);
      [h] + HitLines(subs, hits[1..], h)
  }

  /** `hit_line` never moves back: each hit's line is the next line after the previous one's that
      starts after it, or the previous one. */
  lemma {:induction false} HitLinesShape(subs: seq<Line>, hits: seq<Hit>, hitLine: nat)
    ensures var hs := HitLines(subs, hits, hitLine);
      && (forall i :: 0 <= i < |hs| ==> hitLine <= hs[i])
      && (forall i, j :: 0 <= i < j < |hs| ==> hs[i] <= hs[j])
      && (hits != [] ==> hs[0] == NextHitLine(subs, hitLine, hits[0].start))
      && (forall i :: 0 < i < |hs| ==> hs[i] == NextHitLine(subs, hs[i - 1], hits[i].start))
  {
    if hits != [] {
      var h := NextHitLine(subs, hitLine, hits[0].start);
      HitLinesShape(subs, hits[1..], h);
      var hs := HitLines(subs, hits, hitLine);
      var rest := HitLines(subs, hits[1..], h);
      assert hs == [h] + rest;
      assert forall i :: 0 < i < |hs| ==> hs[i] == rest[i - 1];
      forall i | 1 < i < |hs| ensures hs[i] == NextHitLine(subs, hs[i - 1], hits[i].start) {
        assert hits[1..][i - 1] == hits[i];
      }
    }
  }

  /** `[e] + rest` when `rest` was obtained; otherwise its error. */
  function Prepend(front: seq<Passage>, rest: Result<seq<Passage>>): Result<seq<Passage>> {
    match rest
    case Ok(x) => Ok(front + x)
    case Err(e) => Err(e)
  }

  /** What the `hits_data` loop computes for the remaining `hits`, from `hitLine`: stopping at the
      first passage that fails. */
  function HitsFrom(subs: seq<Line>, id: string, hits: seq<Hit>, hitLine: nat): Result<seq<Passage>> {
    if hits == [] then Ok([])
    else
      var h := NextHitLine(subs, hitLine, hits[0].start);
      var p :- PassageAt(subs, id, h as int - 2, h + 2);
      var rest :- HitsFrom(subs, id, hits[1..], h);
      Ok([p] + rest)
  }

  /** The values of `rs` when every one was obtained; otherwise the first error. */
  function AllOk<T>(rs: seq<Result<T>>): Result<seq<T>> {
    if rs == [] then Ok([])
    else
      var x :- rs[0];
      var rest :- AllOk(rs[1..]);
      Ok([x] + rest)
  }

  /** Collecting succeeds exactly when every result is a value, and then gives those values in
      order. */
  lemma {:induction false} AllOkValues<T>(rs: seq<Result<T>>)
    ensures AllOk(rs).Ok? <==> forall i :: 0 <= i < |rs| ==> rs[i].Ok?
    ensures AllOk(rs).Ok? ==>
              && |AllOk(rs).value| == |rs|
              && forall i :: 0 <= i < |rs| ==> Ok(AllOk(rs).value[i]) == rs[i]
  {
    if rs != [] {
      AllOkValues(rs[1..]);
      assert forall i :: 0 < i < |rs| ==> rs[1..][i - 1] == rs[i];
    }
  }

  /** The passage of each hit line `h` in `hs`, `subs[h - 2 : h + 2]`. */
  function PassageResults(subs: seq<Line>, id: string, hs: seq<nat>): (ps: seq<Result<Passage>>)
    ensures |ps| == |hs|
  {
    seq(|hs|, i requires 0 <= i < |hs| => PassageAt(subs, id, hs[i] as int - 2, hs[i] + 2))
  }

  /** The passages for the lines `hs`, stopping at the first that fails. */
  function Passages(subs: seq<Line>, id: string, hs: seq<nat>): Result<seq<Passage>> {
    AllOk(PassageResults(subs, id, hs))
  }

  /** `hits_data` gives passages exactly when every hit line's passage exists. */
  lemma PassagesSucceed(subs: seq<Line>, id: string, hs: seq<nat>)
    ensures Passages(subs, id, hs).Ok? <==>
              forall i :: 0 <= i < |hs| ==> PassageAt(subs, id, hs[i] as int - 2, hs[i] + 2).Ok?
  {
    var ps := PassageResults(subs, id, hs);
    AllOkValues(ps);
    assert forall i :: 0 <= i < |hs| ==> ps[i] == PassageAt(subs, id, hs[i] as int - 2, hs[i] + 2);
  }

  /** `hits_data` gives one passage per hit line, in order. */
  lemma PassagesInOrder(subs: seq<Line>, id: string, hs: seq<nat>)
    ensures var r := Passages(subs, id, hs);
      r.Ok? ==>
        && |r.value| == |hs|
        && forall i :: 0 <= i < |hs| ==> Ok(r.value[i]) == PassageAt(subs, id, hs[i] as int - 2, hs[i] + 2)
  {
    AllOkValues(PassageResults(subs, id, hs));
  }

  /** The passages of `[h] + rest`: that of `h`, then those of `rest`. */
  lemma PassagesCons(subs: seq<Line>, id: string, hs: seq<nat>)
    requires hs != []
    ensures Passages(subs, id, hs) ==
              var p :- PassageAt(subs, id, hs[0] as int - 2, hs[0] + 2);
              var rest :- Passages(subs, id, hs[1..]);
              Ok([p] + rest)
  {
    var ps := PassageResults(subs, id, hs);
    assert ps[1..] == PassageResults(subs, id, hs[1..]);
  }

  /** The loop's passages are those of the hit lines. */
  lemma {:induction false} HitsFromLines(subs: seq<Line>, id: string, hits: seq<Hit>, hitLine: nat)
    ensures HitsFrom(subs, id, hits, hitLine) == Passages(subs, id, HitLines(subs, hits, hitLine))
  {
    if hits != [] {
      var h := NextHitLine(subs, hitLine, hits[0].start);
      HitsFromLines(subs, id, hits[1..], h);
      var hs := HitLines(subs, hits, hitLine);
      assert hs[0] == h && hs[1..] == HitLines(subs, hits[1..], h);
      PassagesCons(subs, id, hs);
    }
  }

  lemma PrependNothing(r: Result<seq<Passage>>)
    ensures Prepend([], r) == r
  {
    match r
    case Ok(x) => assert [] + x == x;
    case Err(_) =>
  }

  /** One turn of the `hits_data` loop: the passage of the next hit line, then the others. */
  lemma HitsFromNext(subs: seq<Line>, id: string, hits: seq<Hit>, k: nat, hitLine: nat, h: nat)
    requires k < |hits| && h == NextHitLine(subs, hitLine, hits[k].start)
    ensures var p := PassageAt(subs, id, h as int - 2, h + 2);
      && (p.Err? ==> HitsFrom(subs, id, hits[k..], hitLine) == Err(p.error))
      && (p.Ok? ==> HitsFrom(subs, id, hits[k..], hitLine) == Prepend([p.value], HitsFrom(subs, id, hits[k + 1..], h)))
  {
    var ks := hits[k..];
    assert ks[0] == hits[k] && ks[1..] == hits[k + 1..];
    match PassageAt(subs, id, h as int - 2, h + 2)
    case Err(e) =>
    case Ok(p) =>
      match HitsFrom(subs, id, hits[k + 1..], h)
      case Err(_) =>
      case Ok(rest) => assert HitsFrom(subs, id, ks, hitLine) == Ok([p] + rest);
  }

  lemma PrependTwice(a: seq<Passage>, b: seq<Passage>, r: Result<seq<Passage>>)
    ensures Prepend(a + b, r) == Prepend(a, Prepend(b, r))
  {
    match r
    case Ok(x) => assert (a + b) + x == a + (b + x);
    case Err(_) =>
  }

  /** The inner loop of `hits_data`: the next `hit_line`, scanning `subtitles[search_from:]`. */
  method ScanFrom(subs: seq<Line>, hitLine: nat, start: int) returns (h: nat)
    ensures h == NextHitLine(subs, hitLine, start)
  {
    h := hitLine;
    var searchFrom := hitLine + 1;
    var j := searchFrom;
    while j < |subs|
      invariant searchFrom <= j
      invariant LineAfter(subs, j, start) == LineAfter(subs, searchFrom, start)
    {
      if subs[j].s > start {
        h := j;
        return;
      }
      j := j + 1;
    }
  }

  /** `hits_data()`: the passage of `subtitles[hit_line - 2 : hit_line + 2]` for every hit, in
      hit order. */
  method HitsData(r: SearchResponse) returns (result: Result<seq<Passage>>)
    ensures result == Passages(r.subtitles, IdText(r), HitLines(r.subtitles, r.hits, 0))
  {
    var id := IdText(r);
    var passages: seq<Passage> := [];
    var hitLine: nat := 0;
    var k := 0;
    assert r.hits[0..] == r.hits;
    PrependNothing(HitsFrom(r.subtitles, id, r.hits, 0));
    while k < |r.hits|
      invariant 0 <= k <= |r.hits|
      invariant Prepend(passages, HitsFrom(r.subtitles, id, r.hits[k..], hitLine))
                == HitsFrom(r.subtitles, id, r.hits, 0)
    {
      var h := ScanFrom(r.subtitles, hitLine, r.hits[k].start);
      HitsFromNext(r.subtitles, id, r.hits, k, hitLine, h);
      var p := PassageAt(r.subtitles, id, h as int - 2, h + 2);
      if p.Err? {
        HitsFromLines(r.subtitles, id, r.hits, 0);
        return Err(p.error);
      }
      PrependTwice(passages, [p.value], HitsFrom(r.subtitles, id, r.hits[k + 1..], h));
      passages := passages + [p.value];
      hitLine := h;
      k := k + 1;
    }
    assert r.hits[k..] == [];
    assert passages + [] == passages;
    HitsFromLines(r.subtitles, id, r.hits, 0);
    result := Ok(passages);
  }

  /** `hits_data` gives exactly one passage per hit, when none fails. */
  lemma HitsDataOnePerHit(r: SearchResponse)
    ensures Passages(r.subtitles, IdText(r), HitLines(r.subtitles, r.hits, 0)).Ok? ==>
              |Passages(r.subtitles, IdText(r), HitLines(r.subtitles, r.hits, 0)).value| == |r.hits|
  {
    PassagesInOrder(r.subtitles, IdText(r), HitLines(r.subtitles, r.hits, 0));
  }
}
