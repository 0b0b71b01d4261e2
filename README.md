# Filmot API wrapper, modelled in Dafny

This project models the core of the Filmot API wrapper, a Python client for a subtitle-search REST
API. It has two parts.

- `Asyncit` is a concurrent task runner. It has a pool-size cap and multi-window rate limiting,
  retries failed calls and collects results in an output queue.
- The search client (`Filmot.search`) builds and validates the query parameters and runs a first
  search. It then fans out one follow-up search per further result through an `Asyncit` runner and
  shapes the replies into `SearchResponse` objects.

The responses support chained attribute access (`rgetattr`, `rsetattr`), formatted attribute
reads (`attr`), key styling and conversion to a dict (`to_dict`). Their dicts are `DotDict`s:
dicts whose keys can also be read as attributes.

Files:

- `wrappers.dfy`: `Option`, `Result` and the Python exceptions the code raises.
- `pylib.dfy`: the Python built-ins the code relies on.
  - slice and index normalisation;
  - `str.split`, `join`, `rpartition`, `replace`, and `title`, `lower`, `isdigit` for ASCII text;
  - `str(int)` and `int(str)`.
- `values.dfy`: Python values, truthiness, `str()` of scalars, and insertion-ordered dicts (`ODicts`).
- `dicts.dfy`: the `DotDict` class, whose entries the methods update in place.
- `asyncit.dfy`, with the `Asyncit` class. Its fields hold:
  - the rate-limit windows;
  - the output queue;
  - the iteration counter;
  - the pool slots in use;
  - the futures.
  
  The rate gate and the retry loop are loops, specified by the functions `RunGate` and `Retry`.
- `responses_base.dfy`: `rgetattr`, `rsetattr`, `attr`, `styling` and `to_dict`. The two loops of
  `to_dict` are methods proved against fold functions.
- `responses.dfy`: `SearchResponse`: its construction, `main_field`, `hit_count`, `hit_data` and
  `hits_data`. Both `hit_data` and `hits_data` are loops, proved against functions.
- `filmot.dfy`: `add_param`, the search parameters, `search_one`, the follow-up ids and queries,
  and `search`. `search` runs the follow-ups through an `Asyncit` object.

Environment inputs become parameters:

- The clock is an integer `now`.
- `randint(1, 6)` is a function `draws` from attempt number to backoff.
- The wrapped function is a function from attempt number to outcome.
- The HTTP request of `send_api` is a function `api` from query parameters to a decoded reply or
  an error.
- JSON encoding is a `Codec` pair.

The runner is modelled sequentially: `run` performs `func_wrapper` at once and records its result
as a future.

Where the code and its design description disagree, the model follows the code:

- `get_output` never returns `None`. A `queue.Queue` is always truthy, so the `None` branch is
  dead, and a runner without `save_output` returns `[]`.
- A retry does not pass the rate gate again. Only the first attempt consumes a rate slot.
- The lock is held across the rate-limit sleep. Later windows are evaluated at the clock reading
  after the earlier windows' sleeps.
- `time.sleep` raises on a negative duration. This happens only when a limit has `max_calls < 1`.
  The exception then leaves `func_wrapper` and the pool slot is never released.
- A window starts a new period when the remaining time is `<= 0`, that is when the elapsed time
  reaches the period, not only when it exceeds it.
- Nothing validates `period_sec` or `max_calls` at construction.
- `search` checks the language under the name `"language"` but adds it as `"lang"`, so a language
  is never rejected. The model states this as-written behaviour (`Filmot.LanguageNeverValidated`).

## Model

| member | source | states |
|---|---|---|
| Asyncit.Tick | src/filmot/asyncit.py:122-130 | a window whose period has run out restarts at `now` with one call; otherwise its count rises by one; the total always rises by one; the counters stay valid |
| Asyncit.Evaluate | src/filmot/asyncit.py:122-131 | the call goes over the limit exactly when the period's calls, this one included (one in a period that starts anew), exceed `max_calls`; only a limit below one makes the sleep non-positive; a call within the limit leaves the clock where it was |
| Asyncit.RunGate | src/filmot/asyncit.py:119-133 | every window is updated; a raising step is the last one recorded; no raise means one step per window |
| Asyncit.GateCountsEveryCall | src/filmot/asyncit.py:119-133 | each evaluated window gains exactly one call in total; its period count restarts at one or rises by one; it sleeps exactly when over its limit, for the remaining period; windows the gate never reached are unchanged |
| Asyncit.GateClock | src/filmot/asyncit.py:119-133 | the first window is evaluated at `now` and each later one after the previous one's sleep; without a raise the gate ends at `now` plus the sum of the sleeps |
| Asyncit.GateTicks | src/filmot/asyncit.py:121-131 | each evaluated window is `Tick`ed and `Evaluate`d at its own step's clock reading |
| Asyncit.GateUnreached | src/filmot/asyncit.py:121-133 | the windows the gate never reached, those after the one whose sleep raised, keep their state |
| Asyncit.GateKeepsWindowsValid | src/filmot/asyncit.py:125-130 | the gate keeps `0 <= num_calls <= total_calls` for every window |
| Asyncit.NonPositiveSleepNeedsZeroLimit | src/filmot/asyncit.py:125-133 | a sleep of zero or less is requested only by a window with `max_calls < 1` |
| Asyncit.PositiveLimitsNeverRaise | src/filmot/asyncit.py:131-133 | with every `max_calls >= 1`, `time.sleep` never gets a negative duration |
| Asyncit.RetryFromShape | src/filmot/asyncit.py:135-167 | at most `max_retry` invocations; every attempt but the last raised; a return or a cancellation ends the loop at once; exhaustion only after `max_retry` raising attempts; one backoff between consecutive attempts, drawn for the failed one |
| Asyncit.AlwaysFailing | src/filmot/asyncit.py:139-167 | a function that always raises is invoked exactly `max_retry` times, with `max_retry - 1` backoffs, and ends exhausted |
| Asyncit.StopsAtFirstNonFailure | src/filmot/asyncit.py:139-155 | the loop stops at the first attempt that does not raise, with that attempt's ending |
| Asyncit.LoadStore | src/filmot/asyncit.py:147-151 | with a lawful codec, `json.loads(json.dumps(v))` brings a stored value back unchanged |
| Asyncit.Asyncit.constructor | src/filmot/asyncit.py:55-95 | the configuration is kept as given, and `max_retry` defaults to 1 when absent or zero; each limit becomes a window reset at `now` with zero counts; the queue, the futures and the counters start empty |
| Asyncit.Asyncit.RateGate | src/filmot/asyncit.py:119-133 | the gate loop leaves the windows, the sleeps and the raise flag that `RunGate` gives |
| Asyncit.Asyncit.RetryLoop | src/filmot/asyncit.py:135-167 | the loop makes the attempts `Retry` gives; the queue gains the returned value only when it is not `None` and `save_output` is set (as JSON when `save_as_json` is set); the counter rises on success only when `iter_indication` is truthy |
| Asyncit.Asyncit.FuncWrapper | src/filmot/asyncit.py:114-170 | a call blocks when all pool slots are held; when the gate raises it keeps its slot and changes neither the queue nor the counter; otherwise it runs the retry loop and gives the slot back |
| Asyncit.Asyncit.Run | src/filmot/asyncit.py:172-182 | one future is appended, and it records what `func_wrapper` did |
| Asyncit.Asyncit.Wait | src/filmot/asyncit.py:184-187 | `wait()` returns exactly when no call is waiting on a leaked pool slot, and then the futures list is emptied; otherwise it never returns and nothing changes |
| Asyncit.Asyncit.GetOutput | src/filmot/asyncit.py:189-215 | the queue's entries come back in FIFO order, decoded when saved as JSON, and the queue is left empty |
| Asyncit.SavedAsJsonComesBack | src/filmot/asyncit.py:189-215 | a value saved as JSON with a lawful codec is returned by `get_output` as it was |
| Asyncit.NothingSavedWithoutSaveOutput | src/filmot/asyncit.py:147-151 | without `save_output` the queue stays empty, though the call still returns its value |
| Asyncit.RetriedCallIsSavedOnce | src/filmot/asyncit.py:139-162 | a call that fails once and then returns, with `max_retry=2`, is saved once, counted once, and sleeps one backoff |
| Asyncit.FailingCallIsTriedOnce | src/filmot/asyncit.py:76-167 | without `max_retry`, a failing call is invoked once and nothing is saved |
| Asyncit.OutputIsDrained | src/filmot/asyncit.py:208-215 | two saved values come back in order, and a second `get_output` returns `[]` |
| Asyncit.OneCallEveryTen | src/filmot/asyncit.py:122-133 | with one call per 10 time units at clock reading 0, the first call passes without a sleep and the second goes over the limit and sleeps 10 |
| Asyncit.SecondCallInPeriodSleeps | src/filmot/asyncit.py:119-133 | with one call per 10 time units, the first call does not sleep and a second call in the same period sleeps 10 |
| Asyncit.ZeroLimitLeaksPoolSlot | src/filmot/asyncit.py:114-133 | with a zero limit, the call's sleep raises with no sleep taken, the slot leaks, the next call on a pool of one blocks, and `wait()` never returns |
| Dicts.DotDict.constructor | src/filmot/dicts.py:25-40 | the new `DotDict` holds exactly the given entries |
| Dicts.DotDict.Get | src/filmot/dicts.py:49-54 | the entry for `k`, or `default` when `k` is absent; a dict (found or default) comes back wrapped in a fresh `DotDict` with the same entries, any other value as it is |
| Dicts.DotDict.GetAttr | src/filmot/dicts.py:42-47 | a missing key reads as `None`; a dict value comes back as a fresh `DotDict`; any other value as it is |
| Dicts.DotDict.SetAttr | src/filmot/dicts.py:39 | `d.k = v` sets entry `k` to `v` and changes nothing else |
| Dicts.DotDict.DelAttr | src/filmot/dicts.py:40 | `del d.k` removes `k`, or raises KeyError when `k` is absent |
| Dicts.DotDict.Update | src/filmot/dicts.py:56-59 | the positional mapping and then the keyword arguments override the entries; the same object is returned |
| Dicts.DotDict.Copy | src/filmot/dicts.py:61-63 | a fresh `DotDict` with the same entries |
| Dicts.AssignOnCopy | src/filmot/dicts.py:61-63 | assigning on a copy leaves the original unchanged; the copy is another object holding the original's entries plus the new one |
| ResponsesBase.GetAttr | src/filmot/responses_base.py:29-30 | an object's attribute; a `DotDict`'s entry, or `None` when missing; otherwise the default, and AttributeError exactly when there is none |
| ResponsesBase.SetAttr | src/filmot/responses_base.py:38 | an object or a `DotDict` takes the attribute and reads it back; any other value raises AttributeError |
| ResponsesBase.GetPathAppend | src/filmot/responses_base.py:32 | following one more segment is one more `getattr` on what the chain reached, and an error stops the chain |
| ResponsesBase.GetPathWithDefault | src/filmot/responses_base.py:29-32 | with a default, `rgetattr` never fails |
| ResponsesBase.RGetAttrSingle | src/filmot/responses_base.py:22-32 | a key without a dot is a single `getattr` |
| ResponsesBase.RGetAttrDotted | src/filmot/responses_base.py:22-32 | `rgetattr(o, "pre.post")` is `getattr(rgetattr(o, "pre"), "post")` |
| ResponsesBase.RSetAttr | src/filmot/responses_base.py:35-38 | without a dot, `rsetattr` is `setattr` on the object itself |
| ResponsesBase.SetPathThenGet | src/filmot/responses_base.py:35-38 | when the chain leads to objects held by reference, the value set is the value read back |
| ResponsesBase.RSetAttrThenGet | src/filmot/responses_base.py:35-38 | `rgetattr(rsetattr(o, "pre.post", v), "pre.post") == v` when `pre` leads to an object by reference |
| ResponsesBase.WriteBelowDictIsLost | src/filmot/responses_base.py:35-38 | for dict-only data, a write below a dict value of a `DotDict` leaves the `DotDict` unchanged, because `__getattr__` handed out a copy |
| ResponsesBase.Attr | src/filmot/responses_base.py:125-148 | every failure is re-raised as a plain `Exception` |
| ResponsesBase.AttrOutcome | src/filmot/responses_base.py:126-140 | a falsy value, or any value without `auto_format`, is returned unformatted; `attr` fails exactly on a non-empty list or dict to auto-format; other values without digit text come back unchanged |
| ResponsesBase.AttrReadsNumber | src/filmot/responses_base.py:135-138 | with `auto_format`, the decimal text of a number reads as that number |
| ResponsesBase.Styling | src/filmot/responses_base.py:164-172 | every failure is re-raised as a plain `Exception` |
| ResponsesBase.StylingPlain | src/filmot/responses_base.py:165-170 | with both options off the key is unchanged; merging dotted keys replaces every dot by an underscore and keeps every other character in place |
| ResponsesBase.CamelChar | src/filmot/responses_base.py:168 | one character through the camel-casing is, up to case, itself unless it is an underscore or a space, and keeps whether it is cased |
| ResponsesBase.CamelLetters | src/filmot/responses_base.py:168 | `replace("_", " ").title().replace(" ", "")` keeps the key's text up to case, without underscores and spaces |
| ResponsesBase.SqueezeEmpty | src/filmot/responses_base.py:168-169 | the camel-cased text is empty exactly when the key is made only of underscores and spaces |
| ResponsesBase.CamelCase | src/filmot/responses_base.py:165-169 | camel-casing fails (IndexError, re-raised) exactly for a key of separators only; otherwise the result is non-empty, does not start upper-case, has no underscores or spaces (and no dots when merging), and keeps the key's text up to case |
| ResponsesBase.CollectFields | src/filmot/responses_base.py:191-195 | the first loop builds what the fold `CollectFrom` gives |
| ResponsesBase.CollectReads | src/filmot/responses_base.py:191-195 | every field, in order, is kept under its own name with the value `attr` reads |
| ResponsesBase.ReadOwnFields | src/filmot/responses_base.py:193 | an undotted field of an object reads as that object's attribute |
| ResponsesBase.CollectOwnFields | src/filmot/responses_base.py:187-195 | a response without dotted field names collects exactly its own fields |
| ResponsesBase.NestDottedKeys | src/filmot/responses_base.py:198-206 | the nesting loop builds what the fold `NestFrom` gives |
| ResponsesBase.ToDict | src/filmot/responses_base.py:174-209 | `to_dict` gives `ToDictSpec`: the fields read through `attr`, `None` values dropped if asked, dotted keys nested if asked; a failure while nesting is re-raised |
| ResponsesBase.NestUndotted | src/filmot/responses_base.py:199-205 | nesting leaves entries with undotted keys as they are, in order |
| ResponsesBase.ToDictOwnFields | src/filmot/responses_base.py:174-209 | `to_dict()` of a response without dotted field names is its fields, keys and order kept; `dotted_key_to_dict` then changes nothing |
| ResponsesBase.ToDictIgnoreNone | src/filmot/responses_base.py:196-197 | `ignore_none` keeps exactly the fields whose value is not `None` |
| ResponsesBase.NestStepDotted | src/filmot/responses_base.py:201-203 | key `a.b` stores the value at `new[a][b]`, in a new dict or in the dict already there, and nowhere else; it fails only when `new[a]` holds a non-dict |
| ResponsesBase.NestStepUndotted | src/filmot/responses_base.py:204-205 | an undotted key is stored as it is |
| ResponsesBase.NestStepFirstTwo | src/filmot/responses_base.py:201-203 | only a dotted key's first two segments matter: `a.b.c` is stored as `a.b` is |
| Responses.InsertPermutes | src/filmot/responses.py:34 | inserting a hit adds exactly that hit |
| Responses.InsertStable | src/filmot/responses.py:34 | an inserted hit goes before the others with the same start |
| Responses.InsertSorted | src/filmot/responses.py:34 | inserting into sorted hits keeps them sorted |
| Responses.SortByStartSpec | src/filmot/responses.py:34 | `sorted(hits, key=start)` is ordered by start, is a permutation of the hits, and keeps the order of hits that start together |
| Responses.NewSearchResponse | src/filmot/responses.py:22-38 | query, result and subtitles are kept; the hits are sorted stably; `more_results` loses its first element |
| Responses.MainFieldParts | src/filmot/responses.py:46-53 | `main_field` starts with the query followed by `-`; when the id has no `-`, `rpartition("-")` recovers the query and the id |
| Responses.HitCountOfNew | src/filmot/responses.py:55-57 | the hit count is the number of hits given, since sorting neither adds nor drops any |
| Responses.LineAfter | src/filmot/responses.py:71-74 | the first line from `from` on that starts after `t`, or nothing when there is none |
| Responses.PassageAt | src/filmot/responses.py:75-82 | the passage fails with IndexError exactly when its first index is outside the subtitles; its text joins the texts of `subtitles[lo:hi]` with spaces |
| Responses.PassageInside | src/filmot/responses.py:75-82 | a passage inside the subtitles links to the start of its first line and holds the lines up to `hi` |
| Responses.PassageWraps | src/filmot/responses.py:75-82 | at the top of four or more lines the start index wraps: the link points at the next-to-last line and the text is empty |
| Responses.HitLineOf | src/filmot/responses.py:69-74 | the position within `subtitles[1:]` of the first line that starts after the hit, or 0 when there is none |
| Responses.ScanHitLine | src/filmot/responses.py:70-74 | the loop finds `HitLineOf`: the position in `subtitles[1:]` of the first line that starts after the hit, or 0 |
| Responses.HitData | src/filmot/responses.py:59-83 | an out-of-range index raises IndexError; otherwise the passage of `subtitles[hit_line - 1 : hit_line + 2]` |
| Responses.NextHitLine | src/filmot/responses.py:95-99 | the first line after the previous `hit_line` that starts after the hit, or the previous `hit_line` |
| Responses.HitLinesShape | src/filmot/responses.py:93-100 | `hit_line` never moves back; each hit's line is the next line after the previous one that starts after it |
| Responses.ScanFrom | src/filmot/responses.py:96-99 | the inner loop finds `NextHitLine` |
| Responses.PassagesSucceed | src/filmot/responses.py:101-111 | `hits_data` succeeds exactly when every hit line's passage exists |
| Responses.PassagesInOrder | src/filmot/responses.py:101-111 | `hits_data` gives one passage per hit line, in order, each that of `subtitles[h - 2 : h + 2]` |
| Responses.HitsFromLines | src/filmot/responses.py:92-111 | the loop's passages are those of the hit lines |
| Responses.HitsFromNext | src/filmot/responses.py:95-110 | one turn of the loop appends the next hit line's passage, or stops at its error |
| Responses.HitsData | src/filmot/responses.py:85-111 | `hits_data` gives the passages of the hit lines found for the hits, in order |
| Responses.HitsDataOnePerHit | src/filmot/responses.py:85-111 | when it succeeds, `hits_data` gives exactly one passage per hit |
| Filmot.AddParam | src/filmot/filmot.py:153-162 | a `None` value is skipped; it fails the assertion exactly when a category, country or language is outside its table; otherwise the value is set under the name |
| Filmot.AddAllSpec | src/filmot/filmot.py:153-180 | a run of `add_param` fails exactly when some non-`None` value is rejected; otherwise every name holds the last non-`None` value given for it |
| Filmot.LastGivenDistinct | src/filmot/filmot.py:164-180 | with distinct names, each name holds its own value when that is not `None`, and other names are untouched |
| Filmot.QuotedSpec | src/filmot/filmot.py:165 | a query is wrapped in double quotes exactly when it has a space, and unquoting gives it back |
| Filmot.ParamNamesDistinct | src/filmot/filmot.py:165-180 | the sixteen parameter names are distinct; only `category` and `country` are checked |
| Filmot.Named | src/filmot/filmot.py:165-180 | one `add_param` call per parameter name, in call order |
| Filmot.QueryParamsKeys | src/filmot/filmot.py:164-180 | a parameter is present exactly when its argument is not `None`, with that value; no other key is present; the query is always present, quoted when it has a space |
| Filmot.QueryParamsRejects | src/filmot/filmot.py:156-161 | building the parameters fails with AssertionError exactly for a category or country outside its table |
| Filmot.LanguageNeverValidated | src/filmot/filmot.py:160-166 | any language value is accepted and sent as `lang` |
| Filmot.SearchOne | src/filmot/filmot.py:88-99 | a query without the `query` key raises KeyError before any request; a failed request propagates; otherwise the response holds the query and the reply's subtitles |
| Filmot.IdOf | src/filmot/filmot.py:185 | `i["id"]` succeeds exactly on a dict with an id, giving that id |
| Filmot.IdsOfSpec | src/filmot/filmot.py:185 | the ids come one per result, in order, and fail exactly when some result has no id |
| Filmot.FollowUpCount | src/filmot/filmot.py:185 | `[: limit - 1]` keeps at most all the further results |
| Filmot.FollowUpIdsSpec | src/filmot/filmot.py:185 | the ids are those of the first `limit - 1` further results (all but `1 - limit` from the end for a limit below one); `limit=1` gives none |
| Filmot.FollowUpQuery | src/filmot/filmot.py:189-190 | the follow-up query has the original keys plus `queryVideoID` |
| Filmot.FollowUpQuerySpec | src/filmot/filmot.py:189-190 | `queryVideoID` holds the id and every other parameter is as before |
| Filmot.SubmitFollowUp | src/filmot/filmot.py:191 | the response is queued exactly when the follow-up search succeeds |
| Filmot.RunFollowUps | src/filmot/filmot.py:187-193 | the runner returns the successful follow-up responses in submission order |
| Filmot.Search | src/filmot/filmot.py:101-196 | `search` gives `SearchSpec`: the first error of validation, the first search or the ids; otherwise the first response followed by the follow-up responses |
| Filmot.SearchStartsWithFirst | src/filmot/filmot.py:182-196 | the result starts with the first response, followed by at most one response per follow-up id |
| Filmot.FollowUpsBound | src/filmot/filmot.py:188-194 | a follow-up search adds at most one response |

## Left out

- `send_api`, HTTP and the `FilmotException` wrapping: the request is the parameter `api`, which returns a reply or an error.
- `Filmot.__init__`, `set_rapidapi_key` and `Config`: configuration file I/O.
- `Filmot.SearchOne`: the `**` expansion of the reply into keyword arguments is not modelled. The reply is a typed record, so a reply with missing or extra keys (a TypeError in Python) cannot occur.
- `Filmot.Search`: outputs come back in submission order. The real runner queues them in completion order, which concurrency makes unpredictable.
- Concurrency is not modelled: the asyncio executor, worker threads, blocking on the semaphore and the lock. Calls run one at a time, and a call that finds every pool slot held is recorded as blocked.
- `Asyncit.Asyncit.Wait`: once a call waits on a pool slot that a failed gate leaked, `wait()` hangs for ever in Python. The model cannot run for ever, so it returns `finished == false` and leaves the futures as they were.
- `Asyncit.Asyncit.constructor`: `pool_size` is a natural number. A negative `pool_size`, for which `threading.Semaphore` raises ValueError, is not modelled.
- `Asyncit.Codec`: `encode` is total. Python's `json.dumps` raises TypeError on a value it cannot encode. That happens inside the `try`, after `iter_counter` has risen, so Python counts the call, queues nothing, invokes the function again and finally returns the raw value; the model does not capture this.
- `reset_start_time`, `total_run_time`, `_gather_with_concurrency` and logging: clock formatting and diagnostics. The `iter_indication` progress log is not modelled, only the counter.
- Floating point is not modelled. Times (`start`, `s`, `period_sec`, the clock) are integers, and `float()` parse errors on hit or line times are not modelled.
- `Responses.HitData`: the link formats the start as an integer. Python inserts the stored value's own text.
- `attr`'s `cast`, `jsonify`, `to_epoch`, `to_date_str` and `str_date_format` paths (arbitrary casts, dates, `literal_eval` on strings) are not modelled. Only the default, falsy-value and `auto_format` paths are.
- `to_json`, `ResponseJSONEncoder`, `__str__`, `__repr__` and the `Meta` classes: JSON and text rendering.
- `fields()` (`vars(self)`) is not modelled: `to_dict` takes the fields as an ordered dict.
- `ResponsesBase.RSetAttr`: modelled on values. It returns the updated object, so in-place mutation and aliasing between objects are not captured. The write lost below a `DotDict`'s dict value is captured.
- `ResponsesBase.WriteBelowDictIsLost`: holds for dict-only data. The copy `__getattr__` hands out is shallow, so an object held inside the dict is shared: in Python a write into that object is seen from the original, while the model loses it. JSON data never places an object inside a dict.
- Case mapping and digit tests are ASCII only: `title`, `lower` and `isdigit` treat every other character as uncased and not a digit. Python's are Unicode-aware: `"élan".title()` is `"Élan"` where the model gives `"éLan"`, `"ß".title()` is `"Ss"`, which changes the text, and `"²".isdigit()` is true, so `attr(auto_format=True)` would call `int("²")` and re-raise where the model returns the text. `ResponsesBase.CamelLetters` and `ResponsesBase.AttrReadsNumber` are stated for this ASCII reading.
- `Values.Text`: `str()` of a list, dict or object is rendered as the empty string, not as its `repr`.
- `Filmot.SearchOne`: the query is stored as its text, `Values.Text`. Python keeps the value itself, so a query that is not a string is not captured.
- `DotDict` keys named like dict methods are not modelled: in Python, `d.items` gives the method, not the entry.
- `DotDict` key order and the non-mapping argument forms of `update` are not modelled: entries are a map.
- `SearchResponse` hits and lines are records with the fields the code reads. The other fields of a hit are kept in `data`.
- The category, country and language tables of `consts.py` are written out as constants: 15 categories, country codes 1 to 250 and 76 language codes.
