/** `Asyncit`: runs wrapped calls behind an optional pool-size semaphore and a multi-window rate
    limiter, retries failed calls, and optionally collects their results in an output queue.

    The model runs one wrapper invocation at a time. Time is an integer clock passed in by the
    caller; a sleep is returned as a duration and advances that clock, instead of blocking. */
module Asyncit {
  import opened Wrappers

  // ---------------------------------------------------------------------------------------------
  // Rate-limit windows

  /** A configured limit: at most `maxCalls` calls every `periodSec` time units. */
  datatype Limit = Limit(maxCalls: int, periodSec: int)

  /** A limit's bookkeeping record, as `__init__` builds it and the gate updates it. */
  datatype Window = Window(maxCalls: int, periodSec: int, lastReset: int, numCalls: int, totalCalls: int)

  /** `__period_remaining`: the time left in the window's current period at clock reading `now`. */
  function PeriodRemaining(w: Window, now: int): int {
    w.periodSec - (now - w.lastReset)
  }

  /** The counters never go negative and the total never falls below the current period's count. */
  predicate WindowValid(w: Window) {
    0 <= w.numCalls <= w.totalCalls
  }

  /** One window's turn in the gate at clock reading `now`: a window whose period ran out starts a
      new period at `now`, then the call is counted in the period and in the total. */
  function Tick(w: Window, now: int): (r: Window)
    ensures r.maxCalls == w.maxCalls && r.periodSec == w.periodSec
    ensures r.totalCalls == w.totalCalls + 1
    ensures PeriodRemaining(w, now) <= 0 ==> r.lastReset == now && r.numCalls == 1
    ensures PeriodRemaining(w, now) > 0 ==> r.lastReset == w.lastReset && r.numCalls == w.numCalls + 1
    ensures WindowValid(w) ==> WindowValid(r)
  {
    var started := if PeriodRemaining(w, now) <= 0 then w.(numCalls := 0, lastReset := now) else w;
    started.(numCalls := started.numCalls + 1, totalCalls := started.totalCalls + 1)
  }

  /** What happened at one window: the clock reading it was evaluated at, the period remaining
      computed before any reset, and whether the call went over the window's limit. */
  datatype Step = Step(at: int, remaining: int, over: bool)

  /** A window's step when the gate reaches it at clock reading `now`: the call goes over the
      limit when the period's calls, this one included, exceed `max_calls`, a call that starts a
      new period being the period's first. Only a limit below one can make the sleep
      non-positive, and a call within the limit leaves the clock where it was. */
  function Evaluate(w: Window, now: int): (s: Step)
    ensures s.at == now
    ensures s.over <==> (if w.periodSec - (now - w.lastReset) <= 0 then 1 else w.numCalls + 1) > w.maxCalls
    ensures s.over && s.remaining <= 0 ==> w.maxCalls < 1
    ensures !s.over ==> After(s) == now
  {
    Step(now, PeriodRemaining(w, now), Tick(w, now).numCalls > Tick(w, now).maxCalls)
  }

  /** The step went over the limit with a negative remaining period, so `time.sleep` raised. */
  predicate Fails(s: Step) {
    s.over && s.remaining < 0
  }

  /** The clock reading after a step: later by the sleep when the step went over its limit. */
  function After(s: Step): int {
    if s.over then s.at + s.remaining else s.at
  }

  /** The outcome of a whole gate: the updated windows, one step per window evaluated, the clock
      after the gate, and whether `time.sleep` raised (it refuses a negative duration). */
  datatype Gate = Gate(windows: seq<Window>, steps: seq<Step>, clock: int, raised: bool)

  /** The gate over windows `ws`, entered at clock reading `now`. The windows are evaluated in
      order; a window that goes over its limit sleeps for its remaining period while the lock is
      held, so the windows after it are evaluated at the later clock reading. The gate stops
      early only where `time.sleep` is handed a negative duration. */
  function RunGate(ws: seq<Window>, now: int): (g: Gate)
    ensures |g.windows| == |ws|
    ensures |g.steps| <= |ws|
    ensures !g.raised ==> |g.steps| == |ws|
    ensures g.raised ==> |g.steps| > 0 && Fails(g.steps[|g.steps| - 1])
  {
    if ws == [] then Gate([], [], now, false)
    else
      var step := Evaluate(ws[0], now);
      if Fails(step) then Gate([Tick(ws[0], now)] + ws[1..], [step], now, true)
      else
        var rest := RunGate(ws[1..], After(step));
        Gate([Tick(ws[0], now)] + rest.windows, [step] + rest.steps, rest.clock, rest.raised)
  }

  /** The sleep durations actually taken, in order: one per step that went over its limit,
      except a final step whose negative duration made `time.sleep` raise. */
  function Slept(steps: seq<Step>): seq<int> {
    if steps == [] then []
    else (if steps[0].over && steps[0].remaining >= 0 then [steps[0].remaining] else [])
         + Slept(steps[1..])
  }

  lemma SleptAppend(steps: seq<Step>, s: Step)
    ensures Slept(steps + [s]) == Slept(steps) + (if s.over && s.remaining >= 0 then [s.remaining] else [])
  {
    if steps != [] {
      assert (steps + [s])[1..] == steps[1..] + [s];
    }
  }

  lemma SleptOne(s: Step)
    ensures Slept([s]) == if s.over && s.remaining >= 0 then [s.remaining] else []
  {
    assert [s][1..] == [];
  }

  function Sum(s: seq<int>): int {
    if s == [] then 0 else s[0] + Sum(s[1..])
  }

  lemma {:induction false} SumAppend(a: seq<int>, b: seq<int>)
    ensures Sum(a + b) == Sum(a) + Sum(b)
  {
    if a == [] {
      assert a + b == b;
    } else {
      SumAppend(a[1..], b);
      assert (a + b)[0] == a[0] && (a + b)[1..] == a[1..] + b;
    }
  }

  /** The gate from window `i` on: window `i` is `Tick`ed and evaluated at `t`, and unless
      `time.sleep` raised there, the gate goes on from window `i + 1` after that step. */
  lemma GateAdvance(ws: seq<Window>, i: nat, t: int)
    requires i < |ws|
    ensures var rest, step, w := RunGate(ws[i..], t), Evaluate(ws[i], t), Tick(ws[i], t);
      && (Fails(step) ==> rest.windows == [w] + ws[i + 1..] && rest.steps == [step] && rest.raised)
      && (!Fails(step) ==>
            var next := RunGate(ws[i + 1..], After(step));
            && rest.windows == [w] + next.windows && rest.steps == [step] + next.steps
            && rest.clock == next.clock && rest.raised == next.raised)
  {
    assert ws[i..][0] == ws[i] && ws[i..][1..] == ws[i + 1..];
  }

  /** Replacing the first unprocessed window of `done + ws[|done|..]` moves it to `done`. */
  lemma SpliceUpdate(done: seq<Window>, ws: seq<Window>, w: Window)
    requires |done| < |ws|
    ensures (done + ws[|done|..])[|done| := w] == (done + [w]) + ws[|done| + 1..]
  {
    var i := |done|;
    var l, r := (done + ws[i..])[i := w], (done + [w]) + ws[i + 1..];
    assert |l| == |r|;
    forall j | 0 <= j < |l| ensures l[j] == r[j] {
      if j > i { assert l[j] == ws[i..][j - i] == ws[j]; }
    }
  }

  /** The gate over `ws` from clock reading `now` has evaluated the windows of `done` into
      `steps`, and the clock reads `t`: the rest of the gate is the gate over the remaining
      windows from `t`. */
  ghost predicate GateSoFar(ws: seq<Window>, now: int, done: seq<Window>, steps: seq<Step>, t: int)
    requires |done| <= |ws|
  {
    var g, rest := RunGate(ws, now), RunGate(ws[|done|..], t);
    && g.windows == done + rest.windows && g.steps == steps + rest.steps
    && g.clock == rest.clock && g.raised == rest.raised
  }

  /** One more window: if `time.sleep` raises there, the gate ends with the window `Tick`ed and
      its step recorded; otherwise the gate so far takes in the window and its step and moves
      the clock on. */
  lemma GateSoFarNext(ws: seq<Window>, now: int, done: seq<Window>, steps: seq<Step>, t: int)
    requires |done| < |ws| && GateSoFar(ws, now, done, steps, t)
    ensures var i, step := |done|, Evaluate(ws[|done|], t);
      && (Fails(step) ==>
            var g := RunGate(ws, now);
            g.windows == (done + [Tick(ws[i], t)]) + ws[i + 1..] && g.steps == steps + [step] && g.raised)
      && (!Fails(step) ==> GateSoFar(ws, now, done + [Tick(ws[i], t)], steps + [step], After(step)))
  {
    var i := |done|;
    GateAdvance(ws, i, t);
    var step := Evaluate(ws[i], t);
    var g, rest := RunGate(ws, now), RunGate(ws[i..], t);
    var w := Tick(ws[i], t);
    if Fails(step) {
      assert g.windows == (done + [w]) + ws[i + 1..] by {
        assert g.windows == done + ([w] + ws[i + 1..]);
      }
    } else {
      var next := RunGate(ws[i + 1..], After(step));
      assert ws[|done + [w]|..] == ws[i + 1..];
      assert g.windows == (done + [w]) + next.windows by {
        assert g.windows == done + ([w] + next.windows);
      }
      assert g.steps == (steps + [step]) + next.steps by {
        assert g.steps == steps + ([step] + next.steps);
      }
      assert g.clock == next.clock && g.raised == next.raised;
      assert GateSoFar(ws, now, done + [w], steps + [step], After(step));
    }
  }

  /** The gate over a single window. */
  lemma GateOfOne(w: Window, now: int)
    ensures var step := Evaluate(w, now);
      RunGate([w], now) == Gate([Tick(w, now)], [step], if Fails(step) then now else After(step), Fails(step))
  {
    assert [w][1..] == [];
  }

  /** The gate leaves the windows it never reached as they were. */
  lemma {:induction false} GateUnreached(ws: seq<Window>, now: int)
    ensures var g := RunGate(ws, now);
      forall j :: |g.steps| <= j < |ws| ==> g.windows[j] == ws[j]
  {
    if ws != [] {
      var step := Evaluate(ws[0], now);
      var g := RunGate(ws, now);
      if Fails(step) {
        assert g.windows == [Tick(ws[0], now)] + ws[1..];
      } else {
        GateUnreached(ws[1..], After(step));
        var rest := RunGate(ws[1..], After(step));
        assert g.windows == [Tick(ws[0], now)] + rest.windows && |g.steps| == 1 + |rest.steps|;
        forall j | |g.steps| <= j < |ws| ensures g.windows[j] == ws[j] {
          assert g.windows[j] == rest.windows[j - 1];
        }
      }
    }
  }

  /** Each window the gate evaluated is `Tick`ed at its step's clock reading, and the step is
      that window's `Evaluate` at that reading. */
  lemma {:induction false} GateTicks(ws: seq<Window>, now: int)
    ensures var g := RunGate(ws, now);
      forall j :: 0 <= j < |g.steps| ==>
        g.windows[j] == Tick(ws[j], g.steps[j].at) && g.steps[j] == Evaluate(ws[j], g.steps[j].at)
  {
    if ws != [] {
      var step := Evaluate(ws[0], now);
      var g := RunGate(ws, now);
      if !Fails(step) {
        GateTicks(ws[1..], After(step));
        var rest := RunGate(ws[1..], After(step));
        assert g.windows == [Tick(ws[0], now)] + rest.windows && g.steps == [step] + rest.steps;
        forall j | 1 <= j < |g.steps|
          ensures g.windows[j] == Tick(ws[j], g.steps[j].at) && g.steps[j] == Evaluate(ws[j], g.steps[j].at)
        {
          assert g.windows[j] == rest.windows[j - 1] && g.steps[j] == rest.steps[j - 1];
          assert ws[1..][j - 1] == ws[j];
        }
      }
    }
  }

  /** When the gate evaluates the windows: the first at `now`, and each later one at the clock
      reading after the step before it, which did not make `time.sleep` raise. Unless
      `time.sleep` raised, the gate ends after all the sleeps it took. */
  lemma {:induction false} GateClock(ws: seq<Window>, now: int)
    ensures var g := RunGate(ws, now);
      && (|g.steps| > 0 ==> g.steps[0].at == now)
      && (forall j :: 0 <= j < |g.steps| - 1 ==> !Fails(g.steps[j]) && g.steps[j + 1].at == After(g.steps[j]))
      && (!g.raised ==> g.clock == now + Sum(Slept(g.steps)))
  {
    if ws != [] {
      var step := Evaluate(ws[0], now);
      var g := RunGate(ws, now);
      if !Fails(step) {
        GateClock(ws[1..], After(step));
        var rest := RunGate(ws[1..], After(step));
        assert g.steps == [step] + rest.steps && g.clock == rest.clock && g.raised == rest.raised;
        assert g.steps[1..] == rest.steps;
        forall j | 1 <= j < |g.steps| ensures g.steps[j] == rest.steps[j - 1] {}
        if !g.raised {
          var first := if step.over then [step.remaining] else [];
          assert Slept(g.steps) == first + Slept(rest.steps);
          SumAppend(first, Slept(rest.steps));
        }
      }
    }
  }

  /** The gate over all windows: every window evaluated has both counters raised by exactly one,
      with a window whose period ran out starting again at one; a window sleeps exactly when its
      new count is over its limit, for the period remaining before its reset. Unless `time.sleep`
      raised, every window is evaluated. */
  lemma GateCountsEveryCall(ws: seq<Window>, now: int)
    ensures var g := RunGate(ws, now);
      && (forall j :: 0 <= j < |g.steps| ==>
            && g.windows[j].totalCalls == ws[j].totalCalls + 1
            && g.windows[j].numCalls == (if PeriodRemaining(ws[j], g.steps[j].at) <= 0 then 1 else ws[j].numCalls + 1)
            && g.windows[j].maxCalls == ws[j].maxCalls && g.windows[j].periodSec == ws[j].periodSec
            && (g.steps[j].over <==> g.windows[j].numCalls > ws[j].maxCalls)
            && g.steps[j].remaining == PeriodRemaining(ws[j], g.steps[j].at))
      && (forall j :: |g.steps| <= j < |ws| ==> g.windows[j] == ws[j])
  {
    GateUnreached(ws, now);
    GateTicks(ws, now);
  }

  /** The gate keeps every window's counters valid. */
  lemma GateKeepsWindowsValid(ws: seq<Window>, now: int)
    requires forall j :: 0 <= j < |ws| ==> WindowValid(ws[j])
    ensures forall j :: 0 <= j < |RunGate(ws, now).windows| ==> WindowValid(RunGate(ws, now).windows[j])
  {
    GateUnreached(ws, now);
    GateTicks(ws, now);
    var g := RunGate(ws, now);
    forall j | 0 <= j < |g.windows| ensures WindowValid(g.windows[j]) {
      if j < |g.steps| {
        assert g.windows[j] == Tick(ws[j], g.steps[j].at);
      }
    }
  }

  /** A sleep of zero or less is only ever requested by a window whose limit is below one: a
      window whose period ran out is reset and holds a single call. */
  lemma NonPositiveSleepNeedsZeroLimit(ws: seq<Window>, now: int, j: nat)
    requires j < |RunGate(ws, now).steps|
    requires RunGate(ws, now).steps[j].over && RunGate(ws, now).steps[j].remaining <= 0
    ensures ws[j].maxCalls < 1
  {
    GateTicks(ws, now);
  }

  /** With every limit at least one, `time.sleep` is never handed a negative duration. */
  lemma PositiveLimitsNeverRaise(ws: seq<Window>, now: int)
    requires forall j :: 0 <= j < |ws| ==> ws[j].maxCalls >= 1
    ensures !RunGate(ws, now).raised
  {
    var g := RunGate(ws, now);
    if g.raised {
      NonPositiveSleepNeedsZeroLimit(ws, now, |g.steps| - 1);
    }
  }

  // ---------------------------------------------------------------------------------------------
  // The retry loop

  /** What one invocation of the wrapped function does: return a value (possibly `None`), raise
      `asyncio.CancelledError`, or raise any other exception. */
  datatype Outcome<V> = Returned(value: Option<V>) | Cancelled | Raised

  /** A backoff drawn by `randint(1, 6)`. */
  type Backoff = x: int | 1 <= x <= 6 witness 1

  /** How the retry loop ended: by `break` after a return, by `break` after a cancellation, or by
      running out of attempts, which runs the `while ... else` failure report. */
  datatype Ending<V> = Succeeded(value: Option<V>) | Abandoned | Exhausted

  /** The invocations made (`calls`), how the loop ended, and the backoff sleeps between attempts. */
  datatype Attempts<V> = Attempts(calls: nat, ending: Ending<V>, backoffs: seq<int>)

  /** The retry loop from attempt `k` on (0-based), where `func(k)` is the outcome of the `k`-th
      invocation and `draws(k)` the backoff drawn after it fails. */
  function RetryFrom<V>(func: nat -> Outcome<V>, maxRetry: int, draws: nat -> Backoff, k: nat): Attempts<V>
    decreases maxRetry - k
  {
    if k >= maxRetry then Attempts(k, Exhausted, [])
    else
      match func(k)
      case Returned(v) => Attempts(k + 1, Succeeded(v), [])
      case Cancelled => Attempts(k + 1, Abandoned, [])
      case Raised =>
        var rest := RetryFrom(func, maxRetry, draws, k + 1);
        rest.(backoffs := (if k + 1 < maxRetry then [draws(k) as int] else []) + rest.backoffs)
  }

  /** The retry loop of one wrapper call. */
  function Retry<V>(func: nat -> Outcome<V>, maxRetry: int, draws: nat -> Backoff): Attempts<V> {
    RetryFrom(func, maxRetry, draws, 0)
  }

  /** The loop from attempt `k`: it makes at most `maxRetry` invocations in all, every attempt but
      the last raised, a return or a cancellation ends it at once, it runs out only after
      `maxRetry` attempts, and it sleeps once between consecutive attempts, for the draw of the
      attempt that failed. */
  lemma {:induction false} RetryFromShape<V>(func: nat -> Outcome<V>, maxRetry: int, draws: nat -> Backoff, k: nat)
    ensures var a := RetryFrom(func, maxRetry, draws, k);
      && (k < maxRetry ==> k < a.calls <= maxRetry)
      && (k >= maxRetry ==> a.calls == k && a.ending == Exhausted)
      && (forall j :: k <= j < a.calls - 1 ==> func(j).Raised?)
      && (a.ending.Succeeded? ==> a.calls > k && func(a.calls - 1) == Returned(a.ending.value))
      && (a.ending.Abandoned? ==> a.calls > k && func(a.calls - 1) == Cancelled)
      && (a.ending.Exhausted? ==> a.calls == (if k < maxRetry then maxRetry else k)
                                  && forall j :: k <= j < a.calls ==> func(j).Raised?)
      && |a.backoffs| == (if a.calls > k then a.calls - k - 1 else 0)
      && (forall j :: 0 <= j < |a.backoffs| ==> a.backoffs[j] == draws(k + j) as int)
    decreases maxRetry - k
  {
    if k < maxRetry && func(k).Raised? {
      RetryFromShape(func, maxRetry, draws, k + 1);
      var rest := RetryFrom(func, maxRetry, draws, k + 1);
      var a := RetryFrom(func, maxRetry, draws, k);
      assert a.calls == rest.calls && a.ending == rest.ending;
      if k + 1 < maxRetry {
        assert a.backoffs == [draws(k) as int] + rest.backoffs;
        assert forall j :: 1 <= j < |a.backoffs| ==> a.backoffs[j] == rest.backoffs[j - 1];
      } else {
        assert rest.calls == k + 1;
      }
    }
  }

  /** A function that always raises is invoked exactly `maxRetry` times with `maxRetry - 1`
      backoff sleeps, and the failure report runs. */
  lemma AlwaysFailing<V>(func: nat -> Outcome<V>, maxRetry: int, draws: nat -> Backoff)
    requires forall k: nat :: func(k).Raised?
    requires maxRetry >= 1
    ensures Retry(func, maxRetry, draws).calls == maxRetry
    ensures |Retry(func, maxRetry, draws).backoffs| == maxRetry - 1
    ensures Retry(func, maxRetry, draws).ending == Exhausted
  {
    RetryFromShape(func, maxRetry, draws, 0);
    var a := Retry(func, maxRetry, draws);
    assert func(a.calls - 1).Raised?;
  }

  /** The loop stops at the first attempt that does not raise: it invokes the function exactly up
      to that attempt, and the failure report does not run. */
  lemma StopsAtFirstNonFailure<V>(func: nat -> Outcome<V>, maxRetry: int, draws: nat -> Backoff, k: nat)
    requires k < maxRetry
    requires !func(k).Raised? && forall j :: 0 <= j < k ==> func(j).Raised?
    ensures Retry(func, maxRetry, draws).calls == k + 1
    ensures Retry(func, maxRetry, draws).ending ==
              if func(k).Returned? then Succeeded(func(k).value) else Abandoned
    ensures |Retry(func, maxRetry, draws).backoffs| == k
  {
    RetryFromShape(func, maxRetry, draws, 0);
    var a := Retry(func, maxRetry, draws);
    assert a.calls > 0 && !func(k).Raised?;
    var last := func(a.calls - 1);
  }

  // ---------------------------------------------------------------------------------------------
  // The output queue

  /** `json.dumps` and `json.loads` for the values the wrapped functions return. */
  datatype Codec<!V> = Codec(encode: V -> string, decode: string -> V)

  /** Decoding what was encoded gives the value back. */
  ghost predicate Lawful<V(!new)>(codec: Codec<V>) {
    forall v :: codec.decode(codec.encode(v)) == v
  }

  /** A queued value: as returned, or as its JSON text when `save_as_json` is set. */
  datatype Entry<V> = Raw(v: V) | Encoded(text: string)

  /** What `func_wrapper` puts in the queue for a returned value `v`. */
  function Store<V>(codec: Codec<V>, saveAsJson: bool, v: V): Entry<V> {
    if saveAsJson then Encoded(codec.encode(v)) else Raw(v)
  }

  /** What `get_output` makes of a queued entry. */
  function Load<V>(codec: Codec<V>, e: Entry<V>): V {
    match e
    case Raw(v) => v
    case Encoded(text) => codec.decode(text)
  }

  /** With a lawful codec, a stored value is loaded back unchanged, JSON-encoded or not. */
  lemma LoadStore<V(!new)>(codec: Codec<V>, saveAsJson: bool, v: V)
    requires Lawful(codec)
    ensures Load(codec, Store(codec, saveAsJson, v)) == v
  {
  }

  /** One wrapper call's result: it waited for a pool slot that no running call will release; or
      `time.sleep` raised in the gate after the given sleeps; or it ran to the end, returning
      `value`. */
  datatype Call<V> =
    | Blocked
    | GateFailed(slept: seq<int>)
    | Done(value: Option<Entry<V>>, slept: seq<int>, attempts: Attempts<V>)

  /** What the queue gains from a retry loop: the returned value, when there is one and
      `save_output` is set. */
  function Saved<V>(codec: Codec<V>, saveOutput: bool, saveAsJson: bool, a: Attempts<V>): seq<Entry<V>> {
    if saveOutput && a.ending.Succeeded? && a.ending.value.Some?
    then [Store(codec, saveAsJson, a.ending.value.value)]
    else []
  }

  /** The value `func_wrapper` returns after its retry loop: `None` unless the function returned,
      and the JSON text of the value when it was saved as JSON. */
  function Returns<V>(codec: Codec<V>, saveOutput: bool, saveAsJson: bool, a: Attempts<V>): Option<Entry<V>> {
    if a.ending.Succeeded? && a.ending.value.Some? then
      Some(if saveOutput then Store(codec, saveAsJson, a.ending.value.value) else Raw(a.ending.value.value))
    else None
  }

  // ---------------------------------------------------------------------------------------------
  // The runner

  class Asyncit<V> {
    const poolSize: nat
    const maxRetry: int
    const saveOutput: bool
    const saveAsJson: bool
    const iterIndication: Option<int>
    const codec: Codec<V>

    var rateLimit: seq<Window>
    var outputQueue: seq<Entry<V>>
    var iterCounter: int
    /** Calls holding a slot of the pool-size semaphore. */
    var inFlight: nat
    var futures: seq<Call<V>>

    ghost predicate Valid()
      reads this
    {
      && (forall j :: 0 <= j < |rateLimit| ==> WindowValid(rateLimit[j]))
      && (forall j :: 0 <= j < |outputQueue| ==> (outputQueue[j].Encoded? <==> saveAsJson))
      && (!saveOutput ==> outputQueue == [])
      && inFlight <= poolSize
      && (forall j :: 0 <= j < |futures| ==> futures[j].Blocked? ==> poolSize > 0)
    }

    /** `iter_indication` is truthy. */
    predicate Counting() {
      iterIndication.Some? && iterIndication.value != 0
    }

    /** `Asyncit(pool_size, rate_limit, max_retry, save_output, save_as_json, iter_indication)`,
        constructed at clock reading `now`; `max_retry` defaults to 1 when absent or zero. */
    constructor (poolSize: nat, rateLimit: seq<Limit>, maxRetry: Option<int>, saveOutput: bool,
                 saveAsJson: bool, iterIndication: Option<int>, codec: Codec<V>, now: int)
      ensures Valid()
      ensures this.poolSize == poolSize && this.saveOutput == saveOutput && this.saveAsJson == saveAsJson
      ensures this.iterIndication == iterIndication && this.codec == codec
      ensures this.maxRetry == if maxRetry.None? || maxRetry.value == 0 then 1 else maxRetry.value
      ensures |this.rateLimit| == |rateLimit|
      ensures forall j :: 0 <= j < |rateLimit| ==>
                this.rateLimit[j] == Window(rateLimit[j].maxCalls, rateLimit[j].periodSec, now, 0, 0)
      ensures outputQueue == [] && futures == [] && iterCounter == 0 && inFlight == 0
    {
      this.poolSize := poolSize;
      this.saveOutput := saveOutput;
      this.saveAsJson := saveAsJson;
      this.iterIndication := iterIndication;
      this.codec := codec;
      this.maxRetry := if maxRetry.None? || maxRetry.value == 0 then 1 else maxRetry.value;
      outputQueue := [];
      futures := [];
      iterCounter := 0;
      inFlight := 0;
      var windows: seq<Window> := [];
      for i := 0 to |rateLimit|
        invariant |windows| == i
        invariant forall j :: 0 <= j < i ==>
                    windows[j] == Window(rateLimit[j].maxCalls, rateLimit[j].periodSec, now, 0, 0)
      {
        windows := windows + [Window(rateLimit[i].maxCalls, rateLimit[i].periodSec, now, 0, 0)];
      }
      this.rateLimit := windows;
    }

    /** The values the queue holds, as `get_output` will hand them back. */
    ghost function Pending(): seq<V>
      reads this
    {
      seq(|outputQueue|, j requires 0 <= j < |outputQueue| reads this => Load(codec, outputQueue[j]))
    }

    /** The rate-limit gate of `func_wrapper` at clock reading `now`, under the lock: returns the
        sleeps taken and whether `time.sleep` raised. */
    method RateGate(now: int) returns (slept: seq<int>, raised: bool)
      modifies this`rateLimit
      ensures rateLimit == RunGate(old(rateLimit), now).windows
      ensures slept == Slept(RunGate(old(rateLimit), now).steps)
      ensures raised == RunGate(old(rateLimit), now).raised
    {
      ghost var ws, done, steps := rateLimit, [], [];
      var t := now;
      slept, raised := [], false;
      var i := 0;
      while i < |rateLimit|
        invariant i <= |ws| == |rateLimit| && |done| == i
        invariant rateLimit == done + ws[i..]
        invariant GateSoFar(ws, now, done, steps, t)
        invariant slept == Slept(steps)
      {
        var limit := rateLimit[i];
        var periodRemaining := PeriodRemaining(limit, t);
        if periodRemaining <= 0 {
          limit := limit.(numCalls := 0, lastReset := t);
        }
        limit := limit.(numCalls := limit.numCalls + 1, totalCalls := limit.totalCalls + 1);
        ghost var step := Evaluate(ws[i], t);
        assert limit == Tick(ws[i], t);
        assert step == Step(t, periodRemaining, limit.numCalls > limit.maxCalls);
        SpliceUpdate(done, ws, limit);
        rateLimit := rateLimit[i := limit];
        SleptAppend(steps, step);
        GateSoFarNext(ws, now, done, steps, t);
        if limit.numCalls > limit.maxCalls && periodRemaining < 0 {
          steps := steps + [step];
          raised := true;
          assert RunGate(ws, now).steps == steps && rateLimit == RunGate(ws, now).windows;
          return;
        }
        done, steps := done + [limit], steps + [step];
        if limit.numCalls > limit.maxCalls {
          slept := slept + [periodRemaining];
          t := t + periodRemaining;
        }
        assert t == After(step);
        i := i + 1;
      }
      assert ws[|done|..] == [];
      assert RunGate(ws, now).steps == steps && rateLimit == RunGate(ws, now).windows;
    }

    /** The retry loop of `func_wrapper`: invokes the function up to `maxRetry` times, counts a
        return when `iter_indication` is set, and queues a returned value that is not `None`
        when `save_output` is set. */
    method RetryLoop(func: nat -> Outcome<V>, draws: nat -> Backoff) returns (value: Option<Entry<V>>, a: Attempts<V>)
      requires Valid()
      modifies this`outputQueue, this`iterCounter
      ensures Valid()
      ensures a == Retry(func, maxRetry, draws)
      ensures value == Returns(codec, saveOutput, saveAsJson, a)
      ensures outputQueue == old(outputQueue) + Saved(codec, saveOutput, saveAsJson, a)
      ensures iterCounter == old(iterCounter) + (if Counting() && a.ending.Succeeded? then 1 else 0)
    {
      value := None;
      var retryCounter := 0;
      var backoffs: seq<int> := [];
      var ending: Ending<V> := Exhausted;
      while retryCounter < maxRetry
        invariant 0 <= retryCounter
        invariant forall j :: 0 <= j < retryCounter ==> func(j).Raised?
        invariant var whole, rest := Retry(func, maxRetry, draws), RetryFrom(func, maxRetry, draws, retryCounter);
          whole.calls == rest.calls && whole.ending == rest.ending && whole.backoffs == backoffs + rest.backoffs
        invariant value == None && outputQueue == old(outputQueue) && iterCounter == old(iterCounter)
      {
        retryCounter := retryCounter + 1;
        var outcome := func(retryCounter - 1);
        if outcome.Returned? {
          if Counting() {
            iterCounter := iterCounter + 1;
          }
          var saveValue := outcome.value.Some? && saveOutput;
          if saveValue {
            var entry := Store(codec, saveAsJson, outcome.value.value);
            value := Some(entry);
            outputQueue := outputQueue + [entry];
          } else if outcome.value.Some? {
            value := Some(Raw(outcome.value.value));
          }
          ending := Succeeded(outcome.value);
          break;
        } else if outcome.Cancelled? {
          ending := Abandoned;
          break;
        } else {
          if retryCounter < maxRetry {
            backoffs := backoffs + [draws(retryCounter - 1) as int];
          }
        }
      }
      a := Attempts(retryCounter, ending, backoffs);
    }

    /** What one `func_wrapper` call did to the runner, from its first state to its last, with
        result `r`: see `FuncWrapper`. */
    twostate predicate Performed(now: int, func: nat -> Outcome<V>, draws: nat -> Backoff, new r: Call<V>)
      reads this`rateLimit, this`outputQueue, this`iterCounter, this`inFlight
    {
      if poolSize > 0 && old(inFlight) == poolSize then
        && r == Blocked
        && rateLimit == old(rateLimit) && outputQueue == old(outputQueue)
        && iterCounter == old(iterCounter) && inFlight == old(inFlight)
      else
        var g := RunGate(old(rateLimit), now);
        && rateLimit == g.windows
        && (g.raised ==>
              && r == GateFailed(Slept(g.steps))
              && inFlight == old(inFlight) + (if poolSize > 0 then 1 else 0)
              && outputQueue == old(outputQueue) && iterCounter == old(iterCounter))
        && (!g.raised ==>
              var a := Retry(func, maxRetry, draws);
              && r == Done(Returns(codec, saveOutput, saveAsJson, a), Slept(g.steps), a)
              && inFlight == old(inFlight)
              && outputQueue == old(outputQueue) + Saved(codec, saveOutput, saveAsJson, a)
              && iterCounter == old(iterCounter) + (if Counting() && a.ending.Succeeded? then 1 else 0))
    }

    /** `func_wrapper(func)` at clock reading `now`. With a pool whose slots are all held, the call
        waits for ever: no call of this sequential model is running to give one back. Otherwise it
        takes a slot when there is a pool and passes the rate-limit gate once. If `time.sleep`
        raises there, the exception leaves `func_wrapper` and the slot is never given back.
        Otherwise the retry loop runs (its retries take no further rate slot), the slot is given
        back, and the call returns what the loop returned. */
    method FuncWrapper(now: int, func: nat -> Outcome<V>, draws: nat -> Backoff) returns (r: Call<V>)
      requires Valid()
      modifies this`rateLimit, this`outputQueue, this`iterCounter, this`inFlight
      ensures Valid()
      ensures Performed(now, func, draws, r)
    {
      if poolSize > 0 {
        if inFlight == poolSize {
          return Blocked;
        }
        inFlight := inFlight + 1;
      }
      GateKeepsWindowsValid(rateLimit, now);
      var slept, raised := RateGate(now);
      if raised {
        return GateFailed(slept);
      }
      var value, a := RetryLoop(func, draws);
      if poolSize > 0 {
        inFlight := inFlight - 1;
      }
      r := Done(value, slept, a);
    }

    /** `run(func)`: submit one call. In this sequential model it runs to its end at once, and
        what it did is kept as a pending future. */
    method Run(now: int, func: nat -> Outcome<V>, draws: nat -> Backoff)
      requires Valid()
      modifies this`rateLimit, this`outputQueue, this`iterCounter, this`inFlight, this`futures
      ensures Valid()
      ensures |futures| == |old(futures)| + 1 && futures[..|old(futures)|] == old(futures)
      ensures Performed(now, func, draws, futures[|old(futures)|])
    {
      var r := FuncWrapper(now, func, draws);
      futures := futures + [r];
    }

    /** `wait()`: gathers the futures. When every submitted call has finished, it returns
        (`finished`) and the futures list is emptied. A call waiting on a pool slot that a failed
        gate leaked never finishes, so `gather` never completes and `wait()` never returns:
        `finished` is then false and nothing changes. */
    method Wait() returns (finished: bool)
      requires Valid()
      modifies this`futures
      ensures Valid()
      ensures finished <==> forall j :: 0 <= j < |old(futures)| ==> !old(futures)[j].Blocked?
      ensures finished ==> futures == []
      ensures !finished ==> futures == old(futures)
    {
      finished := true;
      for j := 0 to |futures|
        invariant finished <==> forall k :: 0 <= k < j ==> !futures[k].Blocked?
      {
        if futures[j].Blocked? {
          finished := false;
        }
      }
      if finished {
        futures := [];
      }
    }

    /** `get_output()`: drains the queue in FIFO order (JSON-decoding the entries when
        `save_as_json` is set) and leaves it empty. The queue object always exists, so the code
        never takes its `None` branch. */
    method GetOutput() returns (items: seq<V>)
      requires Valid()
      modifies this`outputQueue
      ensures Valid()
      ensures items == old(Pending())
      ensures outputQueue == []
    {
      var queued := outputQueue;
      var drained: seq<Entry<V>> := [];
      while outputQueue != []
        invariant drained + outputQueue == queued
        decreases |outputQueue|
      {
        drained := drained + [outputQueue[0]];
        outputQueue := outputQueue[1..];
      }
      assert drained == queued;
      if drained != [] && saveAsJson {
        items := seq(|drained|, j requires 0 <= j < |drained| => codec.decode(drained[j].text));
      } else {
        items := seq(|drained|, j requires 0 <= j < |drained| => drained[j].v);
      }
    }
  }

  // ---------------------------------------------------------------------------------------------
  // Runs of the runner as its docstrings use it

  /** A value saved as JSON comes back from `get_output` as it was returned. */
  method SavedAsJsonComesBack<V(!new)>(codec: Codec<V>, v: V) returns (items: seq<V>)
    requires Lawful(codec)
    ensures items == [v]
  {
    var runner := new Asyncit<V>(0, [], None, true, true, None, codec, 0);
    runner.Run(0, (k: nat) => Returned(Some(v)), (k: nat) => 1);
    var finished := runner.Wait();
    items := runner.GetOutput();
  }

  /** Without `save_output` nothing is queued, though the call returns its value. */
  method NothingSavedWithoutSaveOutput<V(!new)>(codec: Codec<V>, v: V) returns (items: seq<V>, returned: Option<Entry<V>>)
    ensures items == [] && returned == Some(Raw(v))
  {
    var runner := new Asyncit<V>(0, [], None, false, false, None, codec, 0);
    runner.Run(0, (k: nat) => Returned(Some(v)), (k: nat) => 1);
    returned := runner.futures[0].value;
    var finished := runner.Wait();
    items := runner.GetOutput();
  }

  /** A call that fails once and then returns, with `max_retry=2`, is saved once, is counted
      once by the iteration counter, and slept one backoff between its two attempts. */
  method RetriedCallIsSavedOnce<V(!new)>(codec: Codec<V>, v: V, backoff: Backoff)
    returns (items: seq<V>, counted: int, backoffs: seq<int>)
    ensures items == [v] && counted == 1 && backoffs == [backoff as int]
  {
    var runner := new Asyncit<V>(0, [], Some(2), true, false, Some(1), codec, 0);
    runner.Run(0, (k: nat) => if k == 0 then Raised else Returned(Some(v)), (k: nat) => backoff);
    backoffs := runner.futures[0].attempts.backoffs;
    var finished := runner.Wait();
    items := runner.GetOutput();
    counted := runner.iterCounter;
  }

  /** With `max_retry` left out, a failing call is tried once, and nothing is saved. */
  method FailingCallIsTriedOnce<V(!new)>(codec: Codec<V>) returns (items: seq<V>, calls: nat)
    ensures items == [] && calls == 1
  {
    var runner := new Asyncit<V>(0, [], None, true, false, None, codec, 0);
    runner.Run(0, (k: nat) => Raised, (k: nat) => 3);
    calls := runner.futures[0].attempts.calls;
    var finished := runner.Wait();
    items := runner.GetOutput();
  }

  /** `get_output` drains the queue: a second call finds nothing. */
  method OutputIsDrained<V(!new)>(codec: Codec<V>, v: V, w: V) returns (first: seq<V>, second: seq<V>)
    ensures first == [v, w] && second == []
  {
    var runner := new Asyncit<V>(4, [], None, true, false, None, codec, 0);
    runner.Run(0, (k: nat) => Returned(Some(v)), (k: nat) => 1);
    runner.Run(0, (k: nat) => Returned(Some(w)), (k: nat) => 1);
    var finished := runner.Wait();
    first := runner.GetOutput();
    second := runner.GetOutput();
  }

  /** The gate of a limit of one call every 10 time units, at clock reading 0: the first call
      passes, and the second call in the period goes over the limit and sleeps 10. */
  lemma OneCallEveryTen()
    ensures RunGate([Window(1, 10, 0, 0, 0)], 0) == Gate([Window(1, 10, 0, 1, 1)], [Step(0, 10, false)], 0, false)
    ensures RunGate([Window(1, 10, 0, 1, 1)], 0) == Gate([Window(1, 10, 0, 2, 2)], [Step(0, 10, true)], 10, false)
    ensures Slept([Step(0, 10, false)]) == [] && Slept([Step(0, 10, true)]) == [10]
  {
    GateOfOne(Window(1, 10, 0, 0, 0), 0);
    GateOfOne(Window(1, 10, 0, 1, 1), 0);
    SleptOne(Step(0, 10, false));
    SleptOne(Step(0, 10, true));
  }

  /** With one call allowed every 10 time units, a second call in the same period sleeps until
      the period is over, and the calls after it are evaluated at the later clock reading. */
  method SecondCallInPeriodSleeps<V(!new)>(codec: Codec<V>, v: V) returns (first: seq<int>, second: seq<int>)
    ensures first == [] && second == [10]
  {
    var runner := new Asyncit<V>(0, [Limit(1, 10)], None, false, false, None, codec, 0);
    assert runner.rateLimit == [Window(1, 10, 0, 0, 0)];
    OneCallEveryTen();
    runner.Run(0, (k: nat) => Returned(Some(v)), (k: nat) => 1);
    runner.Run(0, (k: nat) => Returned(Some(v)), (k: nat) => 1);
    first := runner.futures[0].slept;
    second := runner.futures[1].slept;
  }

  /** A limit of zero calls makes a call in a new period hand `time.sleep` a negative duration;
      the exception escapes `func_wrapper` with the pool slot still held, so with a pool of one
      the next call waits for ever, and so does `wait()`. */
  method ZeroLimitLeaksPoolSlot<V(!new)>(codec: Codec<V>, v: V) returns (first: Call<V>, second: Call<V>, hangs: bool)
    ensures first == GateFailed([]) && second == Blocked && hangs
  {
    var runner := new Asyncit<V>(1, [Limit(0, 10)], None, false, false, None, codec, 0);
    var start := Window(0, 10, 0, 0, 0);
    assert runner.rateLimit == [start];
    GateOfOne(start, 20);
    SleptOne(Evaluate(start, 20));
    runner.Run(20, (k: nat) => Returned(Some(v)), (k: nat) => 1);
    assert runner.inFlight == 1;
    runner.Run(20, (k: nat) => Returned(Some(v)), (k: nat) => 1);
    first := runner.futures[0];
    second := runner.futures[1];
    hangs := runner.Wait();
    hangs := !hangs;
  }
}
