/** `MetricsWithTimeout` of petric.py: the callback that stops a submission
    once its time budget is spent, and that runs the harness's own callbacks
    (progress bar, checkpoints, TensorBoard logging and, when a reference
    image exists, the quality metrics) without charging their time to the
    submission. The wall clock `time()` is read by the caller and passed in:
    `now` on entry, `later` after the inner callbacks have run. */
module PetricTimeout {
  import opened Outcomes
  import opened Reals

  /** The inner callbacks; what each one does is not part of this model. */
  datatype Observer = ProgressCallback | SaveIters | StatsLog | QualityMetrics

  /** The budget every data set of the harness runs under. */
  const DefaultSeconds: real := 600.0

  /** The deadline test: the time spent so far, less the harness's own
      overhead, is past the budget. */
  predicate Expired(limit: real, offset: real, now: real)
  {
    now > limit + offset
  }

  class MetricsWithTimeout {
    /** `_seconds`: the budget `reset()` uses when given none. */
    const seconds: real
    /** The absolute deadline. */
    var limit: real
    /** The time spent inside the inner callbacks since the last reset. */
    var offset: real
    var callbacks: seq<Observer>
    /** The length of each callback loop since the last reset. */
    ghost var overheads: seq<real>

    ghost predicate Valid()
      reads this
    {
      offset == Sum(overheads)
    }

    /** `__init__(seconds=600)`, which ends by calling `reset()` at time `now`. */
    constructor (now: real, seconds: real := DefaultSeconds)
      ensures Valid()
      ensures this.seconds == seconds && limit == now + seconds && offset == 0.0 && overheads == []
      ensures callbacks == [ProgressCallback, SaveIters, StatsLog]
    {
      this.seconds := seconds;
      callbacks := [ProgressCallback, SaveIters, StatsLog];
      limit := now + seconds;
      offset := 0.0;
      overheads := [];
    }

    /** `reset(seconds=None)` at time `now`: a fresh budget that starts now. */
    method Reset(now: real, budget: Option<real>)
      modifies this`limit, this`offset, this`overheads
      ensures Valid()
      ensures limit == now + (if budget.Some? then budget.value else seconds)
      ensures offset == 0.0 && overheads == []
    {
      limit := now + (if budget.None? then seconds else budget.value);
      offset := 0.0;
      overheads := [];
    }

    /** `callbacks.append(QualityMetrics(...))`, done when the data set has a
        reference image. */
    method AddQualityMetrics()
      modifies this`callbacks
      ensures callbacks == old(callbacks) + [QualityMetrics]
    {
      callbacks := callbacks + [QualityMetrics];
    }

    /** `__call__(algo)`: stop when the budget is spent; otherwise run every
        inner callback once, in order, and add the time they took to
        `offset`. `ran` lists the callbacks run. */
    method Call(now: real, later: real) returns (signal: Signal, ran: seq<Observer>)
      requires Valid()
      modifies this`offset, this`overheads
      ensures Valid()
      ensures signal == Stop <==> Expired(limit, old(offset), now)
      ensures signal == Stop ==> ran == [] && offset == old(offset) && overheads == old(overheads)
      ensures signal == Continue ==>
                ran == callbacks && offset == old(offset) + (later - now) && overheads == old(overheads) + [later - now]
      ensures (signal, offset) == Step(limit, old(offset), Tick(now, later))
    {
      if now > limit + offset {
        return Stop, [];
      }
      ran := [];
      var i := 0;
      while i < |callbacks|
        invariant 0 <= i <= |callbacks|
        invariant ran == callbacks[..i]
      {
        ran := ran + [callbacks[i]];
        i := i + 1;
      }
      offset := offset + (later - now);
      overheads := overheads + [later - now];
      assert overheads[..|overheads| - 1] == old(overheads);
      signal := Continue;
    }
  }

  // -----------------------------------------------------------------------
  // A run of calls after a reset

  /** The clock on entry to a call and after its callback loop. */
  datatype Tick = Tick(now: real, later: real)

  /** The signal of one call and the offset it leaves, as `Call` computes
      them. */
  function Step(limit: real, offset: real, t: Tick): (Signal, real)
  {
    if Expired(limit, offset, t.now) then (Stop, offset) else (Continue, offset + (t.later - t.now))
  }

  /** The signals of successive calls. */
  function Replay(limit: real, offset: real, ticks: seq<Tick>): (signals: seq<Signal>)
    ensures |signals| == |ticks|
    decreases |ticks|
  {
    if ticks == [] then []
    else [Step(limit, offset, ticks[0]).0] + Replay(limit, Step(limit, offset, ticks[0]).1, ticks[1..])
  }

  /** The offset after successive calls. */
  function OffsetAfter(limit: real, offset: real, ticks: seq<Tick>): real
    decreases |ticks|
  {
    if ticks == [] then offset else OffsetAfter(limit, Step(limit, offset, ticks[0]).1, ticks[1..])
  }

  /** The time spent in the callback loops of the given calls. */
  function LoopTime(ticks: seq<Tick>): real
  {
    if ticks == [] then 0.0 else (ticks[0].later - ticks[0].now) + LoopTime(ticks[1..])
  }

  /** The clock never goes back: each loop ends after it starts and the
      next call starts after that. */
  predicate Monotone(ticks: seq<Tick>)
  {
    (forall i :: 0 <= i < |ticks| ==> ticks[i].now <= ticks[i].later)
    && (forall i :: 0 <= i < |ticks| - 1 ==> ticks[i].later <= ticks[i + 1].now)
  }

  /** Overhead exclusion: after calls that all continue, `offset` has grown
      by exactly the time spent inside their callback loops. */
  lemma {:induction false} OffsetIsLoopTime(limit: real, offset: real, ticks: seq<Tick>)
    requires forall i :: 0 <= i < |ticks| ==> Replay(limit, offset, ticks)[i] == Continue
    ensures OffsetAfter(limit, offset, ticks) == offset + LoopTime(ticks)
    decreases |ticks|
  {
    if ticks != [] {
      var o := Step(limit, offset, ticks[0]).1;
      assert Replay(limit, offset, ticks)[0] == Continue;
      forall i | 0 <= i < |ticks| - 1 ensures Replay(limit, o, ticks[1..])[i] == Continue {
        assert Replay(limit, offset, ticks)[i + 1] == Replay(limit, o, ticks[1..])[i];
      }
      OffsetIsLoopTime(limit, o, ticks[1..]);
    }
  }

  /** The logical time `now - offset` (the wall clock less the harness's
      overhead) never goes back under a monotone clock, whatever the calls
      return. */
  lemma {:induction false} LogicalTimeMonotone(limit: real, offset: real, ticks: seq<Tick>, later: real)
    requires Monotone(ticks) && ticks != []
    requires ticks[|ticks| - 1].later <= later
    ensures later - OffsetAfter(limit, offset, ticks) >= ticks[0].now - offset
    decreases |ticks|
  {
    var o := Step(limit, offset, ticks[0]).1;
    if |ticks| > 1 {
      LogicalTimeMonotone(limit, o, ticks[1..], later);
      assert ticks[1..][0] == ticks[1];
    }
  }

  /** Once a call returns `Stop`, under a monotone clock every later call
      returns `Stop` too: the budget never comes back. */
  lemma {:induction false} StopIsFinal(limit: real, offset: real, ticks: seq<Tick>, i: nat, j: nat)
    requires Monotone(ticks)
    requires i < j < |ticks|
    requires Replay(limit, offset, ticks)[i] == Stop
    ensures Replay(limit, offset, ticks)[j] == Stop
    decreases i
  {
    var o := Step(limit, offset, ticks[0]).1;
    var rest := ticks[1..];
    assert Monotone(rest);
    if i > 0 {
      assert Replay(limit, offset, ticks)[i] == Replay(limit, o, rest)[i - 1];
      assert Replay(limit, offset, ticks)[j] == Replay(limit, o, rest)[j - 1];
      StopIsFinal(limit, o, rest, i - 1, j - 1);
    } else {
      // the first call stopped and left the offset as it was
      assert o == offset && Expired(limit, offset, ticks[0].now);
      StaysExpired(limit, offset, rest, ticks[0].now, j - 1);
      assert Replay(limit, offset, ticks)[j] == Replay(limit, o, rest)[j - 1];
    }
  }

  /** Helper for `StopIsFinal`: from an expired state, a run of calls that
      start no earlier keeps returning `Stop`. */
  lemma {:induction false} StaysExpired(limit: real, offset: real, ticks: seq<Tick>, since: real, k: nat)
    requires Monotone(ticks) && k < |ticks|
    requires since <= ticks[0].now && Expired(limit, offset, since)
    ensures Replay(limit, offset, ticks)[k] == Stop
    decreases k
  {
    if k > 0 {
      var rest := ticks[1..];
      assert Monotone(rest);
      assert ticks[0].now <= ticks[0].later <= ticks[1].now;
      StaysExpired(limit, offset, rest, since, k - 1);
      assert Replay(limit, offset, ticks)[k] == Replay(limit, offset, rest)[k - 1];
    }
  }

  /** The deadline counts only the submission's time: a call stops exactly
      when the wall-clock time since the budget started, less the time of
      every earlier callback loop, exceeds the budget `seconds`. */
  lemma StopsWhenBudgetSpent(start: real, seconds: real, limit: real, ticks: seq<Tick>, k: nat)
    requires limit == start + seconds && k < |ticks|
    requires forall i :: 0 <= i < k ==> Replay(limit, 0.0, ticks)[i] == Continue
    ensures Replay(limit, 0.0, ticks)[k] == Stop
            <==> ticks[k].now - start - LoopTime(ticks[..k]) > seconds
  {
    ReplayPrefix(limit, 0.0, ticks, k);
    forall i | 0 <= i < k ensures Replay(limit, 0.0, ticks[..k])[i] == Continue {
      ReplayOfPrefix(limit, 0.0, ticks, k, i);
    }
    OffsetIsLoopTime(limit, 0.0, ticks[..k]);
  }

  /** The k-th signal depends on the offset left by the first k calls. */
  lemma {:induction false} ReplayPrefix(limit: real, offset: real, ticks: seq<Tick>, k: nat)
    requires k < |ticks|
    ensures Replay(limit, offset, ticks)[k] == Step(limit, OffsetAfter(limit, offset, ticks[..k]), ticks[k]).0
    decreases k
  {
    if k > 0 {
      var o := Step(limit, offset, ticks[0]).1;
      ReplayPrefix(limit, o, ticks[1..], k - 1);
      assert ticks[1..][..k - 1] == ticks[..k][1..];
    }
  }

  /** The first calls of a run behave as in the run cut short after them. */
  lemma {:induction false} ReplayOfPrefix(limit: real, offset: real, ticks: seq<Tick>, k: nat, i: nat)
    requires i < k <= |ticks|
    ensures Replay(limit, offset, ticks[..k])[i] == Replay(limit, offset, ticks)[i]
    decreases i
  {
    var o := Step(limit, offset, ticks[0]).1;
    assert ticks[..k][0] == ticks[0];
    if i > 0 {
      ReplayOfPrefix(limit, o, ticks[1..], k - 1, i - 1);
      assert ticks[1..][..k - 1] == ticks[..k][1..];
    }
  }
}
