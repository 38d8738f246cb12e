/** The circuit breakers of `reliability/circuit_breaker.py`, `job_queue/queue.py`
    and `integrations/github_client.py`, against one specification over the
    outcomes reported to them. */
module Breakers {
  import opened Basics

  datatype Outcome = Succeeded(at: real) | Failed(at: real)

  /** Open: the last `threshold` outcomes (at least one) all failed, and the very
      last of them is younger than the cooldown. */
  ghost predicate Open(history: seq<Outcome>, threshold: int, resetAfter: real, now: real) {
    && LastFailed(history, Max(1, threshold))
    && now - history[|history| - 1].at < resetAfter
  }

  ghost predicate LastFailed(history: seq<Outcome>, n: int) {
    && 1 <= n <= |history|
    && forall i :: |history| - n <= i < |history| ==> history[i].Failed?
  }

  /** Number of failures since the last success. */
  ghost function FailureRun(history: seq<Outcome>): nat {
    if history == [] || history[|history| - 1].Succeeded? then 0
    else 1 + FailureRun(history[..|history| - 1])
  }

  lemma {:induction false} RunReaches(history: seq<Outcome>, n: int)
    requires n >= 1
    ensures FailureRun(history) >= n <==> LastFailed(history, n)
  {
    if history != [] && history[|history| - 1].Failed? && n > 1 {
      var front := history[..|history| - 1];
      RunReaches(front, n - 1);
      if LastFailed(front, n - 1) {
        forall i | |history| - n <= i < |history| ensures history[i].Failed? {
          assert i < |front| ==> history[i] == front[i];
        }
      }
      if LastFailed(history, n) {
        forall i | |front| - (n - 1) <= i < |front| ensures front[i].Failed? {
          assert history[i] == front[i];
        }
      }
    }
  }

  datatype State = Closed | HalfOpen | Opened

  /** `reliability/circuit_breaker.py`: decides through its three-valued state. */
  class CircuitBreaker {
    const threshold: int
    const resetAfter: real
    var failures: int
    var openedAt: Option<real>
    ghost var history: seq<Outcome>

    ghost predicate Valid()
      reads this
    {
      && failures == FailureRun(history)
      && openedAt == if failures >= Max(1, threshold) then Some(history[|history| - 1].at) else None
    }

    constructor (threshold: int, resetAfter: real)
      ensures Valid() && history == []
      ensures this.threshold == threshold && this.resetAfter == resetAfter
    {
      this.threshold, this.resetAfter := threshold, resetAfter;
      failures, openedAt, history := 0, None, [];
    }

    function StateAt(now: real): State
      reads this
    {
      if openedAt.None? then Closed
      else if now - openedAt.value >= resetAfter then HalfOpen
      else Opened
    }

    predicate Rejects(now: real)
      reads this
    {
      StateAt(now) == Opened
    }

    /** The breaker is "closed" until the threshold is reached, whatever the time. */
    method BeforeCall(now: real) returns (rejected: bool)
      requires Valid()
      ensures rejected == Rejects(now)
      ensures rejected <==> Open(history, threshold, resetAfter, now)
      ensures StateAt(now) == Closed <==> !LastFailed(history, Max(1, threshold))
    {
      RunReaches(history, Max(1, threshold));
      rejected := StateAt(now) == Opened;
    }

    method OnSuccess(ghost now: real)
      requires Valid()
      modifies this
      ensures Valid() && history == old(history) + [Succeeded(now)]
    {
      failures, openedAt := 0, None;
      history := history + [Succeeded(now)];
    }

    method OnFailure(now: real)
      requires Valid()
      modifies this
      ensures Valid() && history == old(history) + [Failed(now)]
    {
      failures := failures + 1;
      if failures >= threshold {
        openedAt := Some(now);
      }
      history := history + [Failed(now)];
      assert history[..|history| - 1] == old(history);
    }
  }

  /** `job_queue/queue.py` and `integrations/github_client.py`: the same machine
      written without a state property. */
  class InlineBreaker {
    const threshold: int
    const resetAfter: real
    var failures: int
    var openedAt: Option<real>
    ghost var history: seq<Outcome>

    ghost predicate Valid()
      reads this
    {
      && failures == FailureRun(history)
      && openedAt == if failures >= Max(1, threshold) then Some(history[|history| - 1].at) else None
    }

    constructor (threshold: int, resetAfter: real)
      ensures Valid() && history == []
      ensures this.threshold == threshold && this.resetAfter == resetAfter
    {
      this.threshold, this.resetAfter := threshold, resetAfter;
      failures, openedAt, history := 0, None, [];
    }

    predicate Rejects(now: real)
      reads this
    {
      if openedAt.None? then false
      else if now - openedAt.value >= resetAfter then false
      else true
    }

    method BeforeCall(now: real) returns (rejected: bool)
      requires Valid()
      ensures rejected == Rejects(now)
      ensures rejected <==> Open(history, threshold, resetAfter, now)
    {
      RunReaches(history, Max(1, threshold));
      if openedAt.None? {
        return false;
      }
      if now - openedAt.value >= resetAfter {
        return false;
      }
      return true;
    }

    method OnSuccess(ghost now: real)
      requires Valid()
      modifies this
      ensures Valid() && history == old(history) + [Succeeded(now)]
    {
      failures, openedAt := 0, None;
      history := history + [Succeeded(now)];
    }

    method OnFailure(now: real)
      requires Valid()
      modifies this
      ensures Valid() && history == old(history) + [Failed(now)]
    {
      failures := failures + 1;
      if failures >= threshold {
        openedAt := Some(now);
      }
      history := history + [Failed(now)];
      assert history[..|history| - 1] == old(history);
    }
  }

  lemma CircuitRejects(b: CircuitBreaker, now: real)
    requires b.Valid()
    ensures b.Rejects(now) <==> Open(b.history, b.threshold, b.resetAfter, now)
  {
    RunReaches(b.history, Max(1, b.threshold));
  }

  lemma InlineRejects(b: InlineBreaker, now: real)
    requires b.Valid()
    ensures b.Rejects(now) <==> Open(b.history, b.threshold, b.resetAfter, now)
  {
    RunReaches(b.history, Max(1, b.threshold));
  }

  /** Breakers of either class that were told the same outcomes and share their
      settings reject the same calls. */
  lemma BreakersAgree(a: CircuitBreaker, b: InlineBreaker, now: real)
    requires a.Valid() && b.Valid() && a.history == b.history
    requires a.threshold == b.threshold && a.resetAfter == b.resetAfter
    ensures a.Rejects(now) == b.Rejects(now) == Open(a.history, a.threshold, a.resetAfter, now)
  {
    CircuitRejects(a, now);
    InlineRejects(b, now);
  }

  /** What the shared contract of `reliability/conformance.py` samples, for all
      histories: a success closes the breaker, the failure that completes a run of
      `threshold` opens it, and it stays open exactly for the cooldown. */
  lemma BreakerContract(history: seq<Outcome>, threshold: int, resetAfter: real, at: real, now: real)
    ensures !Open(history + [Succeeded(at)], threshold, resetAfter, now)
    ensures Open(history + [Failed(at)], threshold, resetAfter, now)
            <==> FailureRun(history) + 1 >= threshold && now < at + resetAfter
  {
    var ok, bad := history + [Succeeded(at)], history + [Failed(at)];
    assert ok[|ok| - 1].Succeeded?;
    assert bad[..|bad| - 1] == history;
    RunReaches(bad, Max(1, threshold));
  }

  /** "One probe" is not what the code does: letting a call through leaves no
      trace, so once the cooldown is over every call is let through until an
      outcome is reported, here two of them. */
  method TwoProbes(b: CircuitBreaker, first: real, second: real) returns (rejectedFirst: bool, rejectedSecond: bool)
    requires b.Valid() && LastFailed(b.history, Max(1, b.threshold)) && first <= second
    ensures rejectedFirst <==> first < b.history[|b.history| - 1].at + b.resetAfter
    ensures !rejectedFirst ==> !rejectedSecond
  {
    rejectedFirst := b.BeforeCall(first);
    rejectedSecond := b.BeforeCall(second);
  }
}
