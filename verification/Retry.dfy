/** `reliability/retry.py` and `reliability/timeout.py`. Time is a real number of
    seconds; what attempt `i` would do, and how long it would take, are given. */
module Retry {
  import opened Basics

  /** `Other` stands for every exception class an operation may raise by itself. */
  datatype Error = Cancelled | BadAttempts | CircuitOpen | OperationTimeout | Other(kind: string)

  datatype Result<T> = Returned(value: T) | Raised(error: Error)

  function RMin(a: real, b: real): real {
    if a <= b then a else b
  }

  function Pow2(n: nat): (p: nat)
    ensures p >= 1
  {
    if n == 0 then 1 else 2 * Pow2(n - 1)
  }

  /** Sleep after failed attempt `i`. */
  function Delay(baseDelay: real, maxDelay: real, i: nat): real {
    RMin(baseDelay * Pow2(i) as real, maxDelay)
  }

  function Sleeps(baseDelay: real, maxDelay: real, n: nat): real {
    if n == 0 then 0.0 else Sleeps(baseDelay, maxDelay, n - 1) + Delay(baseDelay, maxDelay, n - 1)
  }

  function Spent(took: nat -> real, n: nat): real {
    if n == 0 then 0.0 else Spent(took, n - 1) + took(n - 1)
  }

  /** Attempt `i` is the one that settles the call: no earlier attempt returned or
      raised something that is not retried, and this one did or is the last. */
  ghost predicate SettledBy<T>(op: nat -> Result<T>, attempts: int, retryOn: Error -> bool, i: nat) {
    && i < attempts
    && (forall j :: 0 <= j < i ==> op(j).Raised? && retryOn(op(j).error))
    && (i < attempts - 1 ==> op(i).Returned? || !retryOn(op(i).error))
  }

  method RetryAsync<T>(op: nat -> Result<T>, took: nat -> real, attempts: int, baseDelay: real, maxDelay: real,
                       retryOn: Error -> bool)
    returns (result: Result<T>, calls: nat, elapsed: real)
    ensures attempts < 1 ==> result == Raised(BadAttempts) && calls == 0 && elapsed == 0.0
    ensures attempts >= 1 ==> 1 <= calls <= attempts
                              && SettledBy(op, attempts, retryOn, calls - 1) && result == op(calls - 1)
                              && elapsed == Spent(took, calls) + Sleeps(baseDelay, maxDelay, calls - 1)
    ensures attempts >= 1 ==> forall j :: 0 <= j < calls - 1 ==> op(j).Raised? && retryOn(op(j).error)
    ensures attempts >= 1 && calls < attempts ==> result.Returned? || !retryOn(result.error)
  {
    calls, elapsed := 0, 0.0;
    if attempts < 1 {
      return Raised(BadAttempts), calls, elapsed;
    }
    var lastExc := None;
    for attempt: nat := 0 to attempts
      invariant calls == attempt
      invariant forall j :: 0 <= j < attempt ==> op(j).Raised? && retryOn(op(j).error)
      invariant attempt > 0 ==> lastExc == Some(op(attempt - 1).error)
      invariant elapsed == Spent(took, attempt)
                           + Sleeps(baseDelay, maxDelay, if attempt < attempts then attempt else attempt - 1)
    {
      calls := calls + 1;
      elapsed := elapsed + took(attempt);
      result := op(attempt);
      if result.Returned? || !retryOn(result.error) {
        return;
      }
      lastExc := Some(result.error);
      if attempt < attempts - 1 {
        elapsed := elapsed + Delay(baseDelay, maxDelay, attempt);
      }
    }
    result := Raised(lastExc.value);
  }

  // ---- how long a call lasts -------------------------------------------------------

  /** Sleeps without a cap on a single delay. */
  function Backoffs(baseDelay: real, n: nat): real {
    if n == 0 then 0.0 else Backoffs(baseDelay, n - 1) + baseDelay * Pow2(n - 1) as real
  }

  /** They add up to base * (2^n - 1). */
  lemma {:induction false} BackoffsAddUp(baseDelay: real, n: nat)
    ensures Backoffs(baseDelay, n) == baseDelay * (Pow2(n) - 1) as real
  {
    if n > 0 {
      BackoffsAddUp(baseDelay, n - 1);
      var p := Pow2(n - 1) as real;
      assert (Pow2(n) - 1) as real == (p - 1.0) + p && (Pow2(n - 1) - 1) as real == p - 1.0;
      assert baseDelay * ((p - 1.0) + p) == baseDelay * (p - 1.0) + baseDelay * p;
    }
  }

  lemma {:induction false} SleepsWithinBackoff(baseDelay: real, maxDelay: real, n: nat)
    ensures Sleeps(baseDelay, maxDelay, n) <= Backoffs(baseDelay, n)
  {
    if n > 0 {
      SleepsWithinBackoff(baseDelay, maxDelay, n - 1);
    }
  }

  lemma {:induction false} SleepsWithinCap(baseDelay: real, maxDelay: real, n: nat)
    ensures Sleeps(baseDelay, maxDelay, n) <= Multiple(n, maxDelay)
  {
    if n > 0 {
      SleepsWithinCap(baseDelay, maxDelay, n - 1);
    }
  }

  lemma {:induction false} SleepsGrow(baseDelay: real, maxDelay: real, m: nat, n: nat)
    requires baseDelay >= 0.0 && maxDelay >= 0.0 && m <= n
    ensures Sleeps(baseDelay, maxDelay, m) <= Sleeps(baseDelay, maxDelay, n)
  {
    if m < n {
      SleepsGrow(baseDelay, maxDelay, m, n - 1);
    }
  }

  lemma {:induction false} SpentWithin(took: nat -> real, limit: real, n: nat)
    requires forall i :: 0 <= i < n ==> took(i) <= limit
    ensures Spent(took, n) <= Multiple(n, limit)
  {
    if n > 0 {
      SpentWithin(took, limit, n - 1);
    }
  }

  lemma {:induction false} ProductGrows(baseDelay: real, i: nat, j: nat)
    requires baseDelay >= 0.0 && i <= j
    ensures baseDelay * Pow2(i) as real <= baseDelay * Pow2(j) as real
  {
    if i < j {
      ProductGrows(baseDelay, i, j - 1);
      assert Pow2(j) as real == 2.0 * Pow2(j - 1) as real;
    }
  }

  lemma {:induction false} SleepsUncapped(baseDelay: real, maxDelay: real, m: nat)
    requires baseDelay >= 0.0 && (m > 0 ==> baseDelay * Pow2(m - 1) as real <= maxDelay)
    ensures Sleeps(baseDelay, maxDelay, m) == Backoffs(baseDelay, m)
  {
    if m > 1 {
      ProductGrows(baseDelay, m - 2, m - 1);
    }
    if m > 0 {
      SleepsUncapped(baseDelay, maxDelay, m - 1);
    }
  }

  lemma CappedDelay(baseDelay: real, maxDelay: real, m: nat, i: nat)
    requires baseDelay >= 0.0 && m <= i && baseDelay * Pow2(m) as real >= maxDelay
    ensures Delay(baseDelay, maxDelay, i) == maxDelay
  {
    ProductGrows(baseDelay, m, i);
  }

  lemma {:induction false} SleepsCapped(baseDelay: real, maxDelay: real, m: nat, n: nat)
    requires m <= n && forall i :: m <= i < n ==> Delay(baseDelay, maxDelay, i) == maxDelay
    ensures Sleeps(baseDelay, maxDelay, n) == Sleeps(baseDelay, maxDelay, m) + Multiple(n - m, maxDelay)
  {
    if m < n {
      hide Delay;
      SleepsCapped(baseDelay, maxDelay, m, n - 1);
      assert n - m - 1 == n - 1 - m;
    }
  }

  /** How long the sleeps last, exactly: doubling from the base as long as they stay
      within the cap, which is for the first `m` of them, and the cap from then on. */
  lemma SleepsAddUp(baseDelay: real, maxDelay: real, m: nat, n: nat)
    requires baseDelay >= 0.0 && m <= n
    requires m > 0 ==> baseDelay * Pow2(m - 1) as real <= maxDelay
    requires m < n ==> baseDelay * Pow2(m) as real >= maxDelay
    ensures Sleeps(baseDelay, maxDelay, n) == baseDelay * (Pow2(m) - 1) as real + Multiple(n - m, maxDelay)
  {
    SleepsUncapped(baseDelay, maxDelay, m);
    BackoffsAddUp(baseDelay, m);
    forall i | m <= i < n ensures Delay(baseDelay, maxDelay, i) == maxDelay {
      CappedDelay(baseDelay, maxDelay, m, i);
    }
    SleepsCapped(baseDelay, maxDelay, m, n);
  }

  /** A call whose attempts are each cut off at `limit` lasts at most this long:
      attempts * limit + min(base * (2^(attempts-1) - 1), (attempts-1) * max). */
  lemma CallIsBounded(took: nat -> real, limit: real, baseDelay: real, maxDelay: real, calls: nat, attempts: nat)
    requires 1 <= calls <= attempts && baseDelay >= 0.0 && maxDelay >= 0.0
    requires forall i :: 0 <= i < calls ==> 0.0 <= took(i) <= limit
    ensures var total := Spent(took, calls) + Sleeps(baseDelay, maxDelay, calls - 1);
      && total <= attempts as real * limit + baseDelay * (Pow2(attempts - 1) - 1) as real
      && total <= attempts as real * limit + (attempts - 1) as real * maxDelay
  {
    hide Spent, Sleeps, Multiple, Backoffs, Pow2;
    assert 0.0 <= took(0) <= limit;
    SpentWithin(took, limit, calls);
    MultipleGrows(calls, attempts, limit);
    MultipleIs(attempts, limit);
    SleepsGrow(baseDelay, maxDelay, calls - 1, attempts - 1);
    SleepsWithinBackoff(baseDelay, maxDelay, attempts - 1);
    BackoffsAddUp(baseDelay, attempts - 1);
    SleepsWithinCap(baseDelay, maxDelay, attempts - 1);
    MultipleIs(attempts - 1, maxDelay);
  }

  lemma {:induction false} SpentIsNonNegative(took: nat -> real, n: nat)
    requires forall i :: 0 <= i < n ==> took(i) >= 0.0
    ensures Spent(took, n) >= 0.0
  {
    if n > 0 {
      SpentIsNonNegative(took, n - 1);
    }
  }

  // ---- timeouts ---------------------------------------------------------------------

  /** What an attempt does under `with_timeout`: cut off, it raises. */
  function TimedResult<T>(op: nat -> Result<T>, took: nat -> real, timeout: Option<real>): nat -> Result<T> {
    (i: nat) => if timeout.Some? && took(i) > timeout.value then Raised(OperationTimeout) else op(i)
  }

  function TimedLength(took: nat -> real, timeout: Option<real>): nat -> real {
    (i: nat) => if timeout.Some? then RMin(took(i), timeout.value) else took(i)
  }

  /** Under a timeout each attempt takes its own time, or the timeout if that is shorter. */
  lemma TimedAttempt(took: nat -> real, timeout: Option<real>, n: nat)
    ensures Spent(TimedLength(took, timeout), n + 1) == Spent(TimedLength(took, timeout), n)
            + if timeout.Some? && took(n) > timeout.value then timeout.value else took(n)
  {
    var timed := TimedLength(took, timeout);
    assert Spent(timed, n + 1) == Spent(timed, n) + timed(n);
  }
}
