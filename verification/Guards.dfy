/** Guarded calls: breaker, then retries, then a timeout per attempt.
    `reliability/guard.py`, and the two older call sites that inline the same
    shape: `JobQueue._guarded` and `GitHubAppClient._send`. */
module Guards {
  import opened Basics
  import opened Breakers
  import opened Retry

  const DEFAULT_MAX_DELAY := 5.0

  /** What a finished call tells the breaker: nothing if it was cancelled. */
  function Reported<T>(result: Result<T>, at: real): seq<Outcome> {
    if result.Returned? then [Succeeded(at)]
    else if result.error.Cancelled? then []
    else [Failed(at)]
  }

  /** A task cancellation is not a failure of the dependency. */
  method Report<T>(breaker: CircuitBreaker, result: Result<T>, at: real)
    requires breaker.Valid()
    modifies breaker
    ensures breaker.Valid() && breaker.history == old(breaker.history) + Reported(result, at)
  {
    if result.Returned? {
      breaker.OnSuccess(at);
    } else if !result.error.Cancelled? {
      breaker.OnFailure(at);
    }
  }

  class Guard {
    const breaker: CircuitBreaker?
    const attempts: int
    const baseDelay: real
    const timeout: Option<real>
    const retryOn: Error -> bool

    constructor (breaker: CircuitBreaker?, attempts: int, baseDelay: real, timeout: Option<real>, retryOn: Error -> bool)
      ensures this.breaker == breaker && this.attempts == attempts && this.baseDelay == baseDelay
      ensures this.timeout == timeout && this.retryOn == retryOn
    {
      this.breaker, this.attempts, this.baseDelay := breaker, attempts, baseDelay;
      this.timeout, this.retryOn := timeout, retryOn;
    }

    /** A rejected call reaches neither the operation nor the breaker's counters.
        Any other call reports to the breaker once, or not at all if cancelled;
        a guard built with no attempts reports a failure without trying. */
    method Call<T>(op: nat -> Result<T>, took: nat -> real, now: real)
      returns (result: Result<T>, calls: nat, elapsed: real)
      requires breaker != null ==> breaker.Valid()
      modifies breaker
      ensures breaker != null ==> breaker.Valid()
      ensures (breaker != null && old(breaker.Rejects(now))) ==>
                result == Raised(CircuitOpen) && calls == 0 && elapsed == 0.0 && breaker.history == old(breaker.history)
      ensures breaker != null && !old(breaker.Rejects(now)) ==>
                breaker.history == old(breaker.history) + Reported(result, now + elapsed)
      ensures breaker != null && !old(breaker.Rejects(now)) ==>
                match result
                case Returned(_) => breaker.history == old(breaker.history) + [Succeeded(now + elapsed)]
                case Raised(Cancelled) => breaker.history == old(breaker.history)
                case Raised(_) => breaker.history == old(breaker.history) + [Failed(now + elapsed)]
      ensures !(breaker != null && old(breaker.Rejects(now))) && attempts < 1 ==>
                result == Raised(BadAttempts) && calls == 0 && elapsed == 0.0
      ensures !(breaker != null && old(breaker.Rejects(now))) && attempts >= 1 ==>
                && 1 <= calls <= attempts
                && SettledBy(TimedResult(op, took, timeout), attempts, retryOn, calls - 1)
                && result == (if timeout.Some? && took(calls - 1) > timeout.value then Raised(OperationTimeout) else op(calls - 1))
                && elapsed == Spent(TimedLength(took, timeout), calls) + Sleeps(baseDelay, DEFAULT_MAX_DELAY, calls - 1)
                && (calls < attempts ==> result.Returned? || !retryOn(result.error))
                && forall j :: 0 <= j < calls - 1 ==>
                     if timeout.Some? && took(j) > timeout.value then retryOn(OperationTimeout)
                     else op(j).Raised? && retryOn(op(j).error)
    {
      if breaker != null {
        var rejected := breaker.BeforeCall(now);
        if rejected {
          return Raised(CircuitOpen), 0, 0.0;
        }
      }
      result, calls, elapsed := RetryAsync(TimedResult(op, took, timeout), TimedLength(took, timeout),
                                           attempts, baseDelay, DEFAULT_MAX_DELAY, retryOn);
      forall j | 0 <= j < calls - 1
        ensures if timeout.Some? && took(j) > timeout.value then retryOn(OperationTimeout)
                else op(j).Raised? && retryOn(op(j).error)
      {
        assert TimedResult(op, took, timeout)(j).Raised? && retryOn(TimedResult(op, took, timeout)(j).error);
      }
      if breaker != null {
        Report(breaker, result, now + elapsed);
      }
    }
  }

  /** A guarded call whose attempts are cut off at `limit` is over in bounded time. */
  lemma GuardedCallIsBounded(took: nat -> real, limit: real, baseDelay: real, calls: nat, attempts: nat)
    requires 1 <= calls <= attempts && baseDelay >= 0.0 && limit >= 0.0
    requires forall i :: 0 <= i < calls ==> took(i) >= 0.0
    ensures var total := Spent(TimedLength(took, Some(limit)), calls) + Sleeps(baseDelay, DEFAULT_MAX_DELAY, calls - 1);
      && total <= attempts as real * limit + baseDelay * (Pow2(attempts - 1) - 1) as real
      && total <= attempts as real * limit + (attempts - 1) as real * 5.0
  {
    CallIsBounded(TimedLength(took, Some(limit)), limit, baseDelay, DEFAULT_MAX_DELAY, calls, attempts);
  }

  // ---- a dead dependency ------------------------------------------------------------------

  lemma LastFailedSnoc(history: seq<Outcome>, n: int, at: real)
    requires n >= 0 && (n > 0 ==> LastFailed(history, n))
    ensures LastFailed(history + [Failed(at)], n + 1)
  {
  }

  lemma LastFailedFewer(history: seq<Outcome>, n: int, m: int)
    requires LastFailed(history, n) && 1 <= m <= n
    ensures LastFailed(history, m)
  {
  }

  /** Admitted calls beyond the threshold are a cooldown apart. */
  ghost predicate Paced(admitted: nat, threshold: int, resetAfter: real, since: real, last: real) {
    admitted >= Max(1, threshold) ==> last >= since + Multiple(admitted - Max(1, threshold), resetAfter)
  }

  lemma PacedStep(admitted: nat, threshold: int, resetAfter: real, since: real, last: real, next: real)
    requires resetAfter > 0.0 && next >= since
    requires Paced(admitted, threshold, resetAfter, since, last)
    requires admitted >= Max(1, threshold) ==> next >= last + resetAfter
    ensures Paced(admitted + 1, threshold, resetAfter, since, next)
  {
  }

  lemma AtMostQuotient(n: real, unit: real, total: real)
    requires unit > 0.0 && n * unit <= total
    ensures n <= total / unit
  {
    assert (total - n * unit) / unit == total / unit - n;
  }

  lemma AdmittedWithin(admitted: nat, threshold: int, resetAfter: real, since: real, last: real, until: real)
    requires resetAfter > 0.0 && since <= last <= until
    requires Paced(admitted, threshold, resetAfter, since, last)
    ensures admitted <= Max(1, threshold) + ((until - since) / resetAfter).Floor
  {
    AtMostQuotient(0.0, resetAfter, until - since);
    if admitted >= Max(1, threshold) {
      MultipleIs(admitted - Max(1, threshold), resetAfter);
      AtMostQuotient((admitted - Max(1, threshold)) as real, resetAfter, until - since);
    }
  }

  lemma CallsWithin(calls: nat, admitted: nat, attempts: nat, most: nat)
    requires calls <= attempts * admitted && admitted <= most
    ensures calls <= attempts * most
  {
    assert attempts * most == attempts * admitted + attempts * (most - admitted);
  }

  /** A call let through after the threshold comes a cooldown after the last failure. */
  lemma AdmittedIsLate(history: seq<Outcome>, threshold: int, resetAfter: real, admitted: nat, now: real)
    requires !Open(history, threshold, resetAfter, now)
    requires admitted >= Max(1, threshold) && LastFailed(history, admitted)
    ensures now >= history[|history| - 1].at + resetAfter
  {
    LastFailedFewer(history, admitted, Max(1, threshold));
  }

  /** What holds between two calls to a dead dependency, whichever guard makes
      them: `admitted` calls were let through since `since`, all failed, and they
      invoked the operation at most `attempts` times each. */
  ghost predicate DeadSoFar(history: seq<Outcome>, threshold: int, resetAfter: real, attempts: nat, admitted: nat,
                            invocations: nat, since: real, until: real)
  {
    && since <= until && invocations <= attempts * admitted
    && (admitted > 0 ==>
          && LastFailed(history, admitted)
          && since <= history[|history| - 1].at <= until
          && Paced(admitted, threshold, resetAfter, since, history[|history| - 1].at))
  }

  lemma CallsStep(invocations: nat, calls: nat, attempts: nat, admitted: nat)
    requires invocations <= attempts * admitted && calls <= attempts
    ensures invocations + calls <= attempts * (admitted + 1)
  {
  }

  /** One more call: rejected without effect, or let through to fail. */
  lemma DeadStep(before: seq<Outcome>, after: seq<Outcome>, threshold: int, resetAfter: real, attempts: nat, admitted: nat,
                 invocations: nat, calls: nat, since: real, until: real, start: real, end: real)
    requires resetAfter > 0.0 && until <= start <= end
    requires DeadSoFar(before, threshold, resetAfter, attempts, admitted, invocations, since, until)
    requires if Open(before, threshold, resetAfter, start) then after == before && calls == 0
             else after == before + [Failed(end)] && calls <= attempts
    ensures DeadSoFar(after, threshold, resetAfter, attempts,
                      if Open(before, threshold, resetAfter, start) then admitted else admitted + 1,
                      invocations + calls, since, end)
  {
    if !Open(before, threshold, resetAfter, start) {
      if admitted >= Max(1, threshold) {
        AdmittedIsLate(before, threshold, resetAfter, admitted, start);
      }
      LastFailedSnoc(before, admitted, end);
      PacedStep(admitted, threshold, resetAfter, since, if admitted > 0 then before[|before| - 1].at else since, end);
      CallsStep(invocations, calls, attempts, admitted);
    }
  }

  /** At most `attempts` invocations for each of the first `threshold` calls and
      then for one per elapsed cooldown. */
  lemma DeadBound(history: seq<Outcome>, threshold: int, resetAfter: real, attempts: nat, admitted: nat,
                  invocations: nat, since: real, until: real)
    requires resetAfter > 0.0
    requires DeadSoFar(history, threshold, resetAfter, attempts, admitted, invocations, since, until)
    ensures invocations <= attempts * (Max(1, threshold) + ((until - since) / resetAfter).Floor)
  {
    AtMostQuotient(0.0, resetAfter, until - since);
    if admitted > 0 {
      AdmittedWithin(admitted, threshold, resetAfter, since, history[|history| - 1].at, until);
    }
    CallsWithin(invocations, admitted, attempts, Max(1, threshold) + ((until - since) / resetAfter).Floor);
  }

  /** One guarded call to an operation on which every attempt raises. */
  method CallOnce<T>(g: Guard, op: nat -> Result<T>, took: nat -> real, now: real)
    returns (calls: nat, until: real)
    requires g.breaker != null && g.breaker.Valid() && g.baseDelay >= 0.0
    requires g.timeout.Some? ==> g.timeout.value >= 0.0
    requires forall i: nat :: op(i).Raised? && !op(i).error.Cancelled?
    requires forall i: nat :: took(i) >= 0.0
    modifies g.breaker
    ensures g.breaker.Valid() && until >= now
    ensures if Open(old(g.breaker.history), g.breaker.threshold, g.breaker.resetAfter, now)
            then calls == 0 && g.breaker.history == old(g.breaker.history)
            else g.breaker.history == old(g.breaker.history) + [Failed(until)]
                 && calls <= Max(0, g.attempts) && (g.attempts >= 1 ==> calls >= 1)
  {
    CircuitRejects(g.breaker, now);
    var rejected := g.breaker.Rejects(now);
    var result, n, elapsed := g.Call(op, took, now);
    calls, until := n, now + elapsed;
    if !rejected && g.attempts >= 1 {
      SpentIsNonNegative(TimedLength(took, g.timeout), calls);
      SleepsGrow(g.baseDelay, DEFAULT_MAX_DELAY, 0, calls - 1);
    }
  }

  /** Calls made one after another, over any stretch of time, to a dependency on
      which every attempt raises. */
  method CallDeadDependency<T>(g: Guard, op: (nat, nat) -> Result<T>, took: (nat, nat) -> real, pauses: seq<real>, since: real)
    returns (invocations: nat, until: real)
    requires g.breaker != null && g.breaker.Valid() && g.breaker.resetAfter > 0.0 && g.baseDelay >= 0.0
    requires g.timeout.Some? ==> g.timeout.value >= 0.0
    requires forall c: nat, i: nat :: op(c, i).Raised? && !op(c, i).error.Cancelled?
    requires forall c: nat, i: nat :: took(c, i) >= 0.0
    requires forall p :: p in pauses ==> p >= 0.0
    modifies g.breaker
    ensures until >= since
    ensures g.attempts >= 1 ==> |g.breaker.history| <= |old(g.breaker.history)| + invocations
    ensures invocations <= Max(0, g.attempts) * (Max(1, g.breaker.threshold) + ((until - since) / g.breaker.resetAfter).Floor)
  {
    var b := g.breaker;
    invocations, until := 0, since;
    ghost var admitted: nat := 0;
    for c := 0 to |pauses|
      invariant b.Valid()
      invariant DeadSoFar(b.history, b.threshold, b.resetAfter, Max(0, g.attempts), admitted, invocations, since, until)
      invariant g.attempts >= 1 ==> |b.history| <= |old(b.history)| + invocations
    {
      assert pauses[c] in pauses;
      var start := until + pauses[c];
      ghost var before, sofar := b.history, until;
      var calls;
      calls, until := CallOnce(g, (i: nat) => op(c, i), (i: nat) => took(c, i), start);
      DeadStep(before, b.history, b.threshold, b.resetAfter, Max(0, g.attempts), admitted, invocations, calls,
               since, sofar, start, until);
      admitted := if Open(before, b.threshold, b.resetAfter, start) then admitted else admitted + 1;
      invocations := invocations + calls;
    }
    DeadBound(b.history, b.threshold, b.resetAfter, Max(0, g.attempts), admitted, invocations, since, until);
  }

  // ---- JobQueue._guarded -------------------------------------------------------------------

  /** `except Exception` does not catch a cancellation. */
  predicate IsException(e: Error) {
    !e.Cancelled?
  }

  /** With no attempt to make, the function's own assertion fails. */
  method WithRetry<T>(op: nat -> Result<T>, took: nat -> real, attempts: int, baseDelay: real)
    returns (result: Result<T>, calls: nat, elapsed: real)
    ensures attempts < 1 ==> result == Raised(Other("AssertionError")) && calls == 0 && elapsed == 0.0
    ensures attempts >= 1 ==> 1 <= calls <= attempts
                              && SettledBy(op, attempts, IsException, calls - 1) && result == op(calls - 1)
                              && elapsed == Spent(took, calls) + Backoffs(baseDelay, calls - 1)
    ensures forall j :: 0 <= j < calls - 1 ==> op(j).Raised? && !op(j).error.Cancelled?
    ensures 0 < calls < attempts ==> result.Returned? || result.error.Cancelled?
  {
    calls, elapsed := 0, 0.0;
    if attempts < 1 {
      return Raised(Other("AssertionError")), calls, elapsed;
    }
    var lastExc := None;
    for attempt: nat := 0 to attempts
      invariant calls == attempt
      invariant forall j :: 0 <= j < attempt ==> op(j).Raised? && IsException(op(j).error)
      invariant attempt > 0 ==> lastExc == Some(op(attempt - 1).error)
      invariant elapsed == Spent(took, attempt)
                           + Backoffs(baseDelay, if attempt < attempts then attempt else attempt - 1)
    {
      calls := calls + 1;
      elapsed := elapsed + took(attempt);
      result := op(attempt);
      if result.Returned? || !IsException(result.error) {
        return;
      }
      lastExc := Some(result.error);
      if attempt < attempts - 1 {
        elapsed := elapsed + baseDelay * Pow2(attempt) as real;
      }
    }
    result := Raised(lastExc.value);
  }

  const QUEUE_ATTEMPTS := 3
  const QUEUE_BASE_DELAY := 0.1

  method QueueGuarded<T>(breaker: InlineBreaker, op: nat -> Result<T>, took: nat -> real, now: real)
    returns (result: Result<T>, calls: nat)
    requires breaker.Valid()
    modifies breaker
    ensures breaker.Valid()
    ensures old(breaker.Rejects(now)) ==>
              result == Raised(CircuitOpen) && calls == 0 && breaker.history == old(breaker.history)
    ensures !old(breaker.Rejects(now)) ==>
              && 1 <= calls <= QUEUE_ATTEMPTS
              && result == op(calls - 1)
              && (forall j :: 0 <= j < calls - 1 ==> op(j).Raised? && !op(j).error.Cancelled?)
              && (calls < QUEUE_ATTEMPTS ==> result.Returned? || result.error.Cancelled?)
              && var at := now + Spent(took, calls) + Backoffs(QUEUE_BASE_DELAY, calls - 1);
                 match result
                 case Returned(_) => breaker.history == old(breaker.history) + [Succeeded(at)]
                 case Raised(Cancelled) => breaker.history == old(breaker.history)
                 case Raised(_) => breaker.history == old(breaker.history) + [Failed(at)]
  {
    var rejected := breaker.BeforeCall(now);
    if rejected {
      return Raised(CircuitOpen), 0;
    }
    var elapsed;
    result, calls, elapsed := WithRetry(op, took, QUEUE_ATTEMPTS, QUEUE_BASE_DELAY);
    match result
    case Returned(_) => breaker.OnSuccess(now + elapsed);
    case Raised(e) =>
      if IsException(e) {
        breaker.OnFailure(now + elapsed);
      }
  }

  // ---- GitHubAppClient._send ------------------------------------------------------------------

  /** `Broken` is a transport error; `Escapes` any exception the loop does not catch. */
  datatype Reply = Status(code: int) | Broken | Escapes

  datatype Sent = Response(code: int) | Refused(code: int) | Exhausted | NotSent | Escaped

  const GITHUB_ATTEMPTS := 3
  const GITHUB_BASE_DELAY := 0.2

  predicate RetryableStatus(code: int) {
    code == 429 || code >= 500
  }

  /** Worth another attempt. */
  predicate Transient(r: Reply) {
    r.Broken? || (r.Status? && r.code >= 400 && RetryableStatus(r.code))
  }

  /** The first reply that is not transient decides; a definite refusal counts as
      a working service. Only running out of attempts counts as a failure. */
  method Send(breaker: InlineBreaker, reply: nat -> Reply, took: nat -> real, now: real) returns (sent: Sent, calls: nat)
    requires breaker.Valid()
    modifies breaker
    ensures breaker.Valid()
    ensures old(breaker.Rejects(now)) <==> sent.NotSent?
    ensures sent.NotSent? ==> calls == 0 && breaker.history == old(breaker.history)
    ensures !sent.NotSent? ==> 1 <= calls <= GITHUB_ATTEMPTS
    ensures !sent.NotSent? ==> forall j :: 0 <= j < calls - 1 ==>
              reply(j).Broken? || (reply(j).Status? && (reply(j).code == 429 || reply(j).code >= 500))
    ensures !sent.NotSent? ==>
              var at := now + Spent(took, calls) + Backoffs(GITHUB_BASE_DELAY, calls - 1);
              match reply(calls - 1)
              case Escapes => sent == Escaped && breaker.history == old(breaker.history)
              case Broken => calls == GITHUB_ATTEMPTS && sent == Exhausted && breaker.history == old(breaker.history) + [Failed(at)]
              case Status(code) =>
                if code < 400 then sent == Response(code) && breaker.history == old(breaker.history) + [Succeeded(at)]
                else if code != 429 && code < 500 then sent == Refused(code) && breaker.history == old(breaker.history) + [Succeeded(at)]
                else calls == GITHUB_ATTEMPTS && sent == Exhausted && breaker.history == old(breaker.history) + [Failed(at)]
  {
    calls := 0;
    var rejected := breaker.BeforeCall(now);
    if rejected {
      return NotSent, calls;
    }
    var clock := now;
    for attempt: nat := 0 to GITHUB_ATTEMPTS
      invariant calls == attempt
      invariant breaker.Valid() && breaker.history == old(breaker.history)
      invariant forall j :: 0 <= j < attempt ==> Transient(reply(j))
      invariant clock == now + Spent(took, attempt)
                         + Backoffs(GITHUB_BASE_DELAY, if attempt < GITHUB_ATTEMPTS then attempt else attempt - 1)
    {
      calls := calls + 1;
      clock := clock + took(attempt);
      match reply(attempt) {
        case Escapes =>
          return Escaped, calls;
        case Broken =>
        case Status(code) =>
          if code < 400 {
            breaker.OnSuccess(clock);
            return Response(code), calls;
          }
          if !RetryableStatus(code) {
            breaker.OnSuccess(clock);
            return Refused(code), calls;
          }
      }
      if attempt < GITHUB_ATTEMPTS - 1 {
        clock := clock + GITHUB_BASE_DELAY * Pow2(attempt) as real;
      }
    }
    breaker.OnFailure(clock);
    sent := Exhausted;
  }

  // ---- dead dependencies of the two older call sites --------------------------------------------

  lemma {:induction false} BackoffsNonNegative(baseDelay: real, n: nat)
    requires baseDelay >= 0.0
    ensures Backoffs(baseDelay, n) >= 0.0
  {
    if n > 0 {
      BackoffsNonNegative(baseDelay, n - 1);
    }
  }

  method QueueOnce<T>(b: InlineBreaker, op: nat -> Result<T>, took: nat -> real, now: real) returns (calls: nat, until: real)
    requires b.Valid()
    requires forall i: nat :: op(i).Raised? && IsException(op(i).error)
    requires forall i: nat :: took(i) >= 0.0
    modifies b
    ensures b.Valid() && until >= now
    ensures if Open(old(b.history), b.threshold, b.resetAfter, now) then calls == 0 && b.history == old(b.history)
            else b.history == old(b.history) + [Failed(until)] && 1 <= calls <= QUEUE_ATTEMPTS
  {
    InlineRejects(b, now);
    var result;
    result, calls := QueueGuarded(b, op, took, now);
    until := now;
    if calls > 0 {
      until := now + Spent(took, calls) + Backoffs(QUEUE_BASE_DELAY, calls - 1);
      SpentIsNonNegative(took, calls);
      BackoffsNonNegative(QUEUE_BASE_DELAY, calls - 1);
    }
  }

  /** The same bound for the job queue when Redis is down. */
  method CallDeadQueue<T>(b: InlineBreaker, op: (nat, nat) -> Result<T>, took: (nat, nat) -> real, pauses: seq<real>, since: real)
    returns (invocations: nat, until: real)
    requires b.Valid() && b.resetAfter > 0.0
    requires forall c: nat, i: nat :: op(c, i).Raised? && IsException(op(c, i).error)
    requires forall c: nat, i: nat :: took(c, i) >= 0.0
    requires forall p :: p in pauses ==> p >= 0.0
    modifies b
    ensures until >= since
    ensures |b.history| <= |old(b.history)| + invocations
    ensures invocations <= QUEUE_ATTEMPTS * (Max(1, b.threshold) + ((until - since) / b.resetAfter).Floor)
  {
    invocations, until := 0, since;
    ghost var admitted: nat := 0;
    for c := 0 to |pauses|
      invariant b.Valid() && |b.history| <= |old(b.history)| + invocations
      invariant DeadSoFar(b.history, b.threshold, b.resetAfter, QUEUE_ATTEMPTS, admitted, invocations, since, until)
    {
      assert pauses[c] in pauses;
      var start := until + pauses[c];
      ghost var before, sofar := b.history, until;
      var calls;
      calls, until := QueueOnce(b, (i: nat) => op(c, i), (i: nat) => took(c, i), start);
      DeadStep(before, b.history, b.threshold, b.resetAfter, QUEUE_ATTEMPTS, admitted, invocations, calls,
               since, sofar, start, until);
      admitted := if Open(before, b.threshold, b.resetAfter, start) then admitted else admitted + 1;
      invocations := invocations + calls;
    }
    DeadBound(b.history, b.threshold, b.resetAfter, QUEUE_ATTEMPTS, admitted, invocations, since, until);
  }

  method SendOnce(b: InlineBreaker, reply: nat -> Reply, took: nat -> real, now: real) returns (calls: nat, until: real)
    requires b.Valid()
    requires forall i: nat :: Transient(reply(i))
    requires forall i: nat :: took(i) >= 0.0
    modifies b
    ensures b.Valid() && until >= now
    ensures if Open(old(b.history), b.threshold, b.resetAfter, now) then calls == 0 && b.history == old(b.history)
            else b.history == old(b.history) + [Failed(until)] && 1 <= calls <= GITHUB_ATTEMPTS
  {
    InlineRejects(b, now);
    var sent;
    sent, calls := Send(b, reply, took, now);
    until := now;
    if calls > 0 {
      assert Transient(reply(calls - 1));
      until := now + Spent(took, calls) + Backoffs(GITHUB_BASE_DELAY, calls - 1);
      SpentIsNonNegative(took, calls);
      BackoffsNonNegative(GITHUB_BASE_DELAY, calls - 1);
    }
  }

  /** And for GitHub when it answers nothing but transient errors. */
  method SendToDeadGitHub(b: InlineBreaker, reply: (nat, nat) -> Reply, took: (nat, nat) -> real, pauses: seq<real>, since: real)
    returns (invocations: nat, until: real)
    requires b.Valid() && b.resetAfter > 0.0
    requires forall c: nat, i: nat :: Transient(reply(c, i))
    requires forall c: nat, i: nat :: took(c, i) >= 0.0
    requires forall p :: p in pauses ==> p >= 0.0
    modifies b
    ensures until >= since
    ensures |b.history| <= |old(b.history)| + invocations
    ensures invocations <= GITHUB_ATTEMPTS * (Max(1, b.threshold) + ((until - since) / b.resetAfter).Floor)
  {
    invocations, until := 0, since;
    ghost var admitted: nat := 0;
    for c := 0 to |pauses|
      invariant b.Valid() && |b.history| <= |old(b.history)| + invocations
      invariant DeadSoFar(b.history, b.threshold, b.resetAfter, GITHUB_ATTEMPTS, admitted, invocations, since, until)
    {
      assert pauses[c] in pauses;
      var start := until + pauses[c];
      ghost var before, sofar := b.history, until;
      var calls;
      calls, until := SendOnce(b, (i: nat) => reply(c, i), (i: nat) => took(c, i), start);
      DeadStep(before, b.history, b.threshold, b.resetAfter, GITHUB_ATTEMPTS, admitted, invocations, calls,
               since, sofar, start, until);
      admitted := if Open(before, b.threshold, b.resetAfter, start) then admitted else admitted + 1;
      invocations := invocations + calls;
    }
    DeadBound(b.history, b.threshold, b.resetAfter, GITHUB_ATTEMPTS, admitted, invocations, since, until);
  }
}
