/** Webhook ingress (`webhook_receiver/app.py`, `job_queue/queue.py`): claim the
    delivery id, run the enqueue operations, give the claim back on failure.
    One delivery id, any number of handlers interleaved call by call. */
module Ingress {
  import opened Basics

  datatype Reply = Accepted | Duplicate | Unavailable

  /** Where a handler stands after its dedup claim. */
  datatype Phase = Enqueuing(next: nat) | RollingBack | Done(reply: Reply)

  /** `claim` is the handler that set the dedup key, `queued` the operations that
      took effect, by index and in order. `rollbacks` counts claims given back,
      `lost` those whose removal raised. */
  datatype State = State(claim: Option<nat>, handlers: map<nat, Phase>, queued: seq<nat>, rollbacks: nat, lost: nat)

  const START := State(None, map[], [], 0, 0)

  /** One call of handler `h`; a call that raises has no effect on the queue. */
  datatype Event = Claim(h: nat, raises: bool) | Op(h: nat, raises: bool) | Rollback(h: nat, raises: bool)

  function Step(n: nat, s: State, e: Event): State {
    match e
    case Claim(h, raises) =>
      if h in s.handlers then s
      else if raises then s.(handlers := s.handlers[h := Done(Unavailable)])
      else if s.claim.Some? then s.(handlers := s.handlers[h := Done(Duplicate)])
      else s.(claim := Some(h), handlers := s.handlers[h := if n == 0 then Done(Accepted) else Enqueuing(0)])
    case Op(h, raises) =>
      if h !in s.handlers || !s.handlers[h].Enqueuing? then s
      else if raises then s.(handlers := s.handlers[h := RollingBack])
      else
        var i := s.handlers[h].next;
        s.(queued := s.queued + [i],
           handlers := s.handlers[h := if i + 1 >= n then Done(Accepted) else Enqueuing(i + 1)])
    case Rollback(h, raises) =>
      if h !in s.handlers || !s.handlers[h].RollingBack? then s
      else if raises then s.(lost := s.lost + 1, handlers := s.handlers[h := Done(Unavailable)])
      else s.(claim := None, rollbacks := s.rollbacks + 1, handlers := s.handlers[h := Done(Unavailable)])
  }

  function RunFrom(n: nat, s: State, events: seq<Event>): State {
    if events == [] then s
    else Step(n, RunFrom(n, s, events[..|events| - 1]), events[|events| - 1])
  }

  function Run(n: nat, events: seq<Event>): State {
    RunFrom(n, START, events)
  }

  lemma {:induction false} RunFromAppend(n: nat, s: State, a: seq<Event>, b: seq<Event>)
    ensures RunFrom(n, s, a + b) == RunFrom(n, RunFrom(n, s, a), b)
  {
    if b == [] {
      assert a + b == a;
    } else {
      assert (a + b)[..|a + b| - 1] == a + b[..|b| - 1];
      RunFromAppend(n, s, a, b[..|b| - 1]);
    }
  }

  function Times(queued: seq<nat>, i: nat): nat {
    if queued == [] then 0
    else Times(queued[..|queued| - 1], i) + if queued[|queued| - 1] == i then 1 else 0
  }

  lemma TimesSnoc(queued: seq<nat>, k: nat, i: nat)
    ensures Times(queued + [k], i) == Times(queued, i) + if k == i then 1 else 0
  {
    assert (queued + [k])[..|queued + [k]| - 1] == queued;
  }

  // ---- what every interleaving keeps ---------------------------------------------------

  predicate MidFlight(s: State, h: nat) {
    h in s.handlers && !s.handlers[h].Done?
  }

  predicate AcceptedBy(s: State, h: nat) {
    h in s.handlers && s.handlers[h] == Done(Accepted)
  }

  ghost predicate AllQueued(n: nat, s: State) {
    forall i: nat :: i < n ==> Times(s.queued, i) >= 1
  }

  /** Whoever works on the delivery, or finished it, holds the claim. */
  ghost predicate ClaimInv(n: nat, s: State) {
    && (forall h: nat :: MidFlight(s, h) ==> s.claim == Some(h))
    && (forall h: nat :: AcceptedBy(s, h) ==> s.claim == Some(h))
    && (s.claim.Some? ==> s.claim.value in s.handlers)
    && (s.claim.Some? && s.handlers[s.claim.value].Done? ==>
          AcceptedBy(s, s.claim.value) || (s.lost == 1 && s.handlers[s.claim.value] == Done(Unavailable)))
    && s.lost <= 1
    && (s.lost == 1 ==> s.claim.Some? && s.handlers[s.claim.value] == Done(Unavailable))
    && (forall h: nat :: h in s.handlers && s.handlers[h].Enqueuing? ==> s.handlers[h].next < n)
  }

  /** How often the current claim may have run operation `i`. */
  function ThisRound(n: nat, s: State, i: nat): nat
    requires s.claim.Some? ==> s.claim.value in s.handlers
  {
    if s.claim.None? then 0
    else match s.handlers[s.claim.value]
      case Enqueuing(k) => if i < k then 1 else 0
      case Done(Accepted) => if i < n then 1 else 0
      case _ => if i + 1 < n then 1 else 0
  }

  /** The same, at least. */
  function RanSurely(n: nat, s: State, i: nat): nat
    requires s.claim.Some? ==> s.claim.value in s.handlers
  {
    if s.claim.None? then 0
    else match s.handlers[s.claim.value]
      case Enqueuing(k) => if i < k then 1 else 0
      case Done(Accepted) => if i < n then 1 else 0
      case _ => 0
  }

  predicate CountInv(n: nat, s: State, i: nat)
    requires s.claim.Some? ==> s.claim.value in s.handlers
  {
    && RanSurely(n, s, i) <= Times(s.queued, i) <= ThisRound(n, s, i) + if i + 1 < n then s.rollbacks else 0
  }

  lemma ClaimInvStep(n: nat, s: State, e: Event)
    requires n >= 1 && ClaimInv(n, s)
    ensures ClaimInv(n, Step(n, s, e))
  {
    var t := Step(n, s, e);
    if e.h in s.handlers {
      assert MidFlight(s, e.h) ==> s.claim == Some(e.h);
    }
    forall h | h != e.h ensures MidFlight(t, h) <==> MidFlight(s, h)
                        ensures AcceptedBy(t, h) <==> AcceptedBy(s, h) {
    }
  }

  lemma CountInvQuiet(n: nat, s: State, e: Event, i: nat)
    requires n >= 1 && ClaimInv(n, s) && ClaimInv(n, Step(n, s, e)) && CountInv(n, s, i)
    requires Step(n, s, e).queued == s.queued
    ensures CountInv(n, Step(n, s, e), i)
  {
    var times := Times(s.queued, i);
    assert MidFlight(s, e.h) ==> s.claim == Some(e.h);
  }

  lemma CountInvQueued(n: nat, s: State, h: nat, i: nat)
    requires n >= 1 && ClaimInv(n, s) && CountInv(n, s, i)
    requires h in s.handlers && s.handlers[h].Enqueuing?
    requires ClaimInv(n, Step(n, s, Op(h, false)))
    ensures CountInv(n, Step(n, s, Op(h, false)), i)
  {
    assert MidFlight(s, h);
    TimesSnoc(s.queued, s.handlers[h].next, i);
  }

  lemma CountInvStep(n: nat, s: State, e: Event, i: nat)
    requires n >= 1 && ClaimInv(n, s) && CountInv(n, s, i)
    ensures ClaimInv(n, Step(n, s, e)) && CountInv(n, Step(n, s, e), i)
  {
    ClaimInvStep(n, s, e);
    if e.Op? && e.h in s.handlers && s.handlers[e.h].Enqueuing? && !e.raises {
      CountInvQueued(n, s, e.h, i);
    } else {
      CountInvQuiet(n, s, e, i);
    }
  }

  lemma {:induction false} InvRun(n: nat, events: seq<Event>, i: nat)
    requires n >= 1
    ensures ClaimInv(n, Run(n, events)) && CountInv(n, Run(n, events), i)
  {
    if events != [] {
      var front := events[..|events| - 1];
      InvRun(n, front, i);
      CountInvStep(n, Run(n, front), events[|events| - 1], i);
    }
  }

  // ---- main results -----------------------------------------------------------------------

  /** The dedup key is set only while a handler works on the delivery, or all of
      its jobs are queued, or a rollback raised; never more than one handler works. */
  lemma ClaimIsHeldForAReason(n: nat, events: seq<Event>)
    requires n >= 1
    ensures var s := Run(n, events);
      && (s.claim.Some? ==> MidFlight(s, s.claim.value) || AllQueued(n, s) || s.lost >= 1)
      && (forall h, g :: MidFlight(s, h) && MidFlight(s, g) ==> h == g)
      && (forall h, g :: MidFlight(s, h) && AcceptedBy(s, g) ==> false)
  {
    var s := Run(n, events);
    InvRun(n, events, 0);
    if s.claim.Some? && AcceptedBy(s, s.claim.value) {
      forall i: nat | i < n ensures Times(s.queued, i) >= 1 {
        InvRun(n, events, i);
      }
    }
  }

  /** A 200 "accepted" is sent at most once, and only when every operation ran. */
  lemma AcceptedMeansQueued(n: nat, events: seq<Event>, h: nat)
    requires n >= 1 && AcceptedBy(Run(n, events), h)
    ensures AllQueued(n, Run(n, events))
    ensures forall g :: AcceptedBy(Run(n, events), g) ==> g == h
  {
    var s := Run(n, events);
    InvRun(n, events, 0);
    forall i: nat | i < n ensures Times(s.queued, i) >= 1 {
      InvRun(n, events, i);
    }
  }

  /** The last operation is queued at most once and every other one at most once
      more than claims were given back. */
  lemma QueuedAtMost(n: nat, events: seq<Event>, i: nat)
    requires n >= 1
    ensures Times(Run(n, events).queued, i) <= if i + 1 < n then 1 + Run(n, events).rollbacks else 1
  {
    InvRun(n, events, i);
  }

  lemma {:induction false} OnlyZeros(queued: seq<nat>)
    requires forall i: nat :: i >= 1 ==> Times(queued, i) == 0
    ensures Times(queued, 0) == |queued|
  {
    if queued != [] {
      var front, k := queued[..|queued| - 1], queued[|queued| - 1];
      assert Times(queued, k) >= 1;
      forall i: nat | i >= 1 ensures Times(front, i) == 0 {
        assert Times(queued, i) == 0;
      }
      OnlyZeros(front);
    }
  }

  /** `pull_request` and `push` deliveries have one operation: whatever raises and
      however often the delivery is repeated, they put at most one job on the queue. */
  lemma OneJobPerDelivery(events: seq<Event>)
    ensures |Run(1, events).queued| <= 1
  {
    forall i: nat | i >= 1 ensures Times(Run(1, events).queued, i) == 0 {
      InvRun(1, events, i);
    }
    InvRun(1, events, 0);
    OnlyZeros(Run(1, events).queued);
  }

  /** Once no handler is at work and no rollback raised, either the jobs are all
      queued or the next delivery of the same id starts over. */
  lemma NoDeliveryIsSwallowed(n: nat, events: seq<Event>, h: nat)
    requires n >= 1 && (forall g :: !MidFlight(Run(n, events), g))
    requires Run(n, events).lost == 0 && h !in Run(n, events).handlers
    ensures var s := Run(n, events);
      AllQueued(n, s) || Step(n, s, Claim(h, false)).handlers[h] == Enqueuing(0)
  {
    ClaimIsHeldForAReason(n, events);
  }

  // ---- an operation before the last can be queued twice --------------------------------------

  function Ops(h: nat, k: nat): seq<Event> {
    if k == 0 then [] else Ops(h, k - 1) + [Op(h, false)]
  }

  /** From `s` to `t`, handler `h` ran its first `k` operations. */
  predicate Ran(s: State, t: State, h: nat, k: nat, i: nat) {
    && t.claim == s.claim && t.handlers == s.handlers[h := Enqueuing(k)]
    && Times(t.queued, i) == Times(s.queued, i) + if i < k then 1 else 0
  }

  lemma OpsStep(n: nat, s: State, t: State, h: nat, k: nat, i: nat)
    requires Ran(s, t, h, k, i) && k + 1 < n
    ensures Ran(s, Step(n, t, Op(h, false)), h, k + 1, i)
  {
    TimesSnoc(t.queued, k, i);
    assert t.handlers[h := Enqueuing(k + 1)] == s.handlers[h := Enqueuing(k + 1)];
  }

  lemma RunFromSnoc(n: nat, s: State, events: seq<Event>, e: Event)
    ensures RunFrom(n, s, events + [e]) == Step(n, RunFrom(n, s, events), e)
  {
    assert (events + [e])[..|events + [e]| - 1] == events;
  }

  lemma {:induction false} OpsRun(n: nat, s: State, h: nat, k: nat, i: nat)
    requires h in s.handlers && s.handlers[h] == Enqueuing(0) && k < n
    ensures Ran(s, RunFrom(n, s, Ops(h, k)), h, k, i)
  {
    if k == 0 {
      assert s.handlers[h := Enqueuing(0)] == s.handlers;
    } else {
      var before := Ops(h, k - 1);
      OpsRun(n, s, h, k - 1, i);
      OpsStep(n, s, RunFrom(n, s, before), h, k - 1, i);
      RunFromSnoc(n, s, before, Op(h, false));
    }
  }

  lemma RunSingle(n: nat, s: State, e: Event)
    ensures RunFrom(n, s, [e]) == Step(n, s, e)
  {
    assert [e][..0] == [];
    assert RunFrom(n, s, []) == s;
  }

  /** Claim, run `k` operations. */
  lemma Round(n: nat, s: State, h: nat, k: nat, i: nat)
    requires s.claim.None? && h !in s.handlers && k < n
    ensures var t := RunFrom(n, s, [Claim(h, false)] + Ops(h, k));
      && t.claim == Some(h) && t.handlers == s.handlers[h := Enqueuing(k)]
      && Times(t.queued, i) == Times(s.queued, i) + if i < k then 1 else 0
  {
    RunSingle(n, s, Claim(h, false));
    RunFromAppend(n, s, [Claim(h, false)], Ops(h, k));
    OpsRun(n, Step(n, s, Claim(h, false)), h, k, i);
  }

  /** Claim, run `k` operations, fail on the next, give the claim back. */
  lemma FailedRound(n: nat, s: State, h: nat, k: nat, i: nat)
    requires s.claim.None? && h !in s.handlers && k < n
    ensures var t := RunFrom(n, s, ([Claim(h, false)] + Ops(h, k)) + [Op(h, true), Rollback(h, false)]);
      && t.claim.None? && t.handlers == s.handlers[h := Done(Unavailable)]
      && Times(t.queued, i) == Times(s.queued, i) + if i < k then 1 else 0
  {
    var go := [Claim(h, false)] + Ops(h, k);
    Round(n, s, h, k, i);
    var t := RunFrom(n, s, go);
    RunFromAppend(n, s, go, [Op(h, true), Rollback(h, false)]);
    assert [Op(h, true), Rollback(h, false)] == [Op(h, true)] + [Rollback(h, false)];
    RunFromAppend(n, t, [Op(h, true)], [Rollback(h, false)]);
    RunSingle(n, t, Op(h, true));
    RunSingle(n, Step(n, t, Op(h, true)), Rollback(h, false));
  }

  lemma QueuedTwice(n: nat, i: nat) returns (events: seq<Event>)
    requires i + 1 < n
    ensures Times(Run(n, events).queued, i) == 2
  {
    var first := ([Claim(0, false)] + Ops(0, i + 1)) + [Op(0, true), Rollback(0, false)];
    var second := [Claim(1, false)] + Ops(1, i + 1);
    FailedRound(n, START, 0, i + 1, i);
    Round(n, Run(n, first), 1, i + 1, i);
    RunFromAppend(n, START, first, second);
    events := first + second;
  }

  ghost predicate NeverTwice(n: nat, i: nat) {
    forall events :: Times(Run(n, events).queued, i) <= 1
  }

  /** Exactly the last operation of a delivery is safe from being queued twice, so
      an installation event that names several repositories can index all but the
      last of them twice. */
  lemma QueuedOnceIffLast(n: nat, i: nat)
    requires i < n
    ensures NeverTwice(n, i) <==> i + 1 == n
  {
    if i + 1 < n {
      var events := QueuedTwice(n, i);
      assert Times(Run(n, events).queued, i) > 1;
    } else {
      forall events ensures Times(Run(n, events).queued, i) <= 1 {
        QueuedAtMost(n, events, i);
      }
    }
  }

  /** Everything a delivery asks for is queued if and only if the handler that
      holds its claim has accepted it. */
  lemma AllQueuedIffAccepted(n: nat, events: seq<Event>)
    requires n >= 1
    ensures var s := Run(n, events);
      AllQueued(n, s) <==> s.claim.Some? && AcceptedBy(s, s.claim.value)
  {
    var s := Run(n, events);
    InvRun(n, events, n - 1);
    if s.claim.Some? && AcceptedBy(s, s.claim.value) {
      AcceptedMeansQueued(n, events, s.claim.value);
    }
    if AllQueued(n, s) {
      assert Times(s.queued, n - 1) >= 1;
    }
  }

  /** A new handler is told "duplicate delivery, already processed" exactly when
      the claim is held, and this is true exactly when the holder has accepted. */
  lemma DuplicateIsTrueIff(n: nat, events: seq<Event>, h: nat)
    requires n >= 1 && h !in Run(n, events).handlers
    ensures var s := Run(n, events);
      var told := Step(n, s, Claim(h, false)).handlers[h] == Done(Duplicate);
      && (told <==> s.claim.Some?)
      && (told ==> (AllQueued(n, s) <==> AcceptedBy(s, s.claim.value)))
  {
    AllQueuedIffAccepted(n, events);
  }

  /** "duplicate delivery, already processed" can be sent although nothing was, or
      will be, processed on this claim: the claim holder may still fail. */
  lemma DuplicateCanBePremature() returns (events: seq<Event>)
    ensures var s := Run(1, events);
      1 in s.handlers && s.handlers[1] == Done(Duplicate) && s.queued == [] && s.claim.None?
  {
    var a, b, c, d := Claim(0, false), Claim(1, false), Op(0, true), Rollback(0, false);
    RunSingle(1, START, a);
    RunFromAppend(1, START, [a], [b]);
    RunSingle(1, Run(1, [a]), b);
    RunFromAppend(1, START, [a] + [b], [c]);
    RunSingle(1, Run(1, [a] + [b]), c);
    RunFromAppend(1, START, [a] + [b] + [c], [d]);
    RunSingle(1, Run(1, [a] + [b] + [c]), d);
    events := [a] + [b] + [c] + [d];
  }
}
