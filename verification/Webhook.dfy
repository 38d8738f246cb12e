/** The webhook endpoint (`webhook_receiver/app.py`) over its two stores: the
    dedup keys and the job queue, both in Redis. */
module Webhook {
  import opened Basics
  import opened Ingress

  datatype Job =
    | ReviewJob(repo: string, prNumber: int, action: string)
    | IndexRepoJob(repo: string)
    | ReindexRepoJob(repo: string, before: string, after: string)

  /** A payload that does not validate, that has nothing to enqueue, or jobs. */
  datatype Parsed = Invalid | Nothing | Enqueue(jobs: seq<Job>)

  datatype Request = Request(signed: bool, delivery: Option<string>, event: string, parsed: Parsed)

  datatype Http = Unauthorized | BadRequest | Unprocessable | Ignored | Handled(reply: Reply)

  predicate Known(event: string) {
    event in ["pull_request", "installation", "installation_repositories", "push"]
  }

  /** The request reaches the dedup claim. */
  predicate Reaches(req: Request) {
    && req.signed && req.delivery.Some? && req.delivery.value != "" && Known(req.event)
    && req.parsed.Enqueue? && req.parsed.jobs != []
  }

  /** The first `k` operations, in order. */
  function Indices(k: nat): seq<nat> {
    seq(k, i requires 0 <= i < k => i)
  }

  lemma {:induction false} OnlyThisHandler(n: nat, s: State, events: seq<Event>, h: nat)
    requires forall e :: e in events ==> e.h == h
    ensures forall g :: g != h ==> (g in RunFrom(n, s, events).handlers <==> g in s.handlers)
  {
    if events != [] {
      assert events[|events| - 1] in events;
      OnlyThisHandler(n, s, events[..|events| - 1], h);
    }
  }

  /** Handler `h` holds the claim and has run its first `k` operations. */
  predicate Midway(n: nat, s: State, t: State, h: nat, k: nat) {
    && t.claim == Some(h) && h in t.handlers
    && t.handlers[h] == (if k < n then Enqueuing(k) else Done(Accepted))
    && t.queued == s.queued + Indices(k)
  }

  lemma NextOp(n: nat, s: State, t: State, h: nat, k: nat)
    requires k < n && Midway(n, s, t, h, k)
    ensures Midway(n, s, Step(n, t, Op(h, false)), h, k + 1)
  {
    assert Indices(k + 1) == Indices(k) + [k];
  }

  /** The handler's first `k` operations, as a run. */
  lemma {:induction false} OpsAreRun(n: nat, s: State, h: nat, k: nat)
    requires k <= n && Midway(n, s, s, h, 0)
    ensures Midway(n, s, RunFrom(n, s, Ops(h, k)), h, k)
    ensures forall e :: e in Ops(h, k) ==> e.h == h
  {
    if k > 0 {
      OpsAreRun(n, s, h, k - 1);
      NextOp(n, s, RunFrom(n, s, Ops(h, k - 1)), h, k - 1);
      RunFromSnoc(n, s, Ops(h, k - 1), Op(h, false));
    } else {
      assert RunFrom(n, s, Ops(h, 0)) == s;
    }
  }

  lemma GiveBack(n: nat, s: State, t: State, h: nat, k: nat, fails: bool)
    requires k < n && Midway(n, s, t, h, k)
    ensures var u := Step(n, Step(n, t, Op(h, true)), Rollback(h, fails));
      && h in u.handlers && u.handlers[h] == Done(Unavailable)
      && (u.claim.Some? <==> fails) && u.queued == t.queued
  {
  }

  /** The `k`-th operation raises, and the claim is given back or lost. */
  lemma RollsBack(n: nat, s: State, h: nat, k: nat, fails: bool) returns (events: seq<Event>, u: State)
    requires k < n && Midway(n, s, s, h, 0)
    ensures u == RunFrom(n, s, events) && (forall e :: e in events ==> e.h == h)
    ensures h in u.handlers && u.handlers[h] == Done(Unavailable)
    ensures (u.claim.Some? <==> fails) && u.queued == s.queued + Indices(k)
  {
    var ops := Ops(h, k);
    var t := RunFrom(n, s, ops);
    OpsAreRun(n, s, h, k);
    GiveBack(n, s, t, h, k, fails);
    RunFromSnoc(n, s, ops, Op(h, true));
    RunFromSnoc(n, s, ops + [Op(h, true)], Rollback(h, fails));
    events := (ops + [Op(h, true)]) + [Rollback(h, fails)];
    u := Step(n, Step(n, t, Op(h, true)), Rollback(h, fails));
  }

  /** Which calls of one handler raise: the claim, for each operation its status
      write and its enqueue, and the removal of the claim. */
  datatype Faults = Faults(claim: bool, status: nat -> bool, queue: nat -> bool, rollback: bool)

  /** Index jobs show their repository as pending before they are enqueued. */
  predicate Marks(job: Job) {
    !job.ReviewJob?
  }

  predicate OpRaises(job: Job, k: nat, f: Faults) {
    (Marks(job) && f.status(k)) || f.queue(k)
  }

  /** The repositories that operations which did not raise marked as pending. */
  function MarkedBy(jobs: seq<Job>): seq<string> {
    if jobs == [] then []
    else MarkedBy(jobs[..|jobs| - 1]) + if Marks(jobs[|jobs| - 1]) then [jobs[|jobs| - 1].repo] else []
  }

  lemma MarkedNext(ops: seq<Job>, k: nat)
    requires k < |ops|
    ensures ops[..k + 1] == ops[..k] + [ops[k]]
    ensures MarkedBy(ops[..k + 1]) == MarkedBy(ops[..k]) + if Marks(ops[k]) then [ops[k].repo] else []
  {
    assert ops[..k + 1][..k] == ops[..k];
  }

  /** What an operation that raises may still have marked. */
  function MarkedByFailed(ops: seq<Job>, ran: nat, f: Faults): seq<string> {
    if ran < |ops| && Marks(ops[ran]) && !f.status(ran) then [ops[ran].repo] else []
  }

  /** Marked pending are the repositories of exactly the index and reindex jobs. */
  lemma {:induction false} QueuedAreMarked(jobs: seq<Job>, repo: string)
    ensures repo in MarkedBy(jobs) <==>
            exists job :: job in jobs && (job.IndexRepoJob? || job.ReindexRepoJob?) && job.repo == repo
  {
    if jobs != [] {
      var front, last := jobs[..|jobs| - 1], jobs[|jobs| - 1];
      QueuedAreMarked(front, repo);
      assert jobs == front + [last];
      assert last in jobs;
    }
  }

  class JobQueue {
    var seen: set<string>
    var jobs: seq<Job>
    var marked: seq<string>        // mark_pending calls that took effect, in the status table

    constructor ()
      ensures seen == {} && jobs == [] && marked == []
    {
      seen, jobs, marked := {}, [], [];
    }

    /** SET NX: true for the first caller only. */
    method MarkSeen(delivery: string) returns (isNew: bool)
      modifies this`seen
      ensures isNew <==> delivery !in old(seen)
      ensures seen == old(seen) + {delivery}
    {
      isNew := delivery !in seen;
      seen := seen + {delivery};
    }

    method Unclaim(delivery: string)
      modifies this`seen
      ensures seen == old(seen) - {delivery}
    {
      seen := seen - {delivery};
    }

    /** One enqueue operation: the status first, where it has one, then the queue. */
    method RunOp(job: Job, k: nat, f: Faults) returns (raised: bool)
      modifies this`jobs, this`marked
      ensures raised == OpRaises(job, k, f)
      ensures raised <==> f.queue(k) || ((job.IndexRepoJob? || job.ReindexRepoJob?) && f.status(k))
      ensures jobs == if raised then old(jobs) else old(jobs) + [job]
      ensures marked == if (job.IndexRepoJob? || job.ReindexRepoJob?) && !f.status(k) then old(marked) + [job.repo]
                        else old(marked)
    {
      if Marks(job) {
        if f.status(k) {
          return true;
        }
        marked := marked + [job.repo];
      }
      if !f.queue(k) {
        jobs := jobs + [job];
      }
      raised := f.queue(k);
    }

    /** The loop over the operations, up to the first that raises. */
    method RunOps(ops: seq<Job>, f: Faults) returns (ran: nat)
      modifies this`jobs, this`marked
      ensures ran <= |ops| && jobs == old(jobs) + ops[..ran]
      ensures marked == old(marked) + MarkedBy(ops[..ran]) + MarkedByFailed(ops, ran, f)
      ensures forall k :: 0 <= k < ran ==> !OpRaises(ops[k], k, f)
      ensures ran < |ops| ==> OpRaises(ops[ran], ran, f)
    {
      ran := 0;
      while ran < |ops|
        invariant ran <= |ops|
        invariant jobs == old(jobs) + ops[..ran] && marked == old(marked) + MarkedBy(ops[..ran])
        invariant forall k :: 0 <= k < ran ==> !OpRaises(ops[k], k, f)
      {
        var fails := RunOp(ops[ran], ran, f);
        if fails {
          return;
        }
        MarkedNext(ops, ran);
        ran := ran + 1;
      }
    }

    /** The claimed part: run the operations, give the claim back if one raises. */
    method EnqueueAll(id: string, ops: seq<Job>, f: Faults, ghost h: nat, ghost s: State)
      returns (reply: Reply, ran: nat, ghost t: State, ghost events: seq<Event>)
      requires ops != [] && h in s.handlers && s.handlers[h] == Enqueuing(0) && s.claim == Some(h) && id in seen
      modifies this
      ensures t == RunFrom(|ops|, s, events) && (forall e :: e in events ==> e.h == h)
      ensures h in t.handlers && t.handlers[h] == Done(reply) && (t.claim.Some? <==> id in seen)
      ensures ran <= |ops| && t.queued == s.queued + Indices(ran) && jobs == old(jobs) + ops[..ran]
      ensures marked == old(marked) + MarkedBy(ops[..ran]) + MarkedByFailed(ops, ran, f)
      ensures forall k :: 0 <= k < ran ==> !OpRaises(ops[k], k, f)
      ensures ran == |ops| ==> reply == Accepted && seen == old(seen)
      ensures ran < |ops| ==> reply == Unavailable && OpRaises(ops[ran], ran, f)
                              && seen == if f.rollback then old(seen) else old(seen) - {id}
    {
      ran := RunOps(ops, f);
      assert s.queued + Indices(0) == s.queued;
      OpsAreRun(|ops|, s, h, ran);
      events := Ops(h, ran);
      t := RunFrom(|ops|, s, events);
      if ran == |ops| {
        return Accepted, ran, t, events;
      }
      events, t := RollsBack(|ops|, s, h, ran, f.rollback);
      if !f.rollback {
        Unclaim(id);
      }
      reply := Unavailable;
    }

    /** One handler, from its claim to its reply. Seen from the delivery's state
        `s` it is a run of handler `h` in the interleaving model, and other
        deliveries' claims are untouched. */
    method Process(id: string, ops: seq<Job>, f: Faults, ghost h: nat, ghost s: State)
      returns (reply: Reply, ran: nat, ghost t: State, ghost events: seq<Event>)
      requires ops != [] && h !in s.handlers && (s.claim.Some? <==> id in seen)
      modifies this
      ensures t == RunFrom(|ops|, s, events) && (forall e :: e in events ==> e.h == h)
      ensures h in t.handlers && t.handlers[h] == Done(reply) && (t.claim.Some? <==> id in seen)
      ensures ran <= |ops| && t.queued == s.queued + Indices(ran) && jobs == old(jobs) + ops[..ran]
      ensures f.claim ==> reply == Unavailable && ran == 0 && seen == old(seen) && marked == old(marked)
      ensures !f.claim && id in old(seen) ==> reply == Duplicate && ran == 0 && seen == old(seen) && marked == old(marked)
      ensures !f.claim && id !in old(seen) ==>
                && (forall k :: 0 <= k < ran ==> !OpRaises(ops[k], k, f))
                && marked == old(marked) + MarkedBy(ops[..ran]) + MarkedByFailed(ops, ran, f)
                && if ran == |ops| then reply == Accepted && seen == old(seen) + {id}
                   else reply == Unavailable && OpRaises(ops[ran], ran, f)
                        && seen == old(seen) + if f.rollback then {id} else {}
    {
      var claim := Claim(h, f.claim);
      RunSingle(|ops|, s, claim);
      t, events, ran := Step(|ops|, s, claim), [claim], 0;
      assert Indices(0) == [] && s.queued + [] == s.queued && ops[..0] == [] && jobs + [] == jobs;
      if f.claim {
        return Unavailable, ran, t, events;
      }
      var isNew := MarkSeen(id);
      if !isNew {
        return Duplicate, ran, t, events;
      }
      ghost var more;
      reply, ran, t, more := EnqueueAll(id, ops, f, h, t);
      RunFromAppend(|ops|, s, events, more);
      events := events + more;
    }

    /** The endpoint: requests that fail a check, or have nothing to enqueue, are
        answered without touching a store. */
    method ReceiveWebhook(req: Request, f: Faults, ghost h: nat, ghost s: State)
      returns (http: Http, ran: nat, ghost t: State, ghost events: seq<Event>)
      requires h !in s.handlers
      requires req.delivery.Some? ==> (s.claim.Some? <==> req.delivery.value in seen)
      modifies this
      ensures http.Handled? <==> Reaches(req)
      ensures http.Handled? <==>
                && req.signed && req.delivery.Some? && req.delivery.value != "" && req.parsed.Enqueue? && req.parsed.jobs != []
                && (req.event == "pull_request" || req.event == "push"
                    || req.event == "installation" || req.event == "installation_repositories")
      ensures !Reaches(req) ==> seen == old(seen) && jobs == old(jobs) && marked == old(marked) && t == s && ran == 0
      ensures http.Unauthorized? <==> !req.signed
      ensures http.BadRequest? <==> req.signed && (req.delivery.None? || req.delivery.value == "")
      ensures http.Unprocessable? <==> req.signed && req.delivery.Some? && req.delivery.value != "" && Known(req.event)
                                       && req.parsed.Invalid?
      ensures Reaches(req) ==>
                var id, ops := req.delivery.value, req.parsed.jobs;
                && t == RunFrom(|ops|, s, events) && (forall e :: e in events ==> e.h == h)
                && h in t.handlers && t.handlers[h] == Done(http.reply) && (t.claim.Some? <==> id in seen)
                && ran <= |ops| && t.queued == s.queued + Indices(ran) && jobs == old(jobs) + ops[..ran]
                && seen - {id} == old(seen) - {id}
                && (http.reply == Duplicate <==> !f.claim && id in old(seen))
                && (http.reply == Accepted <==> !f.claim && id !in old(seen) && ran == |ops|)
      ensures Reaches(req) ==>
                var id, ops := req.delivery.value, req.parsed.jobs;
                if f.claim || id in old(seen) then ran == 0 && marked == old(marked)
                else
                  && (forall k :: 0 <= k < ran ==> !OpRaises(ops[k], k, f))
                  && marked == old(marked) + MarkedBy(ops[..ran]) + MarkedByFailed(ops, ran, f)
                  && (ran < |ops| ==> OpRaises(ops[ran], ran, f) && (id in seen <==> f.rollback))
    {
      t, events, ran := s, [], 0;
      if !req.signed {
        return Unauthorized, ran, t, events;
      }
      if req.delivery.None? || req.delivery.value == "" {
        return BadRequest, ran, t, events;
      }
      if !Known(req.event) {
        return Ignored, ran, t, events;
      }
      if req.parsed.Invalid? {
        return Unprocessable, ran, t, events;
      }
      if req.parsed.Nothing? || req.parsed.jobs == [] {
        return Ignored, ran, t, events;
      }
      var reply;
      reply, ran, t, events := Process(req.delivery.value, req.parsed.jobs, f, h, s);
      http := Handled(reply);
    }
  }

  /** An installation naming two repositories, whose second enqueue fails once and
      which is delivered again, leaves the first repository's job queued twice. */
  method RedeliveredInstallation(a: string, b: string) returns (q: JobQueue)
    ensures q.jobs == [IndexRepoJob(a), IndexRepoJob(a), IndexRepoJob(b)]
  {
    q := new JobQueue();
    var ops := [IndexRepoJob(a), IndexRepoJob(b)];
    var req := Request(true, Some("d"), "installation", Enqueue(ops));
    var http, ran;
    ghost var s, events;
    assert Known(req.event);
    var never := (k: nat) => false;
    var secondFails, noneFails := Faults(false, never, (k: nat) => k == 1, false), Faults(false, never, never, false);
    assert !OpRaises(ops[0], 0, secondFails) && OpRaises(ops[1], 1, secondFails);
    http, ran, s, events := q.ReceiveWebhook(req, secondFails, 0, START);
    assert ran == 1;
    assert ops[..1] == [IndexRepoJob(a)];
    OnlyThisHandler(|ops|, START, events, 0);
    assert !OpRaises(ops[0], 0, noneFails) && !OpRaises(ops[1], 1, noneFails);
    http, ran, s, events := q.ReceiveWebhook(req, noneFails, 1, s);
    assert ran == 2;
  }
}
