/** The post / queue / resolve protocol of one review: one worker at a time runs
    `run_review` and `aggregate` for the delivery (and may crash and be started
    again), while any number of `approve` and `reject` handlers run. Each store
    or GitHub call is one atomic step; steps of different actors interleave. */
module ReviewProtocol {
  import opened Basics
  import D = Dedup

  datatype Status = Pending | Posted | NeedsHuman | EscalatedToHuman

  datatype RowStatus = Waiting | Resolved | Dismissed

  /** What the stores and GitHub hold about one review. */
  datatype Tables = Tables(
    status: Status,
    githubId: Option<nat>,
    rows: seq<RowStatus>,     // its hitl_reviews rows
    posts: seq<nat>)          // ids of the GitHub reviews posted for it

  // ---- the atomic table operations ---------------------------------------------

  function MarkPosted(t: Tables, id: nat): Tables {
    t.(status := Posted, githubId := Some(id))
  }

  function StatusFor(d: D.Decision): Status {
    match d
    case AutoPost => Posted
    case Queued => NeedsHuman
    case Escalated => EscalatedToHuman
  }

  function SetStatus(t: Tables, status: Status): Tables {
    t.(status := status)
  }

  function Enqueue(t: Tables): Tables {
    t.(rows := t.rows + [Waiting])
  }

  function ResolveRows(rows: seq<RowStatus>, to: RowStatus): (r: seq<RowStatus>)
    ensures to != Waiting ==> Waiting !in r
    ensures Waiting !in rows ==> r == rows
  {
    if rows == [] then []
    else ResolveRows(rows[..|rows| - 1], to) + [if rows[|rows| - 1] == Waiting then to else rows[|rows| - 1]]
  }

  /** The conditional UPDATE: it claims iff some row is still waiting. */
  predicate Claims(t: Tables) {
    Waiting in t.rows
  }

  function Resolve(t: Tables, to: RowStatus): Tables {
    t.(rows := ResolveRows(t.rows, to))
  }

  function Post(t: Tables, id: nat): Tables {
    t.(posts := t.posts + [id])
  }

  // ---- actors --------------------------------------------------------------------

  datatype Worker =
    | Idle                              // no job running, or before the replay guard
    | Reviewing                         // past the replay guard of run_review
    | Checked                           // past the status check of aggregate
    | Saved                             // findings inserted
    | Decided(decision: D.Decision)
    | Delivered(id: nat)                // posted to GitHub, not yet marked
    | Queueing(decision: D.Decision)    // row enqueued, status not yet set

  datatype Handler =
    | Claimed                           // approve: resolve() returned true
    | Loaded                            // approve: review and findings read
    | Sent(id: nat)                     // approve: posted, not yet marked
    | Finished

  datatype State = State(
    tables: Tables,
    worker: Worker,
    handlers: seq<Handler>,             // approve handlers that claimed
    rejects: nat,                       // reject handlers that claimed
    abandoned: nat,                     // approve handlers that died between claim and post
    lapses: nat,                        // worker crashes in one of the two open windows
    handlerCrashes: nat)

  datatype Event =
    | StartJob | CheckReview | SaveFindings | Decide(decision: D.Decision)
    | PostReview(id: nat) | WorkerMarks | EnqueueReview | WorkerSetsStatus | WorkerCrashes
    | Approve | Load(h: nat) | HandlerPosts(h: nat, id: nat) | HandlerMarks(h: nat) | HandlerCrashes(h: nat)
    | Reject

  const START: State :=
    State(Tables(Pending, None, [], []), Idle, [], 0, 0, 0, 0)

  /** One step. An event that is not possible in `s` changes nothing, so every
      sequence of events is an interleaving. */
  function Step(s: State, e: Event): State {
    match e
    case StartJob =>
      if s.worker == Idle && s.tables.status == Pending then s.(worker := Reviewing) else s
    case CheckReview =>
      if s.worker == Reviewing then s.(worker := if s.tables.status == Pending then Checked else Idle) else s
    case SaveFindings =>
      if s.worker == Checked then s.(worker := Saved) else s
    case Decide(d) =>
      if s.worker == Saved then s.(worker := Decided(d)) else s
    case PostReview(id) =>
      if s.worker == Decided(D.AutoPost) then s.(tables := Post(s.tables, id), worker := Delivered(id)) else s
    case WorkerMarks =>
      if s.worker.Delivered? then s.(tables := MarkPosted(s.tables, s.worker.id), worker := Idle) else s
    case EnqueueReview =>
      if s.worker.Decided? && s.worker.decision != D.AutoPost then
        s.(tables := Enqueue(s.tables), worker := Queueing(s.worker.decision))
      else s
    case WorkerSetsStatus =>
      if s.worker.Queueing? then
        s.(tables := SetStatus(s.tables, StatusFor(s.worker.decision)), worker := Idle)
      else s
    case WorkerCrashes =>
      s.(worker := Idle, lapses := s.lapses + if s.worker.Delivered? || s.worker.Queueing? then 1 else 0)
    case Approve =>
      if Claims(s.tables) then
        s.(tables := Resolve(s.tables, Resolved), handlers := s.handlers + [Claimed])
      else s
    case Load(h) =>
      if h < |s.handlers| && s.handlers[h] == Claimed then s.(handlers := s.handlers[h := Loaded]) else s
    case HandlerPosts(h, id) =>
      if h < |s.handlers| && s.handlers[h] == Loaded then
        s.(tables := Post(s.tables, id), handlers := s.handlers[h := Sent(id)])
      else s
    case HandlerMarks(h) =>
      if h < |s.handlers| && s.handlers[h].Sent? then
        s.(tables := MarkPosted(s.tables, s.handlers[h].id), handlers := s.handlers[h := Finished])
      else s
    case HandlerCrashes(h) =>
      if h < |s.handlers| && s.handlers[h] != Finished then
        s.(handlers := s.handlers[h := Finished], handlerCrashes := s.handlerCrashes + 1,
           abandoned := s.abandoned + if s.handlers[h].Sent? then 0 else 1)
      else s
    case Reject =>
      if Claims(s.tables) then s.(tables := Resolve(s.tables, Dismissed), rejects := s.rejects + 1) else s
  }

  function RunFrom(s: State, events: seq<Event>): State {
    if events == [] then s else Step(RunFrom(s, events[..|events| - 1]), events[|events| - 1])
  }

  function Run(events: seq<Event>): State {
    RunFrom(START, events)
  }

  // ---- the invariant -------------------------------------------------------------

  /** Approve handlers that hold the claim and have not posted. */
  function InFlight(handlers: seq<Handler>): nat {
    multiset(handlers)[Claimed] + multiset(handlers)[Loaded]
  }

  function Live(h: Handler): nat {
    if h == Claimed || h == Loaded then 1 else 0
  }

  /** What the review has produced so far, posted or still to be posted by a human's click. */
  function Outcomes(s: State): nat {
    |s.tables.posts| + s.rejects + s.abandoned + InFlight(s.handlers) + if Waiting in s.tables.rows then 1 else 0
  }

  /** 1 while the worker may still post or enqueue. */
  function Turn(s: State): nat {
    match s.worker
    case Idle => if s.tables.status == Pending then 1 else 0
    case Reviewing => if s.tables.status == Pending then 1 else 0
    case Checked => 1
    case Saved => 1
    case Decided(_) => 1
    case Delivered(_) => 0
    case Queueing(_) => 0
  }

  ghost predicate Inv(s: State) {
    && 1 <= Outcomes(s) + Turn(s) <= 1 + s.lapses
    && (s.tables.status != Pending || Turn(s) == 0 ==> Outcomes(s) >= 1)
    && (forall h :: 0 <= h < |s.handlers| && s.handlers[h].Sent? ==> s.handlers[h].id in s.tables.posts)
    && (s.worker.Delivered? ==> s.worker.id in s.tables.posts)
    && (s.worker.Queueing? ==> s.worker.decision != D.AutoPost)
  }

  lemma HandlerMoves(handlers: seq<Handler>, h: nat, to: Handler)
    requires h < |handlers|
    ensures InFlight(handlers[h := to]) == InFlight(handlers) - Live(handlers[h]) + Live(to)
  {
    assert multiset(handlers[h := to]) == multiset(handlers) - multiset{handlers[h]} + multiset{to};
    assert handlers[h] in multiset(handlers);
  }

  lemma InvWorkerReads(s: State, e: Event)
    requires Inv(s) && (e.StartJob? || e.CheckReview? || e.SaveFindings? || e.Decide? || e.WorkerCrashes?)
    ensures Inv(Step(s, e))
  {
  }

  lemma InvWorkerWrites(s: State, e: Event)
    requires Inv(s) && (e.PostReview? || e.WorkerMarks? || e.EnqueueReview? || e.WorkerSetsStatus?)
    ensures Inv(Step(s, e))
  {
    if e.PostReview? {
      assert forall id :: id in s.tables.posts ==> id in Post(s.tables, e.id).posts;
    }
  }

  lemma InvResolve(s: State, e: Event)
    requires Inv(s) && (e.Approve? || e.Reject?)
    ensures Inv(Step(s, e))
  {
    assert InFlight(s.handlers + [Claimed]) == InFlight(s.handlers) + 1;
  }

  lemma InvHandlerPosts(s: State, e: Event)
    requires Inv(s) && e.HandlerPosts?
    ensures Inv(Step(s, e))
  {
    if e.h < |s.handlers| {
      HandlerMoves(s.handlers, e.h, Sent(e.id));
      assert forall id :: id in s.tables.posts ==> id in Post(s.tables, e.id).posts;
    }
  }

  lemma InvLoad(s: State, e: Event)
    requires Inv(s) && e.Load?
    ensures Inv(Step(s, e))
  {
    if e.h < |s.handlers| {
      HandlerMoves(s.handlers, e.h, Loaded);
    }
  }

  lemma InvHandlerMarks(s: State, e: Event)
    requires Inv(s) && e.HandlerMarks?
    ensures Inv(Step(s, e))
  {
    if e.h < |s.handlers| {
      HandlerMoves(s.handlers, e.h, Finished);
    }
  }

  lemma InvHandlerCrashes(s: State, e: Event)
    requires Inv(s) && e.HandlerCrashes?
    ensures Inv(Step(s, e))
  {
    if e.h < |s.handlers| {
      HandlerMoves(s.handlers, e.h, Finished);
    }
  }

  lemma InvStep(s: State, e: Event)
    requires Inv(s)
    ensures Inv(Step(s, e))
  {
    if e.StartJob? || e.CheckReview? || e.SaveFindings? || e.Decide? || e.WorkerCrashes? {
      InvWorkerReads(s, e);
    } else if e.PostReview? || e.WorkerMarks? || e.EnqueueReview? || e.WorkerSetsStatus? {
      InvWorkerWrites(s, e);
    } else if e.Approve? || e.Reject? {
      InvResolve(s, e);
    } else if e.HandlerPosts? {
      InvHandlerPosts(s, e);
    } else if e.Load? {
      InvLoad(s, e);
    } else if e.HandlerMarks? {
      InvHandlerMarks(s, e);
    } else {
      InvHandlerCrashes(s, e);
    }
  }

  lemma {:induction false} InvRun(events: seq<Event>)
    ensures Inv(Run(events))
  {
    if events != [] {
      InvRun(events[..|events| - 1]);
      InvStep(Run(events[..|events| - 1]), events[|events| - 1]);
    }
  }

  /** Event `k` is a worker crash between a post and its mark, or between a queued
      row and the status that goes with it. */
  ghost predicate LapseAt(events: seq<Event>, k: nat) {
    && k < |events| && events[k] == WorkerCrashes
    && (Run(events[..k]).worker.Delivered? || Run(events[..k]).worker.Queueing?)
  }

  ghost function LapsesIn(events: seq<Event>): set<nat> {
    set k: nat | k < |events| && LapseAt(events, k)
  }

  lemma RunLast(events: seq<Event>)
    requires events != []
    ensures Run(events) == Step(Run(events[..|events| - 1]), events[|events| - 1])
  {
  }

  lemma StepLapses(s: State, e: Event)
    ensures Step(s, e).lapses ==
            s.lapses + if e == WorkerCrashes && (s.worker.Delivered? || s.worker.Queueing?) then 1 else 0
  {
  }

  lemma LapsesSnoc(events: seq<Event>, n: nat)
    requires |events| == n + 1
    ensures n !in LapsesIn(events[..n])
    ensures LapsesIn(events) == LapsesIn(events[..n]) + if LapseAt(events, n) then {n} else {}
  {
    hide Run;
    forall k: nat | k < n ensures LapseAt(events, k) <==> LapseAt(events[..n], k) {
      assert events[..n][..k] == events[..k];
    }
  }

  /** The bound below counts nothing but such crashes. */
  lemma {:induction false} LapsesAreCounted(events: seq<Event>)
    ensures Run(events).lapses == |LapsesIn(events)|
  {
    if events != [] {
      hide Step, RunFrom, LapsesIn;
      var n := |events| - 1;
      LapsesAreCounted(events[..n]);
      RunLast(events);
      StepLapses(Run(events[..n]), events[n]);
      LapsesSnoc(events, n);
      OneMoreMember(LapsesIn(events[..n]), LapsesIn(events), n, LapseAt(events, n));
    }
  }

  // ---- safety over every interleaving ----------------------------------------------

  /** A review is never posted more often than once plus the number of worker
      crashes in an open window; every reject and every abandoned approval
      takes one from the same budget. */
  lemma PostsAreBounded(events: seq<Event>)
    ensures var s := Run(events);
      |s.tables.posts| + s.rejects + s.abandoned + InFlight(s.handlers) <= 1 + s.lapses
  {
    InvRun(events);
  }

  /** Conservation: with no crash in an open window there is at every moment
      exactly one of: a post, a reject, an approval under way or abandoned, a
      row waiting for a human, a worker that is still to post or enqueue or, for
      a pending review, may yet be started to do so. */
  lemma ExactlyOneOutcome(events: seq<Event>)
    requires Run(events).lapses == 0
    ensures Outcomes(Run(events)) + Turn(Run(events)) == 1
  {
    InvRun(events);
  }

  /** Once its status has left `pending` a review was posted or rejected, or
      waits for a human, or a human's approval has claimed it, unless an approval
      died between its claim and its post. */
  lemma KeptUnlessAbandoned(events: seq<Event>)
    requires Run(events).tables.status != Pending && Run(events).abandoned == 0
    ensures var s := Run(events);
      || s.tables.posts != [] || s.rejects > 0 || Waiting in s.tables.rows || InFlight(s.handlers) > 0
  {
    InvRun(events);
  }

  /** Nothing was posted or rejected, and no human and no worker can change that. */
  predicate Lost(s: State) {
    && s.tables.posts == [] && s.rejects == 0 && Waiting !in s.tables.rows && InFlight(s.handlers) == 0
    && Turn(s) == 0
  }

  /** In every run, crashes anywhere, only an abandoned approval loses a review. */
  lemma LostNeedsAbandoned(events: seq<Event>)
    requires Lost(Run(events))
    ensures Run(events).abandoned > 0
  {
    InvRun(events);
  }

  /** Without a crash in an open window a review is lost if and only if an
      approval died between its claim and its post: the claim is not given back,
      and every later approve or reject finds nothing to claim. */
  lemma LostIffAbandoned(events: seq<Event>)
    requires Run(events).lapses == 0
    ensures Lost(Run(events)) <==> Run(events).abandoned == 1
    ensures Run(events).abandoned <= 1
  {
    InvRun(events);
  }

  lemma {:induction false} AbandonedGrow(s: State, events: seq<Event>)
    ensures RunFrom(s, events).abandoned >= s.abandoned
  {
    if events != [] {
      AbandonedGrow(s, events[..|events| - 1]);
    }
  }

  /** A lost review stays lost, whatever humans, workers and redeliveries do. */
  lemma AbandonedStaysLost(before: seq<Event>, after: seq<Event>)
    requires Run(before).abandoned > 0 && Run(before + after).lapses == 0
    ensures Lost(Run(before + after))
  {
    RunFromAppend(START, before, after);
    AbandonedGrow(Run(before), after);
    LostIffAbandoned(before + after);
  }

  lemma {:induction false} RejectsGrow(s: State, events: seq<Event>)
    ensures RunFrom(s, events).rejects >= s.rejects
  {
    if events != [] {
      RejectsGrow(s, events[..|events| - 1]);
    }
  }

  lemma {:induction false} RunFromAppend(s: State, a: seq<Event>, b: seq<Event>)
    ensures RunFrom(s, a + b) == RunFrom(RunFrom(s, a), b)
  {
    if b == [] {
      assert a + b == a;
    } else {
      assert (a + b)[..|a + b| - 1] == a + b[..|b| - 1];
      RunFromAppend(s, a, b[..|b| - 1]);
    }
  }

  lemma RunSnoc(s: State, events: seq<Event>, e: Event)
    ensures RunFrom(s, events + [e]) == Step(RunFrom(s, events), e)
  {
    assert (events + [e])[..|events|] == events;
  }

  /** A reject that claimed is final: without a crash in an open window the
      review is never posted, before or after. */
  lemma RejectIsFinal(before: seq<Event>, after: seq<Event>)
    requires Run(before).rejects > 0 && Run(before + after).lapses == 0
    ensures Run(before + after).tables.posts == []
  {
    RunFromAppend(START, before, after);
    RejectsGrow(Run(before), after);
    PostsAreBounded(before + after);
  }

  // ---- short runs ---------------------------------------------------------------------

  lemma OneStep(s: State, e: Event)
    ensures RunFrom(s, [e]) == Step(s, e)
  {
    assert [e][..0] == [];
    assert RunFrom(s, []) == s;
  }

  lemma TwoSteps(s: State, a: Event, b: Event)
    ensures RunFrom(s, [a, b]) == Step(Step(s, a), b)
  {
    OneStep(s, a);
    RunSnoc(s, [a], b);
    assert [a] + [b] == [a, b];
  }

  /** What the handler that claimed last does. */
  lemma LastHandlerSteps(s: State, others: seq<Handler>, last: Handler, id: nat)
    requires s.handlers == others + [last]
    ensures last == Claimed ==> Step(s, Load(|others|)) == s.(handlers := others + [Loaded])
    ensures last == Loaded ==>
              Step(s, HandlerPosts(|others|, id)) == s.(handlers := others + [Sent(id)], tables := Post(s.tables, id))
    ensures last == Sent(id) ==>
              Step(s, HandlerMarks(|others|)) == s.(handlers := others + [Finished], tables := MarkPosted(s.tables, id))
    ensures last == Claimed ==>
              Step(s, HandlerCrashes(|others|)) == s.(handlers := others + [Finished],
                                                      handlerCrashes := s.handlerCrashes + 1, abandoned := s.abandoned + 1)
  {
    assert forall to: Handler :: s.handlers[|others| := to] == others + [to];
  }

  /** An approval that nothing interrupts. */
  function ApproveEvents(h: nat, id: nat): seq<Event> {
    [Approve, Load(h), HandlerPosts(h, id), HandlerMarks(h)]
  }

  lemma ApproveRuns(s: State, id: nat)
    requires Claims(s.tables)
    ensures RunFrom(s, ApproveEvents(|s.handlers|, id)) ==
            s.(handlers := s.handlers + [Finished],
               tables := MarkPosted(Post(Resolve(s.tables, Resolved), id), id))
  {
    var h := |s.handlers|;
    var s1 := s.(handlers := s.handlers + [Claimed], tables := Resolve(s.tables, Resolved));
    LastHandlerSteps(s1, s.handlers, Claimed, id);
    TwoSteps(s, Approve, Load(h));
    var s2 := s1.(handlers := s.handlers + [Loaded]);
    LastHandlerSteps(s2, s.handlers, Loaded, id);
    var s3 := s2.(handlers := s.handlers + [Sent(id)], tables := Post(s2.tables, id));
    LastHandlerSteps(s3, s.handlers, Sent(id), id);
    TwoSteps(s2, HandlerPosts(h, id), HandlerMarks(h));
    RunFromAppend(s, [Approve, Load(h)], [HandlerPosts(h, id), HandlerMarks(h)]);
    assert [Approve, Load(h)] + [HandlerPosts(h, id), HandlerMarks(h)] == ApproveEvents(h, id);
  }

  /** An approval that fails between its claim and its post. */
  lemma AbandonedRuns(s: State)
    requires Claims(s.tables)
    ensures RunFrom(s, [Approve, HandlerCrashes(|s.handlers|)]) ==
            s.(handlers := s.handlers + [Finished], tables := Resolve(s.tables, Resolved),
               handlerCrashes := s.handlerCrashes + 1, abandoned := s.abandoned + 1)
  {
    LastHandlerSteps(Step(s, Approve), s.handlers, Claimed, 0);
    TwoSteps(s, Approve, HandlerCrashes(|s.handlers|));
  }

  // ---- the bound is reached ---------------------------------------------------------

  const DELIVER: seq<Event> := [StartJob, CheckReview, SaveFindings, Decide(D.AutoPost), PostReview(0)]

  function CrashAfterPost(n: nat): seq<Event> {
    if n == 0 then [] else CrashAfterPost(n - 1) + (DELIVER + [WorkerCrashes])
  }

  function Zeros(n: nat): seq<nat> {
    if n == 0 then [] else Zeros(n - 1) + [0]
  }

  const UP_TO_SAVED: seq<Event> := [StartJob, CheckReview, SaveFindings]

  lemma SavedRuns(s: State)
    requires s.worker == Idle && s.tables.status == Pending
    ensures RunFrom(s, UP_TO_SAVED) == s.(worker := Saved)
  {
    TwoSteps(s, StartJob, CheckReview);
    RunSnoc(s, [StartJob, CheckReview], SaveFindings);
    assert [StartJob, CheckReview] + [SaveFindings] == UP_TO_SAVED;
  }

  lemma PostingRuns(s: State, id: nat)
    requires s.worker == Saved
    ensures RunFrom(s, [Decide(D.AutoPost), PostReview(id)]) == s.(worker := Delivered(id), tables := Post(s.tables, id))
  {
    TwoSteps(s, Decide(D.AutoPost), PostReview(id));
  }

  lemma DeliverRuns(s: State)
    requires s.worker == Idle && s.tables.status == Pending
    ensures RunFrom(s, DELIVER) == s.(worker := Delivered(0), tables := Post(s.tables, 0))
  {
    SavedRuns(s);
    PostingRuns(s.(worker := Saved), 0);
    RunFromAppend(s, UP_TO_SAVED, [Decide(D.AutoPost), PostReview(0)]);
    assert UP_TO_SAVED + [Decide(D.AutoPost), PostReview(0)] == DELIVER;
  }

  lemma {:induction false} CrashAfterPostRuns(n: nat)
    ensures Run(CrashAfterPost(n)) == START.(tables := START.tables.(posts := Zeros(n)), lapses := n)
  {
    if n > 0 {
      CrashAfterPostRuns(n - 1);
      var s := Run(CrashAfterPost(n - 1));
      DeliverRuns(s);
      RunFromAppend(s, DELIVER, [WorkerCrashes]);
      assert [WorkerCrashes][..0] == [];
      RunFromAppend(START, CrashAfterPost(n - 1), DELIVER + [WorkerCrashes]);
    }
  }

  lemma {:induction false} ZerosLength(n: nat)
    ensures |Zeros(n)| == n
  {
    if n > 0 {
      ZerosLength(n - 1);
    }
  }

  /** The bound cannot be improved: for every n some run with n crashes between
      post and `mark_posted` posts n + 1 times. */
  lemma BoundIsReached(n: nat) returns (events: seq<Event>)
    ensures Run(events).lapses == n && |Run(events).tables.posts| == n + 1
  {
    events := CrashAfterPost(n) + DELIVER;
    CrashAfterPostRuns(n);
    ZerosLength(n);
    RunFromAppend(START, CrashAfterPost(n), DELIVER);
    DeliverRuns(Run(CrashAfterPost(n)));
  }

  // ---- what the row finally says -----------------------------------------------------

  /** A handler marks the review while the worker is between `enqueue` and `set_status`. */
  predicate MarksEarly(s: State, e: Event) {
    e.HandlerMarks? && e.h < |s.handlers| && s.handlers[e.h].Sent? && s.worker.Queueing?
  }

  /** Such a mark occurs in the run. */
  predicate MarkedEarly(events: seq<Event>) {
    events != []
    && (MarkedEarly(events[..|events| - 1]) || MarksEarly(Run(events[..|events| - 1]), events[|events| - 1]))
  }

  ghost predicate MarkedAt(events: seq<Event>, k: int) {
    0 <= k < |events| && MarksEarly(Run(events[..k]), events[k])
  }

  lemma MarkedAtPrefix(events: seq<Event>, k: int)
    requires events != [] && k < |events| - 1
    ensures MarkedAt(events, k) <==> MarkedAt(events[..|events| - 1], k)
  {
    if k >= 0 {
      assert events[..|events| - 1][..k] == events[..k];
    }
  }

  lemma {:induction false} MarkedEarlyIff(events: seq<Event>)
    ensures MarkedEarly(events) <==> exists k :: MarkedAt(events, k)
  {
    if events != [] {
      var n := |events| - 1;
      MarkedEarlyIff(events[..n]);
      if MarkedEarly(events[..n]) {
        var k :| MarkedAt(events[..n], k);
        MarkedAtPrefix(events, k);
      } else if k :| MarkedAt(events, k) {
        if k < n {
          MarkedAtPrefix(events, k);
        }
      }
      assert MarksEarly(Run(events[..n]), events[n]) ==> MarkedAt(events, n);
    }
  }

  function Unmarked(s: State, id: nat): nat {
    multiset(s.handlers)[Sent(id)] + if s.worker == Delivered(id) then 1 else 0
  }

  predicate NobodySent(handlers: seq<Handler>) {
    forall h :: 0 <= h < |handlers| ==> !handlers[h].Sent?
  }

  /** Nothing posted yet; every approval that died had not posted. */
  ghost predicate RecordedNone(s: State, early: bool) {
    && s.tables.githubId == None && s.tables.status != Posted && !early && !s.worker.Delivered?
    && NobodySent(s.handlers) && s.handlerCrashes == s.abandoned
  }

  /** Posted once, as `id`, and no approval died. */
  ghost predicate RecordedOne(s: State, early: bool, id: nat) {
    && |s.tables.posts| == 1 && Unmarked(s, id) <= 1 && s.handlerCrashes == 0
    && (forall h :: 0 <= h < |s.handlers| && s.handlers[h].Sent? ==> s.handlers[h].id == id)
    && (s.worker.Delivered? ==> s.worker.id == id)
    && (Unmarked(s, id) == 1 ==> s.tables.githubId == None && s.tables.status != Posted && !early)
    && (Unmarked(s, id) == 0 ==>
          && s.tables.githubId == Some(id)
          && (s.worker.Queueing? ==> early)
          && (s.tables.status == Posted <==> (early ==> s.worker.Queueing?)))
  }

  /** Posted once by an approval that died before its mark. */
  ghost predicate Unrecorded(s: State, early: bool) {
    && |s.tables.posts| == 1 && s.handlerCrashes == 1 && !early
    && s.tables.githubId == None && s.tables.status != Posted && !s.worker.Delivered? && NobodySent(s.handlers)
  }

  ghost predicate Recorded(s: State, early: bool) {
    s.lapses == 0 ==>
      if s.tables.posts == [] then RecordedNone(s, early)
      else RecordedOne(s, early, s.tables.posts[0]) || Unrecorded(s, early)
  }

  lemma SentMoves(handlers: seq<Handler>, h: nat, to: Handler, id: nat)
    requires h < |handlers|
    ensures multiset(handlers[h := to])[Sent(id)] ==
            multiset(handlers)[Sent(id)] - (if handlers[h] == Sent(id) then 1 else 0) + (if to == Sent(id) then 1 else 0)
  {
    assert multiset(handlers[h := to]) == multiset(handlers) - multiset{handlers[h]} + multiset{to};
    assert handlers[h] in multiset(handlers);
  }

  lemma NoneSent(handlers: seq<Handler>, id: nat)
    requires NobodySent(handlers)
    ensures multiset(handlers)[Sent(id)] == 0
  {
    assert Sent(id) !in handlers;
  }

  lemma RecordedWorker(s: State, e: Event, early: bool)
    requires Inv(s) && Inv(Step(s, e)) && Recorded(s, early)
    requires e.StartJob? || e.CheckReview? || e.SaveFindings? || e.Decide? || e.WorkerCrashes?
             || e.WorkerMarks? || e.EnqueueReview? || e.WorkerSetsStatus?
    ensures Recorded(Step(s, e), early)
  {
  }

  lemma RecordedWorkerPosts(s: State, e: Event, early: bool)
    requires Inv(s) && Inv(Step(s, e)) && Recorded(s, early) && e.PostReview?
    ensures Recorded(Step(s, e), early)
  {
    if s.lapses == 0 && s.worker == Decided(D.AutoPost) {
      NoneSent(s.handlers, e.id);
    }
  }

  lemma RecordedResolve(s: State, e: Event, early: bool)
    requires Inv(s) && Inv(Step(s, e)) && Recorded(s, early) && (e.Approve? || e.Reject?)
    ensures Recorded(Step(s, e), early)
  {
    if s.tables.posts != [] {
      assert multiset(s.handlers + [Claimed])[Sent(s.tables.posts[0])] == multiset(s.handlers)[Sent(s.tables.posts[0])];
    }
  }

  lemma RecordedLoad(s: State, e: Event, early: bool)
    requires Inv(s) && Inv(Step(s, e)) && Recorded(s, early) && e.Load?
    ensures Recorded(Step(s, e), early)
  {
    if e.h < |s.handlers| && s.tables.posts != [] {
      SentMoves(s.handlers, e.h, Loaded, s.tables.posts[0]);
    }
  }

  lemma RecordedHandlerPosts(s: State, e: Event, early: bool)
    requires Inv(s) && Inv(Step(s, e)) && Recorded(s, early) && e.HandlerPosts?
    ensures Recorded(Step(s, e), early)
  {
    if s.lapses == 0 && e.h < |s.handlers| && s.handlers[e.h] == Loaded {
      SentMoves(s.handlers, e.h, Sent(e.id), e.id);
      HandlerMoves(s.handlers, e.h, Sent(e.id));
      if s.tables.posts == [] {
        NoneSent(s.handlers, e.id);
      }
    }
  }

  lemma RecordedHandlerMarks(s: State, e: Event, early: bool)
    requires Inv(s) && Inv(Step(s, e)) && Recorded(s, early) && e.HandlerMarks?
    ensures Recorded(Step(s, e), early || MarksEarly(s, e))
  {
    if s.lapses == 0 && e.h < |s.handlers| && s.handlers[e.h].Sent? {
      SentMoves(s.handlers, e.h, Finished, s.handlers[e.h].id);
    }
  }

  lemma LiveIsInFlight(handlers: seq<Handler>, h: nat)
    requires h < |handlers| && Live(handlers[h]) == 1
    ensures InFlight(handlers) >= 1
  {
    assert handlers[h] in multiset(handlers);
  }

  lemma NobodySentAfter(handlers: seq<Handler>, h: nat, id: nat)
    requires h < |handlers| && handlers[h] == Sent(id) && multiset(handlers)[Sent(id)] <= 1
    requires forall k :: 0 <= k < |handlers| && handlers[k].Sent? ==> handlers[k].id == id
    ensures NobodySent(handlers[h := Finished])
  {
    SentMoves(handlers, h, Finished, id);
    var after := handlers[h := Finished];
    forall k | 0 <= k < |after| ensures !after[k].Sent? {
      assert after[k] in multiset(after);
      assert k != h ==> after[k] == handlers[k];
    }
  }

  lemma RecordedHandlerCrashes(s: State, e: Event, early: bool)
    requires Inv(s) && Inv(Step(s, e)) && Recorded(s, early) && e.HandlerCrashes?
    ensures Recorded(Step(s, e), early)
  {
    if s.lapses == 0 && e.h < |s.handlers| && s.handlers[e.h] != Finished {
      if s.handlers[e.h].Sent? {
        NobodySentAfter(s.handlers, e.h, s.tables.posts[0]);
      } else {
        LiveIsInFlight(s.handlers, e.h);
      }
    }
  }

  lemma RecordedStep(s: State, e: Event, early: bool)
    requires Inv(s) && Inv(Step(s, e)) && Recorded(s, early)
    ensures Recorded(Step(s, e), early || MarksEarly(s, e))
  {
    if e.PostReview? {
      RecordedWorkerPosts(s, e, early);
    } else if e.Approve? || e.Reject? {
      RecordedResolve(s, e, early);
    } else if e.Load? {
      RecordedLoad(s, e, early);
    } else if e.HandlerPosts? {
      RecordedHandlerPosts(s, e, early);
    } else if e.HandlerMarks? {
      RecordedHandlerMarks(s, e, early);
    } else if e.HandlerCrashes? {
      RecordedHandlerCrashes(s, e, early);
    } else {
      RecordedWorker(s, e, early);
    }
  }

  lemma {:induction false} RecordedRun(events: seq<Event>)
    ensures Recorded(Run(events), MarkedEarly(events))
  {
    InvRun(events);
    if events != [] {
      var before := events[..|events| - 1];
      RecordedRun(before);
      InvRun(before);
      RecordedStep(Run(before), events[|events| - 1], MarkedEarly(before));
    }
  }

  /** The row of a posted review, in a run without a worker crash in an open
      window and once nobody is between post and mark. The GitHub id is on record
      if and only if no handler died; the only way one can have is between its
      post and its mark. The status reads `posted` if and only if, besides, no
      human's mark fell between the worker's `enqueue` and its `set_status`, or
      the worker has yet to get past the latter. */
  lemma PostedIsOnRecordIff(events: seq<Event>)
    requires var s := Run(events);
      s.lapses == 0 && s.tables.posts != [] && !s.worker.Delivered? && NobodySent(s.handlers)
    ensures var s := Run(events);
      && |s.tables.posts| == 1 && s.abandoned == 0
      && (s.tables.githubId == if s.handlerCrashes == 0 then Some(s.tables.posts[0]) else None)
      && (s.tables.status == Posted <==>
            s.handlerCrashes == 0 && (s.worker.Queueing? || !exists k :: MarkedAt(events, k)))
  {
    InvRun(events);
    RecordedRun(events);
    MarkedEarlyIff(events);
    NoneSent(Run(events).handlers, Run(events).tables.posts[0]);
  }

  lemma {:induction false} CrashesAndPostsGrow(s: State, events: seq<Event>)
    ensures RunFrom(s, events).handlerCrashes >= s.handlerCrashes
    ensures |RunFrom(s, events).tables.posts| >= |s.tables.posts|
  {
    if events != [] {
      CrashesAndPostsGrow(s, events[..|events| - 1]);
    }
  }

  /** A post that its handler died before recording stays unrecorded: nothing is
      left to claim, so no later event marks the row. */
  lemma UnrecordedForGood(before: seq<Event>, after: seq<Event>)
    requires Run(before).tables.posts != [] && Run(before).handlerCrashes > 0 && Run(before + after).lapses == 0
    ensures var t := Run(before + after).tables;
      |t.posts| == 1 && t.githubId == None && t.status != Posted && Waiting !in t.rows
  {
    RunFromAppend(START, before, after);
    CrashesAndPostsGrow(Run(before), after);
    RecordedRun(before + after);
    InvRun(before + after);
  }

  // ---- and in every run --------------------------------------------------------------------

  /** `mark_posted` takes effect. */
  predicate Marks(s: State, e: Event) {
    || (e.WorkerMarks? && s.worker.Delivered?)
    || (e.HandlerMarks? && e.h < |s.handlers| && s.handlers[e.h].Sent?)
  }

  /** `set_status` takes effect. */
  predicate SetsStatus(s: State, e: Event) {
    e.WorkerSetsStatus? && s.worker.Queueing?
  }

  ghost predicate MarkAt(events: seq<Event>, k: int) {
    0 <= k < |events| && Marks(Run(events[..k]), events[k])
  }

  ghost predicate StatusAt(events: seq<Event>, k: int) {
    0 <= k < |events| && SetsStatus(Run(events[..k]), events[k])
  }

  /** A mark that no later `set_status` overwrote. */
  ghost predicate StandingMark(events: seq<Event>, k: int) {
    MarkAt(events, k) && forall j :: k < j ==> !StatusAt(events, j)
  }

  lemma AtPrefix(events: seq<Event>, k: int)
    requires events != [] && k < |events| - 1
    ensures MarkAt(events, k) <==> MarkAt(events[..|events| - 1], k)
    ensures StatusAt(events, k) <==> StatusAt(events[..|events| - 1], k)
  {
    if k >= 0 {
      assert events[..|events| - 1][..k] == events[..k];
    }
  }

  lemma RowStep(s: State, e: Event)
    requires Inv(s)
    ensures Marks(s, e) ==> Step(s, e).tables.githubId.Some? && Step(s, e).tables.status == Posted
    ensures SetsStatus(s, e) ==> Step(s, e).tables.githubId == s.tables.githubId && Step(s, e).tables.status != Posted
    ensures !Marks(s, e) && !SetsStatus(s, e) ==>
              Step(s, e).tables.githubId == s.tables.githubId && Step(s, e).tables.status == s.tables.status
  {
  }

  lemma StandingMarkPrefix(events: seq<Event>, k: int)
    requires events != [] && k < |events| - 1
    ensures StandingMark(events, k) <==>
            StandingMark(events[..|events| - 1], k) && !StatusAt(events, |events| - 1)
  {
    var n := |events| - 1;
    AtPrefix(events, k);
    forall j | k < j < n ensures StatusAt(events, j) <==> StatusAt(events[..n], j) {
      AtPrefix(events, j);
    }
  }

  /** What the last event adds. */
  lemma RowAfterLast(events: seq<Event>)
    requires events != []
    ensures var n := |events| - 1;
      var before, after := Run(events[..n]).tables, Run(events).tables;
      && (MarkAt(events, n) ==> after.githubId.Some? && after.status == Posted)
      && (StatusAt(events, n) ==> after.githubId == before.githubId && after.status != Posted)
      && (!MarkAt(events, n) && !StatusAt(events, n) ==>
            after.githubId == before.githubId && after.status == before.status)
      && !(MarkAt(events, n) && StatusAt(events, n))
  {
    var front := events[..|events| - 1];
    InvRun(front);
    RowStep(Run(front), events[|events| - 1]);
  }

  lemma {:induction false} IdIffMarked(events: seq<Event>)
    ensures Run(events).tables.githubId.Some? <==> exists k :: MarkAt(events, k)
  {
    hide Step, Marks, SetsStatus;
    if events != [] {
      var n := |events| - 1;
      IdIffMarked(events[..n]);
      RowAfterLast(events);
      forall k | k < n ensures MarkAt(events, k) <==> MarkAt(events[..n], k) {
        AtPrefix(events, k);
      }
    }
  }

  lemma {:induction false} StatusIffMarkStands(events: seq<Event>)
    ensures Run(events).tables.status == Posted <==> exists k :: StandingMark(events, k)
  {
    hide Step, Marks, SetsStatus;
    if events != [] {
      var n := |events| - 1;
      StatusIffMarkStands(events[..n]);
      RowAfterLast(events);
      forall k | k < n
        ensures StandingMark(events, k) <==> StandingMark(events[..n], k) && !StatusAt(events, n)
      {
        StandingMarkPrefix(events, k);
      }
      assert MarkAt(events, n) ==> StandingMark(events, n);
    }
  }

  /** Whatever crashes, redeliveries and humans did: the GitHub id is on record if
      and only if some `mark_posted` ran, and the status reads `posted` if and only
      if one ran that no later `set_status` overwrote. */
  lemma RecordIff(events: seq<Event>)
    ensures Run(events).tables.githubId.Some? <==> exists k :: MarkAt(events, k)
    ensures Run(events).tables.status == Posted <==> exists k :: StandingMark(events, k)
  {
    IdIffMarked(events);
    StatusIffMarkStands(events);
  }

  // ---- a human between enqueue and set_status -------------------------------------------

  const UP_TO_ENQUEUE: seq<Event> := [StartJob, CheckReview, SaveFindings, Decide(D.Queued), EnqueueReview]

  lemma QueueingRuns(s: State)
    requires s.worker == Saved
    ensures RunFrom(s, [Decide(D.Queued), EnqueueReview]) == s.(worker := Queueing(D.Queued), tables := Enqueue(s.tables))
  {
    TwoSteps(s, Decide(D.Queued), EnqueueReview);
  }

  lemma QueuedRun()
    ensures Run(UP_TO_ENQUEUE) == START.(worker := Queueing(D.Queued), tables := Enqueue(START.tables))
  {
    SavedRuns(START);
    QueueingRuns(START.(worker := Saved));
    RunFromAppend(START, UP_TO_SAVED, [Decide(D.Queued), EnqueueReview]);
    assert UP_TO_SAVED + [Decide(D.Queued), EnqueueReview] == UP_TO_ENQUEUE;
  }

  lemma LoneRowResolved()
    ensures ResolveRows([Waiting], Resolved) == [Resolved]
  {
    assert [Waiting][..0] == [];
  }

  lemma ThenOne(a: seq<Event>, b: seq<Event>, e: Event)
    ensures Run((a + b) + [e]) == Step(RunFrom(Run(a), b), e)
  {
    RunFromAppend(START, a, b);
    RunSnoc(START, a + b, e);
  }

  lemma OneThen(a: seq<Event>, e: Event, b: seq<Event>)
    ensures Run((a + [e]) + b) == RunFrom(Step(Run(a), e), b)
  {
    RunSnoc(START, a, e);
    RunFromAppend(START, a + [e], b);
  }

  lemma HumanBeforeStatus(s: State)
    requires s.handlers == [] && s.tables.rows == [Waiting] && s.tables.posts == []
    ensures RunFrom(s, ApproveEvents(0, 7)) ==
            s.(handlers := [Finished], tables := Tables(Posted, Some(7), [Resolved], [7]))
  {
    LoneRowResolved();
    ApproveRuns(s, 7);
    assert s.handlers + [Finished] == [Finished] && s.tables.posts + [7] == [7];
  }

  lemma StatusAfterHuman(t: State)
    requires t.worker == Queueing(D.Queued)
    ensures Step(t, WorkerSetsStatus) == t.(worker := Idle, tables := SetStatus(t.tables, NeedsHuman))
  {
  }

  /** The overwrite does happen: a human approves between `enqueue` and
      `set_status`; the review is posted and its row says `needs_human`. */
  lemma SetStatusCanHidePost() returns (events: seq<Event>)
    ensures var s := Run(events);
      && s.lapses == 0 && s.handlerCrashes == 0 && s.worker == Idle && s.handlers == [Finished]
      && s.tables.posts == [7] && s.tables.status == NeedsHuman
  {
    var queue, human := UP_TO_ENQUEUE, ApproveEvents(0, 7);
    QueuedRun();
    HumanBeforeStatus(Run(queue));
    StatusAfterHuman(RunFrom(Run(queue), human));
    ThenOne(queue, human, WorkerSetsStatus);
    events := (queue + human) + [WorkerSetsStatus];
  }

  lemma AbandonedAfterStatus(s: State, human: seq<Event>)
    requires s == START.(tables := SetStatus(Enqueue(START.tables), NeedsHuman)) && human == [Approve, HandlerCrashes(0)]
    ensures RunFrom(s, human) ==
            s.(handlers := [Finished], tables := Resolve(s.tables, Resolved), handlerCrashes := 1, abandoned := 1)
  {
    AbandonedRuns(s);
  }

  /** The loss does happen: the review is queued, a human approves, and the
      handler fails before it has posted. */
  lemma ReviewCanBeLost() returns (events: seq<Event>)
    ensures var s := Run(events);
      s.lapses == 0 && s.worker == Idle && s.handlers == [Finished] && s.tables.status == NeedsHuman && Lost(s)
  {
    var queue, human := UP_TO_ENQUEUE, [Approve, HandlerCrashes(0)];
    QueuedRun();
    StatusAfterHuman(Run(queue));
    AbandonedAfterStatus(Step(Run(queue), WorkerSetsStatus), human);
    OneThen(queue, WorkerSetsStatus, human);
    events := (queue + [WorkerSetsStatus]) + human;
    LostIffAbandoned(events);
  }

  lemma LoadedRuns(s: State)
    requires s.handlers == [] && s.tables.rows == [Waiting]
    ensures RunFrom(s, [Approve, Load(0)]) == s.(handlers := [Loaded], tables := s.tables.(rows := [Resolved]))
  {
    LoneRowResolved();
    var none: seq<Handler> := [];
    LastHandlerSteps(Step(s, Approve), none, Claimed, 7);
    TwoSteps(s, Approve, Load(0));
    assert none + [Loaded] == [Loaded];
  }

  lemma PostedAndGone(s: State)
    requires s.handlers == [Loaded] && s.tables.posts == []
    ensures RunFrom(s, [HandlerPosts(0, 7), HandlerCrashes(0)]) ==
            s.(handlers := [Finished], tables := s.tables.(posts := [7]), handlerCrashes := s.handlerCrashes + 1)
  {
    var none: seq<Handler> := [];
    hide Step;
    assert s.handlers == none + [Loaded] && none + [Sent(7)] == [Sent(7)];
    LastHandlerSteps(s, none, Loaded, 7);
    var sent := s.(handlers := [Sent(7)], tables := Post(s.tables, 7));
    SentDies(sent);
    TwoSteps(s, HandlerPosts(0, 7), HandlerCrashes(0));
    assert s.tables.posts + [7] == [7];
  }

  lemma SentDies(s: State)
    requires s.handlers == [Sent(7)]
    ensures Step(s, HandlerCrashes(0)) == s.(handlers := [Finished], handlerCrashes := s.handlerCrashes + 1)
  {
    assert [Sent(7)][0 := Finished] == [Finished];
  }

  lemma DiesAfterPost(s: State)
    requires s.handlers == [] && s.tables.rows == [Waiting] && s.tables.posts == []
    ensures RunFrom(s, [Approve, Load(0)] + [HandlerPosts(0, 7), HandlerCrashes(0)]) ==
            s.(handlers := [Finished], tables := s.tables.(rows := [Resolved], posts := [7]),
               handlerCrashes := s.handlerCrashes + 1)
  {
    LoadedRuns(s);
    PostedAndGone(RunFrom(s, [Approve, Load(0)]));
    RunFromAppend(s, [Approve, Load(0)], [HandlerPosts(0, 7), HandlerCrashes(0)]);
  }

  /** The gap does happen: the review is queued, a human approves, the handler
      posts and dies before its mark. */
  lemma PostCanGoUnrecorded() returns (events: seq<Event>)
    ensures var s := Run(events);
      && s.lapses == 0 && s.abandoned == 0 && s.worker == Idle && s.handlers == [Finished]
      && s.tables == Tables(NeedsHuman, None, [Resolved], [7])
  {
    var queue, human := UP_TO_ENQUEUE, [Approve, Load(0)] + [HandlerPosts(0, 7), HandlerCrashes(0)];
    QueuedRun();
    StatusAfterHuman(Run(queue));
    DiesAfterPost(Step(Run(queue), WorkerSetsStatus));
    OneThen(queue, WorkerSetsStatus, human);
    events := (queue + [WorkerSetsStatus]) + human;
  }
}
