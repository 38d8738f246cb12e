/** Crash and resume of the review graph (`langgraph_engine.py`, `graph.py`) on
    top of the checkpointer's store. The graph library enters through one rule:
    a specialist is skipped on resume iff its result is a pending write. */
module Engine {
  import opened Basics
  import opened Findings
  import opened Fanout
  import opened RedisKeys
  import opened Checkpointer

  datatype Value = Output(findings: seq<Finding>) | Trigger | Failure

  const RESULTS: string := "specialist_results"
  const BRANCH: string := "branch:to:aggregate"
  const ERROR: string := "__error__"

  /** Only the error channel matters here: it is special, the results channel is not. */
  ghost predicate Channels(special: map<string, int>) {
    RESULTS !in special && BRANCH !in special && ERROR in special && special[ERROR] < 0
  }

  /** The thread, namespace and fan-out checkpoint of one review. */
  const THREAD: string := "review"
  const NS: string := ""
  const FANOUT: string := "fanout"
  const JOINED: string := "joined"

  const ALL: set<Agent> := {Security, Quality, Tests, Docs}

  function ResultSlot(a: Agent): Slot {
    Slot(THREAD, NS, FANOUT, AgentName(a), 0)
  }

  predicate Stored(store: Store<Value>, a: Agent) {
    ResultSlot(a) in store.writes && store.writes[ResultSlot(a)].value.Output?
  }

  function OutputOf(store: Store<Value>, a: Agent): seq<Finding>
    requires Stored(store, a)
  {
    store.writes[ResultSlot(a)].value.findings
  }

  datatype Machine = Machine(
    store: Store<Value>,                 // survives crashes
    joined: Option<seq<Result>>,         // the results channel of the joined checkpoint
    merged: Option<seq<Finding>>,        // what the aggregate node handed to `aggregate`
    live: bool,                          // a worker is inside `ainvoke`
    active: set<Agent>,                  // specialists it is running
    runs: map<Agent, nat>,
    crashes: nat)

  datatype Event =
    | Invoke                             // a job calls `run`: fresh start or resume
    | Finish(a: Agent, output: seq<Finding>)
    | Fail(a: Agent)                     // a specialist raises, and with it the run
    | Crash
    | Join(order: seq<Agent>)            // the results channel, in any order
    | Aggregate
    | InvokeDies                         // crash inside the put of the first checkpoint
    | JoinDies(order: seq<Agent>)        // crash inside the put of the joined checkpoint

  const START: Machine :=
    Machine(Store(map[], map[], map[]), None, None, false, {}, map[Security := 0, Quality := 0, Tests := 0, Docs := 0], 0)

  function RunsOf(m: Machine, a: Agent): nat {
    if a in m.runs then m.runs[a] else 0
  }

  function ToRun(store: Store<Value>): set<Agent> {
    set a | a in ALL && !Stored(store, a)
  }

  function Bump(runs: map<Agent, nat>, active: set<Agent>): map<Agent, nat> {
    map a | a in runs :: runs[a] + if a in active then 1 else 0
  }

  function ResultsIn(store: Store<Value>, order: seq<Agent>): seq<Result>
    requires forall a :: a in order ==> Stored(store, a)
  {
    if order == [] then []
    else
      var a := order[|order| - 1];
      ResultsIn(store, order[..|order| - 1]) + [Result(a, OutputOf(store, a))]
  }

  predicate CanJoin(m: Machine, order: seq<Agent>) {
    && m.live && m.joined == None
    && multiset(order) == multiset(SPECIALIST_NAMES)
    && forall a: Agent :: Stored(m.store, a)
  }

  function Checkpoint(id: string): Entry {
    Entry(id, "", None)
  }

  /** The first half of a put: the entry is set, its id not yet listed. */
  function HalfPut(store: Store<Value>, id: string): Store<Value> {
    StoreEntry(store, THREAD, NS, id, Checkpoint(id))
  }

  function PutCheckpoint(store: Store<Value>, id: string): Store<Value> {
    StoreId(StoreEntry(store, THREAD, NS, id, Checkpoint(id)), THREAD, NS, id)
  }

  function Step(m: Machine, e: Event, special: map<string, int>): Machine {
    match e
    case Invoke =>
      if m.live then m
      else if m.joined.Some? then m.(live := true)
      else
        var store := if OrderOf(m.store, THREAD, NS) == [] then PutCheckpoint(m.store, FANOUT) else m.store;
        m.(store := store, live := true, active := ToRun(store), runs := Bump(m.runs, ToRun(store)))
    case Finish(a, output) =>
      if m.live && a in m.active then
        m.(active := m.active - {a},
           store := StoreWrites(m.store, THREAD, NS, FANOUT, [(RESULTS, Output(output)), (BRANCH, Trigger)],
                                AgentName(a), "", special))
      else m
    case Fail(a) =>
      if m.live && a in m.active then
        m.(live := false, active := {}, crashes := m.crashes + 1,
           store := StoreWrites(m.store, THREAD, NS, FANOUT, [(ERROR, Failure)], AgentName(a), "", special))
      else m
    case Crash =>
      if m.live then m.(live := false, active := {}, crashes := m.crashes + 1) else m
    case Join(order) =>
      if CanJoin(m, order) then
        m.(joined := Some(ResultsIn(m.store, order)), store := PutCheckpoint(m.store, JOINED))
      else m
    case Aggregate =>
      if m.live && m.joined.Some? then
        m.(live := false, merged := Some(Merged(m.joined.value)))
      else m
    case InvokeDies =>
      if !m.live && m.joined == None && OrderOf(m.store, THREAD, NS) == [] then
        m.(store := HalfPut(m.store, FANOUT), crashes := m.crashes + 1)
      else m
    case JoinDies(order) =>
      if CanJoin(m, order) then
        m.(store := HalfPut(m.store, JOINED), live := false, active := {}, crashes := m.crashes + 1)
      else m
  }

  function RunFrom(m: Machine, events: seq<Event>, special: map<string, int>): Machine {
    if events == [] then m
    else Step(RunFrom(m, events[..|events| - 1], special), events[|events| - 1], special)
  }

  function Run(events: seq<Event>, special: map<string, int>): Machine {
    RunFrom(START, events, special)
  }

  // ---- what a step keeps -----------------------------------------------------------

  lemma FinishStores(store: Store<Value>, a: Agent, output: seq<Finding>, special: map<string, int>, b: Agent)
    requires Channels(special)
    ensures var after := StoreWrites(store, THREAD, NS, FANOUT, [(RESULTS, Output(output)), (BRANCH, Trigger)],
                                     AgentName(a), "", special);
      && (b != a || ResultSlot(a) in store.writes ==> WriteAt(after, ResultSlot(b)) == WriteAt(store, ResultSlot(b)))
      && (b == a && ResultSlot(a) !in store.writes ==> Stored(after, a) && OutputOf(after, a) == output)
      && after.entries == store.entries && after.order == store.order
  {
    var writes := [(RESULTS, Output(output)), (BRANCH, Trigger)];
    NamesDistinct(a, b);
    StoreWritesFrame(store, THREAD, NS, FANOUT, writes, AgentName(a), "", special, ResultSlot(b));
    StoreWritesAt(store, THREAD, NS, FANOUT, writes, AgentName(a), "", special, 0);
    assert writes[..1] == [(RESULTS, Output(output))];
    assert writes[..1][..0] == [];
    assert OfferOf(writes[..1], AgentName(a), "", special, 0) == Some(Write(AgentName(a), RESULTS, Output(output), ""));
    assert OfferOf(writes, AgentName(a), "", special, 0) == Some(Write(AgentName(a), RESULTS, Output(output), ""));
  }

  lemma FailKeepsResults(store: Store<Value>, a: Agent, special: map<string, int>, b: Agent)
    requires Channels(special)
    ensures var after := StoreWrites(store, THREAD, NS, FANOUT, [(ERROR, Failure)], AgentName(a), "", special);
      && WriteAt(after, ResultSlot(b)) == WriteAt(store, ResultSlot(b))
      && after.entries == store.entries && after.order == store.order
  {
    var writes: seq<(string, Value)> := [(ERROR, Failure)];
    NamesDistinct(a, b);
    StoreWritesFrame(store, THREAD, NS, FANOUT, writes, AgentName(a), "", special, ResultSlot(b));
    StoreWritesAt(store, THREAD, NS, FANOUT, writes, AgentName(a), "", special, 0);
    assert writes[..0] == [];
  }

  ghost predicate Inv(m: Machine) {
    && m.runs.Keys == ALL
    && (forall a :: a in m.active ==> m.live && ResultSlot(a) !in m.store.writes && m.joined == None)
    && (forall a: Agent :: ResultSlot(a) in m.store.writes ==> Stored(m.store, a))
    && (forall a :: a in ALL ==> RunsOf(m, a) <= m.crashes + if m.live || m.joined.Some? then 1 else 0)
    && (m.joined.Some? ==>
          && (forall a: Agent :: Stored(m.store, a))
          && exists order :: multiset(order) == multiset(SPECIALIST_NAMES) && m.joined.value == ResultsIn(m.store, order))
    && (m.merged.Some? ==> m.joined.Some? && m.merged.value == Merged(m.joined.value))
  }

  /** A stored result keeps its value and its specialist is not run again. */
  ghost predicate Keeps(m: Machine, m': Machine) {
    forall a: Agent :: Stored(m.store, a) ==>
      Stored(m'.store, a) && OutputOf(m'.store, a) == OutputOf(m.store, a) && RunsOf(m', a) == RunsOf(m, a)
  }

  lemma WritesKeep(m: Machine, e: Event, special: map<string, int>)
    requires Inv(m) && Channels(special) && (e.Finish? || e.Fail?)
    ensures Keeps(m, Step(m, e, special))
  {
    hide StoreWrites, Merged, ResultsIn, CanJoin;
    forall a: Agent | Stored(m.store, a)
      ensures var m' := Step(m, e, special);
        Stored(m'.store, a) && OutputOf(m'.store, a) == OutputOf(m.store, a) && RunsOf(m', a) == RunsOf(m, a)
    {
      match e
      case Finish(b, output) => FinishStores(m.store, b, output, special, a);
      case Fail(b) => FailKeepsResults(m.store, b, special, a);
    }
  }

  lemma BumpOthers(runs: map<Agent, nat>, active: set<Agent>, a: Agent)
    requires a !in active
    ensures a in Bump(runs, active) <==> a in runs
    ensures a in runs ==> Bump(runs, active)[a] == runs[a]
  {
  }

  lemma StoredIsSkipped(store: Store<Value>, a: Agent)
    requires Stored(store, a)
    ensures a !in ToRun(store) && a !in ToRun(PutCheckpoint(store, FANOUT))
    ensures Stored(PutCheckpoint(store, FANOUT), a) && OutputOf(PutCheckpoint(store, FANOUT), a) == OutputOf(store, a)
  {
    assert PutCheckpoint(store, FANOUT).writes == store.writes;
  }

  lemma InvokeKeeps(m: Machine, special: map<string, int>)
    ensures Keeps(m, Step(m, Invoke, special))
  {
    hide ToRun, Bump, PutCheckpoint, Stored;
    forall a: Agent | Stored(m.store, a)
      ensures var m' := Step(m, Invoke, special);
        Stored(m'.store, a) && OutputOf(m'.store, a) == OutputOf(m.store, a) && RunsOf(m', a) == RunsOf(m, a)
    {
      StoredIsSkipped(m.store, a);
      BumpOthers(m.runs, ToRun(m.store), a);
      BumpOthers(m.runs, ToRun(PutCheckpoint(m.store, FANOUT)), a);
    }
  }

  lemma QuietKeeps(m: Machine, e: Event, special: map<string, int>)
    requires !e.Invoke? && !e.Finish? && !e.Fail?
    ensures Keeps(m, Step(m, e, special))
  {
    hide Merged, ResultsIn, CanJoin, StoreWrites;
  }

  lemma StepKeeps(m: Machine, e: Event, special: map<string, int>)
    requires Inv(m) && Channels(special)
    ensures Keeps(m, Step(m, e, special))
  {
    hide Step, Keeps;
    if e.Invoke? {
      InvokeKeeps(m, special);
    } else if e.Finish? || e.Fail? {
      WritesKeep(m, e, special);
    } else {
      QuietKeeps(m, e, special);
    }
  }

  lemma {:induction false} ResultsInSame(store: Store<Value>, store': Store<Value>, order: seq<Agent>)
    requires forall a :: a in order ==> Stored(store, a) && Stored(store', a) && OutputOf(store, a) == OutputOf(store', a)
    ensures ResultsIn(store, order) == ResultsIn(store', order)
  {
    if order != [] {
      ResultsInSame(store, store', order[..|order| - 1]);
    }
  }

  lemma InvInvoke(m: Machine, special: map<string, int>)
    requires Inv(m)
    ensures Inv(Step(m, Invoke, special))
  {
  }

  lemma InvFinish(m: Machine, a: Agent, output: seq<Finding>, special: map<string, int>)
    requires Inv(m) && Channels(special)
    ensures Inv(Step(m, Finish(a, output), special))
  {
    var m' := Step(m, Finish(a, output), special);
    if m.live && a in m.active {
      forall b: Agent
        ensures b in m'.active ==> ResultSlot(b) !in m'.store.writes
        ensures ResultSlot(b) in m'.store.writes ==> Stored(m'.store, b)
      {
        FinishStores(m.store, a, output, special, b);
      }
    }
  }

  lemma InvFail(m: Machine, a: Agent, special: map<string, int>)
    requires Inv(m) && Channels(special)
    ensures Inv(Step(m, Fail(a), special))
  {
    var m' := Step(m, Fail(a), special);
    if m.live && a in m.active {
      forall b: Agent ensures ResultSlot(b) in m'.store.writes ==> Stored(m'.store, b) {
        FailKeepsResults(m.store, a, special, b);
      }
    }
  }

  lemma InvJoin(m: Machine, order: seq<Agent>, special: map<string, int>)
    requires Inv(m)
    ensures Inv(Step(m, Join(order), special))
  {
    var m' := Step(m, Join(order), special);
    if CanJoin(m, order) {
      forall a: Agent
        ensures Stored(m'.store, a) && OutputOf(m'.store, a) == OutputOf(m.store, a) && a !in m.active
      {
        assert Stored(m.store, a);
      }
      ResultsInSame(m.store, m'.store, order);
    }
  }

  lemma InvRest(m: Machine, e: Event, special: map<string, int>)
    requires Inv(m) && (e.Crash? || e.Aggregate? || e.InvokeDies? || e.JoinDies?)
    ensures Inv(Step(m, e, special))
  {
    hide StoreWrites;
  }

  lemma InvStep(m: Machine, e: Event, special: map<string, int>)
    requires Inv(m) && Channels(special)
    ensures Inv(Step(m, e, special))
  {
    match e
    case Invoke => InvInvoke(m, special);
    case Finish(a, output) => InvFinish(m, a, output, special);
    case Fail(a) => InvFail(m, a, special);
    case Join(order) => InvJoin(m, order, special);
    case _ => InvRest(m, e, special);
  }

  lemma {:induction false} InvRun(events: seq<Event>, special: map<string, int>)
    requires Channels(special)
    ensures Inv(Run(events, special))
  {
    if events != [] {
      InvRun(events[..|events| - 1], special);
      InvStep(Run(events[..|events| - 1], special), events[|events| - 1], special);
    }
  }

  lemma {:induction false} RunFromKeeps(m: Machine, events: seq<Event>, special: map<string, int>)
    requires Inv(m) && Channels(special)
    ensures Inv(RunFrom(m, events, special)) && Keeps(m, RunFrom(m, events, special))
  {
    if events != [] {
      var before, e := events[..|events| - 1], events[|events| - 1];
      RunFromKeeps(m, before, special);
      StepKeeps(RunFrom(m, before, special), e, special);
      InvStep(RunFrom(m, before, special), e, special);
    }
  }

  lemma {:induction false} RunFromAppend(m: Machine, a: seq<Event>, b: seq<Event>, special: map<string, int>)
    ensures RunFrom(m, a + b, special) == RunFrom(RunFrom(m, a, special), b, special)
  {
    if b == [] {
      assert a + b == a;
    } else {
      assert (a + b)[..|a + b| - 1] == a + b[..|b| - 1];
      RunFromAppend(m, a, b[..|b| - 1], special);
    }
  }

  // ---- main results -----------------------------------------------------------------------

  /** Whatever crashes and resumes follow, a specialist whose result was stored
      never runs again and its result never changes. */
  lemma StoredNeverRunsAgain(before: seq<Event>, after: seq<Event>, special: map<string, int>, a: Agent)
    requires Channels(special) && Stored(Run(before, special).store, a)
    ensures var m, m' := Run(before, special), Run(before + after, special);
      Stored(m'.store, a) && OutputOf(m'.store, a) == OutputOf(m.store, a) && RunsOf(m', a) == RunsOf(m, a)
  {
    InvRun(before, special);
    RunFromKeeps(Run(before, special), after, special);
    RunFromAppend(START, before, after, special);
  }

  /** A specialist runs at most once more than the run was interrupted. */
  lemma RunsAreBounded(events: seq<Event>, special: map<string, int>, a: Agent)
    requires Channels(special)
    ensures |Starts(events, special, a)| == RunsOf(Run(events, special), a) <= Run(events, special).crashes + 1
    ensures |Starts(events, special, a)| <= |Interruptions(events)| + 1
  {
    InvRun(events, special);
    RunsAreStarts(events, special, a);
    CrashesAreEvents(events, special);
    assert a in ALL;
  }

  /** The step at `k` starts the specialist. */
  ghost predicate StartsAt(events: seq<Event>, special: map<string, int>, a: Agent, k: nat) {
    k < |events| && a !in Run(events[..k], special).active && a in Run(events[..k + 1], special).active
  }

  ghost function Starts(events: seq<Event>, special: map<string, int>, a: Agent): set<nat> {
    set k: nat | k < |events| && StartsAt(events, special, a, k)
  }

  lemma RunLast(events: seq<Event>, special: map<string, int>)
    requires events != []
    ensures Run(events, special) == Step(Run(events[..|events| - 1], special), events[|events| - 1], special)
  {
  }

  lemma StepStarts(m: Machine, e: Event, special: map<string, int>, a: Agent)
    requires Inv(m) && a in ALL
    ensures RunsOf(Step(m, e, special), a) == RunsOf(m, a) + if a !in m.active && a in Step(m, e, special).active then 1 else 0
  {
    hide StoreWrites, Merged, ResultsIn, CanJoin, Stored, PutCheckpoint, HalfPut;
  }

  lemma StartsSnoc(events: seq<Event>, special: map<string, int>, a: Agent, n: nat)
    requires |events| == n + 1
    ensures n !in Starts(events[..n], special, a)
    ensures Starts(events, special, a) == Starts(events[..n], special, a) + if StartsAt(events, special, a, n) then {n} else {}
  {
    hide Run;
    forall k: nat | k < n ensures StartsAt(events, special, a, k) <==> StartsAt(events[..n], special, a, k) {
      assert events[..n][..k] == events[..k] && events[..n][..k + 1] == events[..k + 1];
    }
  }

  /** The runs counted for a specialist are the steps that start it. */
  lemma {:induction false} RunsAreStarts(events: seq<Event>, special: map<string, int>, a: Agent)
    requires Channels(special)
    ensures RunsOf(Run(events, special), a) == |Starts(events, special, a)|
  {
    AllAgents();
    if events == [] {
      assert Starts(events, special, a) == {};
      assert a in START.runs;
    } else {
      hide Step, Inv, RunsOf, RunFrom, Starts;
      var n := |events| - 1;
      RunsAreStarts(events[..n], special, a);
      RunLast(events, special);
      InvRun(events[..n], special);
      StepStarts(Run(events[..n], special), events[n], special, a);
      StartsSnoc(events, special, a, n);
      assert events[..n + 1] == events;
      OneMoreMember(Starts(events[..n], special, a), Starts(events, special, a), n, StartsAt(events, special, a, n));
    }
  }

  predicate Interrupts(e: Event) {
    e.Crash? || e.Fail? || e.InvokeDies? || e.JoinDies?
  }

  function Interruptions(events: seq<Event>): set<nat> {
    set k: nat | k < |events| && Interrupts(events[k])
  }

  lemma InterruptionsSnoc(events: seq<Event>, n: nat)
    requires |events| == n + 1
    ensures n !in Interruptions(events[..n])
    ensures Interruptions(events) == Interruptions(events[..n]) + if Interrupts(events[n]) then {n} else {}
  {
  }

  /** And the interruptions counted are crashes and failures among the events. */
  lemma {:induction false} CrashesAreEvents(events: seq<Event>, special: map<string, int>)
    ensures Run(events, special).crashes <= |Interruptions(events)|
  {
    if events != [] {
      hide StoreWrites, Merged, ResultsIn, CanJoin, Stored, PutCheckpoint, HalfPut;
      var n := |events| - 1;
      var e := events[n];
      CrashesAreEvents(events[..n], special);
      InterruptionsSnoc(events, n);
      OneMoreMember(Interruptions(events[..n]), Interruptions(events), n, Interrupts(e));
    }
  }

  /** The run nobody disturbs: start, four results, join, aggregate. */
  function Uncrashed(outputs: map<Agent, seq<Finding>>): seq<Event>
    requires outputs.Keys == ALL
  {
    [Invoke, Finish(Security, outputs[Security]), Finish(Quality, outputs[Quality]), Finish(Tests, outputs[Tests]),
     Finish(Docs, outputs[Docs]), Join(SPECIALIST_NAMES), Aggregate]
  }

  function Outputs(store: Store<Value>): map<Agent, seq<Finding>>
    requires forall a: Agent :: Stored(store, a)
  {
    map a | a in ALL :: OutputOf(store, a)
  }

  lemma ResultsPermute(store: Store<Value>, a: seq<Agent>, b: seq<Agent>)
    requires multiset(a) == multiset(b) && forall x: Agent :: Stored(store, x)
    ensures multiset(ResultsIn(store, a)) == multiset(ResultsIn(store, b))
  {
    forall r ensures multiset(ResultsIn(store, a))[r] == multiset(ResultsIn(store, b))[r] {
      ResultCount(store, a, r);
      ResultCount(store, b, r);
    }
  }

  lemma {:induction false} ResultCount(store: Store<Value>, order: seq<Agent>, r: Result)
    requires forall x: Agent :: Stored(store, x)
    ensures multiset(ResultsIn(store, order))[r] ==
            if r.findings == OutputOf(store, r.agent) then multiset(order)[r.agent] else 0
  {
    if order != [] {
      var before, a := order[..|order| - 1], order[|order| - 1];
      ResultCount(store, before, r);
      assert order == before + [a];
    }
  }

  lemma {:induction false} ResultsAgents(store: Store<Value>, order: seq<Agent>)
    requires forall a :: a in order ==> Stored(store, a)
    ensures |ResultsIn(store, order)| == |order|
    ensures forall k :: 0 <= k < |order| ==> ResultsIn(store, order)[k].agent == order[k]
  {
    if order != [] {
      ResultsAgents(store, order[..|order| - 1]);
    }
  }

  lemma FinishOne(m: Machine, a: Agent, output: seq<Finding>, special: map<string, int>)
    requires Inv(m) && Channels(special) && m.live && a in m.active
    ensures var m' := Step(m, Finish(a, output), special);
      && Inv(m') && Keeps(m, m') && m'.live && m'.joined == None && m'.active == m.active - {a}
      && Stored(m'.store, a) && OutputOf(m'.store, a) == output
  {
    InvFinish(m, a, output, special);
    StepKeeps(m, Finish(a, output), special);
    FinishStores(m.store, a, output, special, a);
  }

  lemma FourFinish(m: Machine, outputs: map<Agent, seq<Finding>>, special: map<string, int>)
    requires Inv(m) && Channels(special) && m.live && m.active == ALL && outputs.Keys == ALL
    ensures var m4 := Step(Step(Step(Step(m, Finish(Security, outputs[Security]), special),
                       Finish(Quality, outputs[Quality]), special), Finish(Tests, outputs[Tests]), special),
                       Finish(Docs, outputs[Docs]), special);
      && Inv(m4) && m4.live && m4.joined == None
      && forall a: Agent :: Stored(m4.store, a) && OutputOf(m4.store, a) == outputs[a]
  {
    FinishOne(m, Security, outputs[Security], special);
    var m1 := Step(m, Finish(Security, outputs[Security]), special);
    FinishOne(m1, Quality, outputs[Quality], special);
    var m2 := Step(m1, Finish(Quality, outputs[Quality]), special);
    FinishOne(m2, Tests, outputs[Tests], special);
    var m3 := Step(m2, Finish(Tests, outputs[Tests]), special);
    FinishOne(m3, Docs, outputs[Docs], special);
    AllAgents();
  }

  lemma AllAgents()
    ensures forall a: Agent :: a in ALL
  {
    forall a: Agent ensures a in ALL {
      match a { case Security => case Quality => case Tests => case Docs => }
    }
  }

  lemma RunSnoc(m: Machine, events: seq<Event>, e: Event, special: map<string, int>)
    ensures RunFrom(m, events + [e], special) == Step(RunFrom(m, events, special), e, special)
  {
    assert (events + [e])[..|events|] == events;
  }

  function FourEvents(outputs: map<Agent, seq<Finding>>): seq<Event>
    requires outputs.Keys == ALL
  {
    [Finish(Security, outputs[Security]), Finish(Quality, outputs[Quality]), Finish(Tests, outputs[Tests]),
     Finish(Docs, outputs[Docs])]
  }

  lemma FourEventsRun(m: Machine, outputs: map<Agent, seq<Finding>>, special: map<string, int>)
    requires outputs.Keys == ALL
    ensures RunFrom(m, FourEvents(outputs), special) ==
            Step(Step(Step(Step(m, Finish(Security, outputs[Security]), special),
              Finish(Quality, outputs[Quality]), special), Finish(Tests, outputs[Tests]), special),
              Finish(Docs, outputs[Docs]), special)
  {
    var e0: seq<Event> := [];
    var e1 := e0 + [Finish(Security, outputs[Security])];
    var e2 := e1 + [Finish(Quality, outputs[Quality])];
    var e3 := e2 + [Finish(Tests, outputs[Tests])];
    RunSnoc(m, e0, Finish(Security, outputs[Security]), special);
    RunSnoc(m, e1, Finish(Quality, outputs[Quality]), special);
    RunSnoc(m, e2, Finish(Tests, outputs[Tests]), special);
    RunSnoc(m, e3, Finish(Docs, outputs[Docs]), special);
    assert e3 + [Finish(Docs, outputs[Docs])] == FourEvents(outputs);
  }

  lemma TwoSteps(m: Machine, a: Event, b: Event, special: map<string, int>)
    ensures RunFrom(m, [a, b], special) == Step(Step(m, a, special), b, special)
  {
    var none: seq<Event> := [];
    assert none + [a] == [a] && [a] + [b] == [a, b];
    RunSnoc(m, none, a, special);
    RunSnoc(m, [a], b, special);
  }

  lemma JoinStep(m: Machine, order: seq<Agent>, special: map<string, int>)
    requires CanJoin(m, order)
    ensures Step(m, Join(order), special).live
    ensures Step(m, Join(order), special).joined == Some(ResultsIn(m.store, order))
  {
  }

  lemma AggregateStep(m: Machine, special: map<string, int>)
    requires m.live && m.joined.Some?
    ensures Step(m, Aggregate, special).merged == Some(Merged(m.joined.value))
  {
  }

  lemma JoinAndAggregate(m: Machine, special: map<string, int>)
    requires CanJoin(m, SPECIALIST_NAMES)
    ensures RunFrom(m, [Join(SPECIALIST_NAMES), Aggregate], special).merged ==
            Some(Merged(ResultsIn(m.store, SPECIALIST_NAMES)))
  {
    TwoSteps(m, Join(SPECIALIST_NAMES), Aggregate, special);
    JoinStep(m, SPECIALIST_NAMES, special);
    AggregateStep(Step(m, Join(SPECIALIST_NAMES), special), special);
  }

  lemma FreshInvoke(special: map<string, int>)
    requires Channels(special)
    ensures var m := Run([Invoke], special);
      Inv(m) && m.live && m.active == ALL && m.joined == None
  {
    RunSnoc(START, [], Invoke, special);
    assert [] + [Invoke] == [Invoke];
    InvRun([Invoke], special);
    assert ToRun(Step(START, Invoke, special).store) == ALL;
  }

  lemma UncrashedSplits(outputs: map<Agent, seq<Finding>>, special: map<string, int>)
    requires outputs.Keys == ALL
    ensures Run(Uncrashed(outputs), special) ==
            RunFrom(RunFrom(Run([Invoke], special), FourEvents(outputs), special), [Join(SPECIALIST_NAMES), Aggregate], special)
  {
    var four, tail := FourEvents(outputs), [Join(SPECIALIST_NAMES), Aggregate];
    RunFromAppend(START, [Invoke], four, special);
    RunFromAppend(START, [Invoke] + four, tail, special);
    assert [Invoke] + four + tail == Uncrashed(outputs);
  }

  lemma UncrashedMerges(outputs: map<Agent, seq<Finding>>, special: map<string, int>) returns (store: Store<Value>)
    requires outputs.Keys == ALL && Channels(special)
    ensures forall a: Agent :: a in outputs && Stored(store, a) && OutputOf(store, a) == outputs[a]
    ensures Run(Uncrashed(outputs), special).merged == Some(Merged(ResultsIn(store, SPECIALIST_NAMES)))
  {
    var m1 := Run([Invoke], special);
    FreshInvoke(special);
    FourEventsRun(m1, outputs, special);
    UncrashedSplits(outputs, special);
    store := FourStored(m1, outputs, special);
  }

  lemma FourStored(m1: Machine, outputs: map<Agent, seq<Finding>>, special: map<string, int>) returns (store: Store<Value>)
    requires Inv(m1) && Channels(special) && m1.live && m1.active == ALL && outputs.Keys == ALL
    ensures forall a: Agent :: a in outputs && Stored(store, a) && OutputOf(store, a) == outputs[a]
    ensures RunFrom(RunFrom(m1, FourEvents(outputs), special), [Join(SPECIALIST_NAMES), Aggregate], special).merged ==
            Some(Merged(ResultsIn(store, SPECIALIST_NAMES)))
  {
    FourEventsRun(m1, outputs, special);
    FourFinish(m1, outputs, special);
    var m5 := RunFrom(m1, FourEvents(outputs), special);
    store := m5.store;
    JoinAndAggregate(m5, special);
    AllAgents();
  }

  lemma NamesOnce()
    ensures forall i, j :: 0 <= i < j < |SPECIALIST_NAMES| ==> SPECIALIST_NAMES[i] != SPECIALIST_NAMES[j]
  {
  }

  lemma JoinOrderIrrelevant(store: Store<Value>, order: seq<Agent>)
    requires multiset(order) == multiset(SPECIALIST_NAMES) && forall a: Agent :: Stored(store, a)
    ensures Merged(ResultsIn(store, order)) == Merged(ResultsIn(store, SPECIALIST_NAMES))
  {
    ResultsPermute(store, SPECIALIST_NAMES, order);
    NamesOnce();
    ResultsAgents(store, SPECIALIST_NAMES);
    ScheduleIndependent(ResultsIn(store, SPECIALIST_NAMES), ResultsIn(store, order), 0.0);
  }

  /** Crash, resume, fail and finish in any order: when the aggregate node is
      reached it gets what an undisturbed run gets from the stored results. */
  lemma AggregateAsIfUncrashed(events: seq<Event>, special: map<string, int>)
    requires Channels(special) && Run(events, special).merged.Some?
    ensures forall a: Agent :: Stored(Run(events, special).store, a)
    ensures Run(events, special).merged == Run(Uncrashed(Outputs(Run(events, special).store)), special).merged
    ensures var store := Run(events, special).store;
      Run(events, special).merged
      == Some(OutputOf(store, Security) + OutputOf(store, Quality) + OutputOf(store, Tests) + OutputOf(store, Docs))
  {
    var m := Run(events, special);
    InvRun(events, special);
    var order :| multiset(order) == multiset(SPECIALIST_NAMES) && m.joined.value == ResultsIn(m.store, order);
    JoinOrderIrrelevant(m.store, order);
    var store := UncrashedMerges(Outputs(m.store), special);
    ResultsInSame(m.store, store, SPECIALIST_NAMES);
    MergedOutputs(m.store);
  }

  lemma MergedOutputs(store: Store<Value>)
    requires forall a: Agent :: Stored(store, a)
    ensures Merged(ResultsIn(store, SPECIALIST_NAMES))
            == OutputOf(store, Security) + OutputOf(store, Quality) + OutputOf(store, Tests) + OutputOf(store, Docs)
  {
    hide Merged, Stored, OutputOf;
    var results := ResultsIn(store, SPECIALIST_NAMES);
    ResultsAgents(store, SPECIALIST_NAMES);
    SpecialistSays(store, SPECIALIST_NAMES, 0);
    SpecialistSays(store, SPECIALIST_NAMES, 1);
    SpecialistSays(store, SPECIALIST_NAMES, 2);
    SpecialistSays(store, SPECIALIST_NAMES, 3);
    MergedIs(results, OutputOf(store, Security), OutputOf(store, Quality), OutputOf(store, Tests), OutputOf(store, Docs));
  }

  lemma {:induction false} SpecialistSays(store: Store<Value>, order: seq<Agent>, k: nat)
    requires k < |order| && forall a :: a in order ==> Stored(store, a)
    ensures k < |ResultsIn(store, order)| && ResultsIn(store, order)[k] == Result(order[k], OutputOf(store, order[k]))
  {
    ResultsAgents(store, order);
    ResultsAgents(store, order[..|order| - 1]);
    if k < |order| - 1 {
      SpecialistSays(store, order[..|order| - 1], k);
    }
  }

  // ---- the engine on Redis ----------------------------------------------------------------

  const NO_CALLS: seq<Call<Value>> := []

  /** The checkpointer calls of one event. */
  function CallsOf(m: Machine, e: Event): seq<Call<Value>> {
    match e
    case Invoke =>
      if !m.live && m.joined == None && OrderOf(m.store, THREAD, NS) == [] then [Put(THREAD, NS, FANOUT, Checkpoint(FANOUT))]
      else NO_CALLS
    case Finish(a, output) =>
      if m.live && a in m.active then
        [Writes(THREAD, NS, FANOUT, [(RESULTS, Output(output)), (BRANCH, Trigger)], AgentName(a), "")]
      else NO_CALLS
    case Fail(a) =>
      if m.live && a in m.active then [Writes(THREAD, NS, FANOUT, [(ERROR, Failure)], AgentName(a), "")] else NO_CALLS
    case Join(order) => if CanJoin(m, order) then [Put(THREAD, NS, JOINED, Checkpoint(JOINED))] else NO_CALLS
    case InvokeDies =>
      if !m.live && m.joined == None && OrderOf(m.store, THREAD, NS) == [] then
        [CrashedPut(THREAD, NS, FANOUT, Checkpoint(FANOUT))]
      else NO_CALLS
    case JoinDies(order) => if CanJoin(m, order) then [CrashedPut(THREAD, NS, JOINED, Checkpoint(JOINED))] else NO_CALLS
    case _ => NO_CALLS
  }

  /** The checkpointer calls of a run, in order. */
  function History(events: seq<Event>, special: map<string, int>): seq<Call<Value>> {
    if events == [] then []
    else
      var before := events[..|events| - 1];
      History(before, special) + CallsOf(Run(before, special), events[|events| - 1])
  }

  lemma StoreAfterCalls(calls: seq<Call<Value>>, more: seq<Call<Value>>, special: map<string, int>)
    requires |more| <= 1
    ensures RunStore(calls + more, special) ==
            if more == [] then RunStore(calls, special) else CallStore(RunStore(calls, special), more[0], special)
  {
    if more == [] {
      assert calls + more == calls;
    } else {
      assert (calls + more)[..|calls + more| - 1] == calls;
    }
  }

  lemma StepStore(m: Machine, e: Event, special: map<string, int>)
    ensures |CallsOf(m, e)| <= 1
    ensures forall call :: call in CallsOf(m, e) ==> ColonFree(call.n) && ColonFree(call.c)
    ensures Step(m, e, special).store ==
            if CallsOf(m, e) == [] then m.store else CallStore(m.store, CallsOf(m, e)[0], special)
  {
    hide StoreWrites, CanJoin, Merged, ResultsIn;
  }

  /** The store of an engine run is the one its checkpointer calls leave. */
  lemma {:induction false} StoreIsHistory(events: seq<Event>, special: map<string, int>)
    ensures Clean(History(events, special))
    ensures Run(events, special).store == RunStore(History(events, special), special)
  {
    if events != [] {
      var before, e := events[..|events| - 1], events[|events| - 1];
      var m := Run(before, special);
      StoreIsHistory(before, special);
      StepStore(m, e, special);
      StoreAfterCalls(History(before, special), CallsOf(m, e), special);
      var calls: seq<Call<Value>>, more: seq<Call<Value>> := History(before, special), CallsOf(m, e);
      var all: seq<Call<Value>> := calls + more;
      forall k | 0 <= k < |all| ensures ColonFree(all[k].n) && ColonFree(all[k].c) {
        if k >= |calls| {
          assert all[k] in more;
        }
      }
    }
  }

  /** Which checkpoints are listed tells how far the run has come. */
  ghost predicate Listed(m: Machine) {
    var order := OrderOf(m.store, THREAD, NS);
    && order == (if m.joined.Some? then [FANOUT, JOINED] else if order == [] then [] else [FANOUT])
    && (order == [] ==> !m.live && forall a: Agent :: !Stored(m.store, a))
  }

  lemma WritesKeepOrder(store: Store<Value>, writes: seq<(string, Value)>, a: Agent, special: map<string, int>)
    ensures OrderOf(StoreWrites(store, THREAD, NS, FANOUT, writes, AgentName(a), "", special), THREAD, NS)
            == OrderOf(store, THREAD, NS)
  {
    StoreWritesFrame(store, THREAD, NS, FANOUT, writes, AgentName(a), "", special, ResultSlot(a));
  }

  lemma ListedStep(m: Machine, e: Event, special: map<string, int>)
    requires Inv(m) && Listed(m)
    ensures Listed(Step(m, e, special))
  {
    hide StoreWrites, Merged, ResultsIn;
    match e
    case Finish(a, output) => WritesKeepOrder(m.store, [(RESULTS, Output(output)), (BRANCH, Trigger)], a, special);
    case Fail(a) => WritesKeepOrder(m.store, [(ERROR, Failure)], a, special);
    case Join(order) =>
      assert CanJoin(m, order) ==> Stored(m.store, Security);
      assert [FANOUT] + [JOINED] == [FANOUT, JOINED];
    case _ =>
  }

  lemma {:induction false} ListedRun(events: seq<Event>, special: map<string, int>)
    requires Channels(special)
    ensures Listed(Run(events, special))
  {
    if events != [] {
      var before := events[..|events| - 1];
      ListedRun(before, special);
      InvRun(before, special);
      ListedStep(Run(before, special), events[|events| - 1], special);
    }
  }

  /** What Redis holds as the result of a specialist, on the fan-out checkpoint. */
  function PendingResult(r: Redis<Value>, a: Agent): Option<Write<Value>> {
    FieldAt(HashAt(r, WritesKey(THREAD, NS, FANOUT)), FieldOf(AgentName(a), 0))
  }

  lemma PendingIsWrite(r: Redis<Value>, store: Store<Value>, a: Agent)
    requires Implements(r, store)
    ensures PendingResult(r, a) == WriteAt(store, ResultSlot(a))
  {
    assert ColonFree(NS) && ColonFree(FANOUT);
    assert WritesAgree(r, store);
  }

  /** What a resume reads in Redis: a specialist's result is among the pending
      writes of the fan-out checkpoint exactly when the engine will skip it. */
  lemma ResumeReadsRedis(events: seq<Event>, special: map<string, int>, a: Agent)
    requires Channels(special)
    ensures var m, r := Run(events, special), RunRedis(History(events, special), special);
      var pending := PendingResult(r, a);
      && Implements(r, m.store)
      && (a !in ToRun(m.store) <==> pending.Some? && pending.value.value.Output?)
      && (pending.Some? && pending.value.value.Output? ==> pending.value.value.findings == OutputOf(m.store, a))
  {
    var m, r := Run(events, special), RunRedis(History(events, special), special);
    StoreIsHistory(events, special);
    RedisImplementsStore(History(events, special), special);
    AllAgents();
    PendingIsWrite(r, m.store, a);
  }

  lemma {:induction false} StartedIffInvoked(events: seq<Event>, special: map<string, int>)
    requires Channels(special)
    ensures OrderOf(Run(events, special).store, THREAD, NS) == [] <==> forall e :: e in events ==> !e.Invoke?
  {
    if events != [] {
      hide StoreWrites, Merged, ResultsIn, CanJoin;
      var before, e := events[..|events| - 1], events[|events| - 1];
      var m := Run(before, special);
      assert events == before + [e];
      StartedIffInvoked(before, special);
      ListedRun(before, special);
      match e
      case Finish(a, output) => WritesKeepOrder(m.store, [(RESULTS, Output(output)), (BRANCH, Trigger)], a, special);
      case Fail(a) => WritesKeepOrder(m.store, [(ERROR, Failure)], a, special);
      case Join(order) =>
        if CanJoin(m, order) {
          JoinNeedsLive(m, order);
        }
      case _ =>
    }
  }

  lemma JoinNeedsLive(m: Machine, order: seq<Agent>)
    requires CanJoin(m, order)
    ensures m.live
  {
  }

  lemma LastEntrySnoc(calls: seq<Call<Value>>, call: Call<Value>, c: string)
    ensures LastEntry(calls + [call], THREAD, NS, c) ==
            if !call.Writes? && (call.t, call.n, call.c) == (THREAD, NS, c) then Some(call.entry)
            else LastEntry(calls, THREAD, NS, c)
  {
    assert (calls + [call])[..|calls|] == calls;
  }

  lemma CallsPutCheckpoints(m: Machine, e: Event)
    ensures |CallsOf(m, e)| <= 1
    ensures forall call :: call in CallsOf(m, e) && !call.Writes? ==> call.entry == Checkpoint(call.c)
  {
    hide CanJoin, OrderOf;
  }

  lemma {:induction false} EntriesAreCheckpoints(events: seq<Event>, special: map<string, int>, c: string)
    ensures var entry := LastEntry(History(events, special), THREAD, NS, c);
      entry.Some? ==> entry.value == Checkpoint(c)
  {
    if events != [] {
      hide CallsOf, Run, LastEntry;
      var before, e := events[..|events| - 1], events[|events| - 1];
      EntriesAreCheckpoints(before, special, c);
      CallsPutCheckpoints(Run(before, special), e);
      var calls := CallsOf(Run(before, special), e);
      if calls != [] {
        assert calls == [calls[0]] && calls[0] in calls;
        LastEntrySnoc(History(before, special), calls[0], c);
      } else {
        assert History(before, special) + calls == History(before, special);
      }
    } else {
      assert History(events, special) == [];
    }
  }

  /** The listed ids, seen from the history. */
  lemma ListedPuts(events: seq<Event>, special: map<string, int>)
    requires Channels(special)
    ensures var puts := PutIds(History(events, special), THREAD, NS);
      && (puts == [] <==> forall e :: e in events ==> !e.Invoke?)
      && (puts != [] ==> puts[|puts| - 1] == if Run(events, special).joined.Some? then JOINED else FANOUT)
  {
    StoreIsHistory(events, special);
    ListedRun(events, special);
    StartedIffInvoked(events, special);
    StoreHistory(History(events, special), special, THREAD, NS, "");
  }

  lemma PendingHasTask(r: Redis<Value>, store: Store<Value>, a: Agent)
    requires Implements(r, store) && PendingResult(r, a).Some?
    ensures PendingResult(r, a).value.task == AgentName(a)
  {
    var hash, field := HashAt(r, WritesKey(THREAD, NS, FANOUT)), FieldOf(AgentName(a), 0);
    assert WellFormed(hash);
    var i: int :| field == FieldOf(hash[field].task, i);
    FieldsDistinct(AgentName(a), 0, hash[field].task, i);
  }

  /** The result of the specialist is among the pending writes. */
  ghost predicate HasResult(pending: seq<Loaded<Value>>, a: Agent) {
    exists l :: l in pending && l.idx == 0 && l.write.task == AgentName(a) && l.write.value.Output?
  }

  lemma PendingHas(r: Redis<Value>, store: Store<Value>, fields: seq<string>, l: Loaded<Value>)
    requires Implements(r, store) && Enumerates(fields, HashAt(r, WritesKey(THREAD, NS, FANOUT)))
    ensures l in PendingOf(HashAt(r, WritesKey(THREAD, NS, FANOUT)), fields) <==>
            WriteAt(store, Slot(THREAD, NS, FANOUT, l.write.task, l.idx)) == Some(l.write)
  {
    PendingIsExact(r, store, THREAD, NS, FANOUT, fields);
  }

  lemma PendingOfSkipped(r: Redis<Value>, store: Store<Value>, fields: seq<string>, a: Agent)
    requires Implements(r, store) && Enumerates(fields, HashAt(r, WritesKey(THREAD, NS, FANOUT)))
    ensures PendingResult(r, a).Some? && PendingResult(r, a).value.value.Output? <==>
            HasResult(PendingOf(HashAt(r, WritesKey(THREAD, NS, FANOUT)), fields), a)
  {
    hide Implements, PendingOf, HashAt, WritesKey, FieldOf, PendingResult;
    PendingIsWrite(r, store, a);
    if PendingResult(r, a).Some? {
      PendingHasTask(r, store, a);
      PendingHas(r, store, fields, Loaded(0, PendingResult(r, a).value));
    }
    forall l: Loaded<Value> | l.idx == 0 && l.write.task == AgentName(a)
      ensures l in PendingOf(HashAt(r, WritesKey(THREAD, NS, FANOUT)), fields) <==> PendingResult(r, a) == Some(l.write)
    {
      PendingHas(r, store, fields, l);
    }
  }

  /** Whose results a resume finds: those of exactly the specialists it will not run again. */
  lemma SkippedArePending(events: seq<Event>, special: map<string, int>, fields: seq<string>, a: Agent)
    requires Channels(special)
    requires Enumerates(fields, HashAt(RunRedis(History(events, special), special), WritesKey(THREAD, NS, FANOUT)))
    ensures var pending := PendingOf(HashAt(RunRedis(History(events, special), special), WritesKey(THREAD, NS, FANOUT)), fields);
      a !in ToRun(Run(events, special).store) <==> HasResult(pending, a)
  {
    hide Run, History, RunRedis, PendingOf, Implements, ToRun, Enumerates, HashAt, HasResult, PendingResult;
    ResumeReadsRedis(events, special, a);
    PendingOfSkipped(RunRedis(History(events, special), special), Run(events, special).store, fields, a);
  }

  /** Nothing before the run was first started, the joined checkpoint once the join
      is stored, the fan-out checkpoint in between, and with it the results of exactly
      the specialists that are not to run again. */
  ghost predicate TellsWhereToGoOn(found: Option<CheckpointTuple<Value>>, events: seq<Event>, special: map<string, int>) {
    && (found.None? <==> forall e :: e in events ==> !e.Invoke?)
    && (found.Some? ==>
          var m := Run(events, special);
          && found.value.id == (if m.joined.Some? then JOINED else FANOUT)
          && found.value.entry == Checkpoint(found.value.id)
          && (m.joined.None? ==> forall a: Agent :: a !in ToRun(m.store) <==> HasResult(found.value.pending, a)))
  }

  lemma LatestAnswerTells(r: Redis<Value>, found: Option<CheckpointTuple<Value>>, fields: seq<string>,
                          events: seq<Event>, special: map<string, int>)
    requires Channels(special) && r == RunRedis(History(events, special), special)
    requires var puts := PutIds(History(events, special), THREAD, NS);
      if puts == [] || puts[|puts| - 1] == "" then found.None?
      else
        && found.Some? && found.value.id == puts[|puts| - 1]
        && LastEntry(History(events, special), THREAD, NS, found.value.id) == Some(found.value.entry)
        && Enumerates(fields, HashAt(r, WritesKey(THREAD, NS, found.value.id)))
        && found.value.pending == PendingOf(HashAt(r, WritesKey(THREAD, NS, found.value.id)), fields)
    ensures TellsWhereToGoOn(found, events, special)
  {
    hide Run, History, PendingOf, ToRun, HasResult;
    assert FANOUT != "" && JOINED != "";
    ListedPuts(events, special);
    if found.Some? {
      EntriesAreCheckpoints(events, special, found.value.id);
      if Run(events, special).joined.None? {
        forall a: Agent ensures a !in ToRun(Run(events, special).store) <==> HasResult(found.value.pending, a) {
          SkippedArePending(events, special, fields, a);
        }
      }
    }
  }

  /** What a resume is told when it asks Redis for the latest checkpoint, even after
      a crash inside a put, is where to go on. */
  method ResumeFindsCheckpoint(saver: RedisSaver<Value>, fieldsOf: string -> seq<string>,
                               ghost events: seq<Event>, ghost special: map<string, int>)
    returns (found: Option<CheckpointTuple<Value>>)
    requires forall id :: Enumerates(fieldsOf(id), HashAt(saver.Db(), WritesKey(THREAD, NS, id)))
    ensures Channels(special) && saver.Db() == RunRedis(History(events, special), special) ==>
              TellsWhereToGoOn(found, events, special)
  {
    found := saver.AgetTuple(THREAD, NS, None, fieldsOf);
    if Channels(special) && saver.Db() == RunRedis(History(events, special), special) {
      StoreIsHistory(events, special);
      assert ColonFree(NS);
      LatestAnswerTells(saver.Db(), found, if found.Some? then fieldsOf(found.value.id) else [], events, special);
    }
  }
}
