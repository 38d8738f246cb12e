/** The daily budget (`economics/budget.py`) as the specialist agents use it
    (`agents/base_agent.py`): check the ledger, make one LLM call, record its cost. */
module Budget {
  import opened Basics

  // ---- any number of guarded agents at once --------------------------------------------

  /** `spent` is what the ledger shows for today, `inFlight` the agent runs that
      have passed the check and not yet recorded their call or given up. */
  datatype State = State(spent: real, inFlight: set<nat>)

  datatype Event =
    | Check(run: nat)
    | Record(run: nat, cost: real)
    | GiveUp(run: nat)
    | NewDay

  /** At most `most` runs are in flight and one call costs at most `dearest`. */
  datatype Limits = Limits(cap: real, most: nat, dearest: real)

  function Step(l: Limits, s: State, e: Event): State {
    match e
    case Check(run) =>
      if s.spent >= l.cap then s
      else if run in s.inFlight || |s.inFlight| >= l.most then s
      else s.(inFlight := s.inFlight + {run})
    case Record(run, cost) =>
      if run in s.inFlight && 0.0 <= cost <= l.dearest
      then State(s.spent + cost, s.inFlight - {run}) else s
    case GiveUp(run) => s.(inFlight := s.inFlight - {run})
    case NewDay => s.(spent := 0.0)
  }

  function Run(l: Limits, s: State, events: seq<Event>): State {
    if events == [] then s
    else Step(l, Run(l, s, events[..|events| - 1]), events[|events| - 1])
  }

  ghost predicate Inv(l: Limits, s: State) {
    && |s.inFlight| <= l.most
    && s.spent + Multiple(|s.inFlight|, l.dearest) < l.cap + Multiple(l.most, l.dearest)
  }

  lemma InvStep(l: Limits, s: State, e: Event)
    requires l.cap > 0.0 && l.dearest >= 0.0 && Inv(l, s)
    ensures Inv(l, Step(l, s, e))
  {
    var t := Step(l, s, e);
    match e
    case Check(run) =>
      MultipleGrows(|t.inFlight|, l.most, l.dearest);
    case Record(run, cost) =>
    case GiveUp(run) =>
      if run !in s.inFlight {
        assert t.inFlight == s.inFlight;
      }
      MultipleGrows(|t.inFlight|, |s.inFlight|, l.dearest);
    case NewDay =>
      MultipleGrows(|s.inFlight|, l.most, l.dearest);
  }

  lemma {:induction false} InvAlways(l: Limits, s: State, events: seq<Event>)
    requires l.cap > 0.0 && l.dearest >= 0.0
    requires s.spent < l.cap && s.inFlight == {}
    ensures Inv(l, Run(l, s, events))
  {
    if events == [] {
      MultipleGrows(0, l.most, l.dearest);
    } else {
      InvAlways(l, s, events[..|events| - 1]);
      InvStep(l, Run(l, s, events[..|events| - 1]), events[|events| - 1]);
    }
  }

  /** On every day that starts below the cap, and over every interleaving, what is
      recorded plus what the calls under way may still cost stays below the cap
      plus one call per agent in flight. */
  lemma OvershootIsBounded(l: Limits, s: State, events: seq<Event>)
    requires l.cap > 0.0 && l.dearest >= 0.0
    requires s.spent < l.cap && s.inFlight == {}
    ensures var t := Run(l, s, events);
      && t.spent + Multiple(|t.inFlight|, l.dearest) < l.cap + Multiple(l.most, l.dearest)
      && t.spent < l.cap + Multiple(l.most, l.dearest)
      && |t.inFlight| <= l.most
  {
    InvAlways(l, s, events);
    MultipleGrows(0, |Run(l, s, events).inFlight|, l.dearest);
  }

  /** Once the ledger has reached the cap, no further call starts that day. */
  lemma {:induction false} NoCallOverCap(l: Limits, s: State, events: seq<Event>)
    requires s.spent >= l.cap && NewDay !in events
    ensures Run(l, s, events).inFlight <= s.inFlight && Run(l, s, events).spent >= l.cap
  {
    if events != [] {
      NoCallOverCap(l, s, events[..|events| - 1]);
    }
  }

  // ---- the bound is approached -------------------------------------------------------------

  function Upto(n: nat): (runs: set<nat>)
    ensures |runs| == n && forall i: nat :: i in runs <==> i < n
  {
    if n == 0 then {} else Upto(n - 1) + {n - 1}
  }

  function Checks(n: nat): seq<Event> {
    if n == 0 then [] else Checks(n - 1) + [Check(n - 1)]
  }

  function Records(n: nat, cost: real): seq<Event> {
    if n == 0 then [] else Records(n - 1, cost) + [Record(n - 1, cost)]
  }

  lemma RunSnoc(l: Limits, s: State, events: seq<Event>, e: Event)
    ensures Run(l, s, events + [e]) == Step(l, Run(l, s, events), e)
  {
    assert (events + [e])[..|events + [e]| - 1] == events;
  }

  lemma {:induction false} ChecksPass(l: Limits, s: State, n: nat)
    requires s.spent < l.cap && s.inFlight == {} && n <= l.most
    ensures Run(l, s, Checks(n)) == State(s.spent, Upto(n))
  {
    if n > 0 {
      ChecksPass(l, s, n - 1);
      RunSnoc(l, s, Checks(n - 1), Check(n - 1));
    }
  }

  lemma {:induction false} RunAppend(l: Limits, s: State, a: seq<Event>, b: seq<Event>)
    ensures Run(l, s, a + b) == Run(l, Run(l, s, a), b)
  {
    if b == [] {
      assert a + b == a;
    } else {
      assert (a + b)[..|a + b| - 1] == a + b[..|b| - 1];
      RunAppend(l, s, a, b[..|b| - 1]);
    }
  }

  predicate Recorded(l: Limits, spent: real, t: State, n: nat) {
    t.spent == spent + Multiple(n, l.dearest) && t.inFlight == Upto(l.most) - Upto(n)
  }

  lemma RecordedStep(l: Limits, spent: real, t: State, n: nat)
    requires l.dearest >= 0.0 && n < l.most && Recorded(l, spent, t, n)
    ensures Recorded(l, spent, Step(l, t, Record(n, l.dearest)), n + 1)
  {
    assert n in t.inFlight;
  }

  lemma {:induction false} RecordsAdd(l: Limits, s: State, n: nat)
    requires l.dearest >= 0.0 && s.inFlight == Upto(l.most) && n <= l.most
    ensures Recorded(l, s.spent, Run(l, s, Records(n, l.dearest)), n)
  {
    if n > 0 {
      RecordsAdd(l, s, n - 1);
      RunSnoc(l, s, Records(n - 1, l.dearest), Record(n - 1, l.dearest));
      RecordedStep(l, s.spent, Run(l, s, Records(n - 1, l.dearest)), n - 1);
    }
  }

  /** The check is made before the call and not again: from any spend below the
      cap, all agents can pass it together and each add a full call. */
  lemma OvershootIsReached(l: Limits, spent: real) returns (events: seq<Event>)
    requires l.dearest >= 0.0 && spent < l.cap
    ensures Run(l, State(spent, {}), events).spent == spent + Multiple(l.most, l.dearest)
  {
    var s := State(spent, {});
    ChecksPass(l, s, l.most);
    RecordsAdd(l, State(spent, Upto(l.most)), l.most);
    RunAppend(l, s, Checks(l.most), Records(l.most, l.dearest));
    events := Checks(l.most) + Records(l.most, l.dearest);
  }

  // ---- one agent run --------------------------------------------------------------------------

  datatype Outcome = Fine | Empty | Failed

  datatype Row = SpanStart | ToolCall | LlmCall(cost: real) | SpanEnd(outcome: Outcome)

  /** Sum of the costs on the events spine. */
  function Spend(rows: seq<Row>): real {
    if rows == [] then 0.0
    else Spend(rows[..|rows| - 1]) + if rows[|rows| - 1].LlmCall? then rows[|rows| - 1].cost else 0.0
  }

  /** Places at which a run may raise; `Parsing` is after the call was billed. */
  datatype Point = Ledger | Starting | Retrieving | Grounding | Calling | Billing | Parsing | Ending

  datatype Review = Blocked | Raised | Findings(none: bool)

  /** The append-only `agent_events` table. */
  class EventSink {
    var rows: seq<Row>

    constructor ()
      ensures rows == []
    {
      rows := [];
    }

    method Emit(row: Row, raises: bool) returns (ok: bool)
      modifies this
      ensures ok == !raises && rows == if raises then old(rows) else old(rows) + [row]
    {
      if !raises {
        rows := rows + [row];
      }
      ok := !raises;
    }
  }

  // ---- what a run leaves on the spine ---------------------------------------------------

  predicate WorkFails(raises: Point -> bool) {
    raises(Retrieving) || raises(Grounding) || raises(Calling) || raises(Billing) || raises(Parsing)
  }

  function OutcomeOf(refused: bool, raises: Point -> bool): Outcome {
    if WorkFails(raises) then Failed else if refused then Empty else Fine
  }

  /** The rows between the two ends of the span. */
  function Inside(cost: real, raises: Point -> bool): seq<Row> {
    if raises(Retrieving) || raises(Grounding) then []
    else if raises(Calling) || raises(Billing) then [ToolCall]
    else [ToolCall, LlmCall(cost)]
  }

  /** The rows of a run that was let in. */
  function Trail(cost: real, refused: bool, raises: Point -> bool): seq<Row> {
    if raises(Starting) then []
    else [SpanStart] + Inside(cost, raises) + (if raises(Ending) then [] else [SpanEnd(OutcomeOf(refused, raises))])
  }

  /** The part inside the span. */
  method Work(sink: EventSink, cost: real, refused: bool, raises: Point -> bool) returns (outcome: Outcome)
    modifies sink
    ensures outcome == OutcomeOf(refused, raises)
    ensures sink.rows == old(sink.rows) + Inside(cost, raises)
  {
    if raises(Retrieving) {
      return Failed;
    }
    var ok := sink.Emit(ToolCall, raises(Grounding));
    if !ok || raises(Calling) {
      return Failed;
    }
    ok := sink.Emit(LlmCall(cost), raises(Billing));
    if !ok || raises(Parsing) {
      return Failed;
    }
    outcome := if refused then Empty else Fine;
  }

  /** The span: opened first, closed last, whatever happens inside. */
  method Span(sink: EventSink, cost: real, refused: bool, raises: Point -> bool) returns (review: Review)
    modifies sink
    ensures sink.rows == old(sink.rows) + Trail(cost, refused, raises)
    ensures review == if raises(Starting) || WorkFails(raises) || raises(Ending) then Raised else Findings(refused)
  {
    var ok := sink.Emit(SpanStart, raises(Starting));
    if !ok {
      return Raised;
    }
    var outcome := Work(sink, cost, refused, raises);
    ok := sink.Emit(SpanEnd(outcome), raises(Ending));
    review := if !ok || outcome.Failed? then Raised else Findings(refused);
  }

  /** One agent run. Untracked (no review id) it consults no budget and records
      nothing. Tracked and guarded it is blocked exactly when the ledger has
      reached the cap, and then leaves no row; otherwise it leaves its trail. */
  method ReviewDiff(sink: EventSink, tracked: bool, cap: Option<real>, cost: real, refused: bool, raises: Point -> bool)
    returns (review: Review)
    modifies sink
    ensures !tracked ==>
              && sink.rows == old(sink.rows)
              && review == if raises(Retrieving) || raises(Calling) || raises(Parsing) then Raised else Findings(refused)
    ensures review.Blocked? <==> tracked && cap.Some? && !raises(Ledger) && Spend(old(sink.rows)) >= cap.value
    ensures review.Blocked? || (cap.Some? && raises(Ledger)) ==> sink.rows == old(sink.rows)
    ensures tracked && !review.Blocked? && !(cap.Some? && raises(Ledger)) ==>
              && sink.rows == old(sink.rows) + Trail(cost, refused, raises)
              && (review == Raised <==> exists p: Point :: p != Ledger && raises(p))
              && (review != Raised ==> review == Findings(refused))
  {
    if !tracked {
      if raises(Retrieving) || raises(Calling) || raises(Parsing) {
        return Raised;
      }
      return Findings(refused);
    }
    if cap.Some? {
      if raises(Ledger) {
        return Raised;
      }
      if Spend(sink.rows) >= cap.value {
        return Blocked;
      }
    }
    review := Span(sink, cost, refused, raises);
  }

  /** A trail opens with the span; unless closing it raised it ends with the
      outcome, which is a failure exactly when the work raised; between the two
      stand the retrieval and then the call, and nothing else. */
  lemma TrailIsSpan(cost: real, refused: bool, raises: Point -> bool)
    requires !raises(Starting)
    ensures var t := Trail(cost, refused, raises);
      && t[0] == SpanStart
      && (forall i :: 0 < i < |t| ==> !t[i].SpanStart?)
      && (!raises(Ending) ==> |t| >= 2 && t[|t| - 1].SpanEnd?)
      && (ToolCall in t <==> !raises(Retrieving) && !raises(Grounding))
      && (forall i :: 0 <= i < |t| && t[i].SpanEnd? ==> i == |t| - 1)
      && (forall i :: 0 <= i < |t| && t[i].LlmCall? ==> i == 2 && t[1] == ToolCall)
    ensures !raises(Ending) ==>
              var t := Trail(cost, refused, raises);
              var failed := raises(Retrieving) || raises(Grounding) || raises(Calling) || raises(Billing) || raises(Parsing);
              t[|t| - 1] == SpanEnd(if failed then Failed else if refused then Empty else Fine)
  {
  }

  lemma {:induction false} SpendAppend(a: seq<Row>, b: seq<Row>)
    ensures Spend(a + b) == Spend(a) + Spend(b)
  {
    if b == [] {
      assert a + b == a;
    } else {
      assert (a + b)[..|a + b| - 1] == a + b[..|b| - 1];
      SpendAppend(a, b[..|b| - 1]);
    }
  }

  /** The call was made and its row written. A run that fails after that has been billed. */
  predicate Billed(raises: Point -> bool) {
    !raises(Starting) && !raises(Retrieving) && !raises(Grounding) && !raises(Calling) && !raises(Billing)
  }

  lemma SpendOne(row: Row)
    ensures Spend([row]) == if row.LlmCall? then row.cost else 0.0
  {
    assert [row][..0] == [];
  }

  /** A run adds the cost of its one call, or nothing. */
  lemma TrailBills(before: seq<Row>, cost: real, refused: bool, raises: Point -> bool)
    ensures Spend(before + Trail(cost, refused, raises)) == Spend(before) + if Billed(raises) then cost else 0.0
  {
    var inside, end := Inside(cost, raises), SpanEnd(OutcomeOf(refused, raises));
    SpendAppend(before, Trail(cost, refused, raises));
    SpendOne(SpanStart);
    SpendOne(ToolCall);
    SpendOne(LlmCall(cost));
    SpendOne(end);
    SpendAppend([ToolCall], [LlmCall(cost)]);
    assert [ToolCall] + [LlmCall(cost)] == [ToolCall, LlmCall(cost)];
    SpendAppend([SpanStart], inside);
    SpendAppend([SpanStart] + inside, [end]);
    assert [SpanStart] + inside + [] == [SpanStart] + inside;
  }

  /** What one guarded run does in the machine of all runs. */
  function EventsOf(l: Limits, spent: real, run: nat, cost: real, raises: Point -> bool): seq<Event> {
    if raises(Ledger) then []
    else if spent >= l.cap then [Check(run)]
    else [Check(run), if Billed(raises) then Record(run, cost) else GiveUp(run)]
  }

  /** The ledger after a guarded, tracked run is the one the machine has after
      that run's events, so the bound on the overshoot is about these runs. */
  lemma RunRefinesMachine(l: Limits, s: State, rows: seq<Row>, after: seq<Row>, run: nat, cost: real, refused: bool,
                          raises: Point -> bool)
    requires s.spent == Spend(rows) && run !in s.inFlight && |s.inFlight| < l.most && 0.0 <= cost <= l.dearest
    requires after == if raises(Ledger) || s.spent >= l.cap then rows else rows + Trail(cost, refused, raises)
    ensures Run(l, s, EventsOf(l, s.spent, run, cost, raises)) == s.(spent := Spend(after))
  {
    TrailBills(rows, cost, refused, raises);
    if raises(Ledger) {
    } else if s.spent >= l.cap {
      assert [Check(run)][..0] == [];
      assert Run(l, s, []) == s;
    } else {
      var last := if Billed(raises) then Record(run, cost) else GiveUp(run);
      RunSnoc(l, s, [], Check(run));
      RunSnoc(l, s, [Check(run)], last);
      assert [] + [Check(run)] == [Check(run)] && [Check(run)] + [last] == [Check(run), last];
      assert s.inFlight + {run} - {run} == s.inFlight;
    }
  }
}
