/** `dedup_findings`, `overall_confidence` and `decide` of `orchestrator/nodes.py`. */
module Dedup {
  import opened Basics
  import opened StableSort
  import opened Findings

  // ---- specification -------------------------------------------------------

  /** The distinct spots in order of first appearance (a dict keeps that order). */
  function Spots(fs: seq<Finding>): seq<Spot> {
    if fs == [] then []
    else
      var before := Spots(fs[..|fs| - 1]);
      var sp := SpotOf(fs[|fs| - 1]);
      if sp in before then before else before + [sp]
  }

  /** The findings on one spot, in order. */
  function Group(fs: seq<Finding>, sp: Spot): seq<Finding> {
    if fs == [] then []
    else
      var before := Group(fs[..|fs| - 1], sp);
      var f := fs[|fs| - 1];
      if SpotOf(f) == sp then before + [f] else before
  }

  /** The first finding of greatest confidence. */
  function Winner(group: seq<Finding>): Finding
    requires group != []
  {
    var last := group[|group| - 1];
    if |group| == 1 then last
    else
      var w := Winner(group[..|group| - 1]);
      if last.confidence > w.confidence then last else w
  }

  const ALPHABETICAL: seq<Agent> := [Docs, Quality, Security, Tests]

  /** The agents among `names`, other than `except`, that are in `group`. */
  function OtherAgents(group: seq<Finding>, except: Agent, names: seq<Agent>): seq<Agent> {
    if names == [] then []
    else if names[0] != except && exists f :: f in group && f.agent == names[0] then
      [names[0]] + OtherAgents(group, except, names[1..])
    else
      OtherAgents(group, except, names[1..])
  }

  function Joined(agents: seq<Agent>): string {
    if agents == [] then ""
    else if |agents| == 1 then AgentName(agents[0])
    else AgentName(agents[0]) + ", " + Joined(agents[1..])
  }

  function Note(agents: seq<Agent>): string {
    if agents == [] then "" else "\n\n_Also flagged by: " + Joined(agents) + "._"
  }

  function Survivor(group: seq<Finding>): Finding
    requires group != []
  {
    var w := Winner(group);
    if |group| > 1 then w.(rationale := w.rationale + Note(OtherAgents(group, w.agent, ALPHABETICAL))) else w
  }

  function Survivors(fs: seq<Finding>, spots: seq<Spot>): seq<Finding>
    requires forall sp :: sp in spots ==> Group(fs, sp) != []
  {
    if spots == [] then []
    else Survivors(fs, spots[..|spots| - 1]) + [Survivor(Group(fs, spots[|spots| - 1]))]
  }

  ghost predicate Flagged(fs: seq<Finding>, sp: Spot) {
    exists f :: f in fs && SpotOf(f) == sp
  }

  lemma {:induction false} GroupMembers(fs: seq<Finding>, sp: Spot)
    ensures forall f :: f in Group(fs, sp) <==> f in fs && SpotOf(f) == sp
    ensures Group(fs, sp) != [] <==> Flagged(fs, sp)
  {
    if fs != [] {
      var before, last := fs[..|fs| - 1], fs[|fs| - 1];
      GroupMembers(before, sp);
      assert fs == before + [last];
      if SpotOf(last) == sp {
        assert last in fs;
      }
    }
  }

  lemma {:induction false} SpotsAreGroups(fs: seq<Finding>)
    ensures forall sp :: sp in Spots(fs) <==> Group(fs, sp) != []
    ensures NoDuplicates(Spots(fs))
  {
    if fs != [] {
      SpotsAreGroups(fs[..|fs| - 1]);
    }
  }

  function DedupSpec(fs: seq<Finding>): seq<Finding> {
    SpotsAreGroups(fs);
    Sort(Survivors(fs, Spots(fs)), FindingLe)
  }

  // ---- the algorithm -------------------------------------------------------

  /** Groups in a dictionary, picks a winner a group, sorts. */
  method DedupFindings(findings: seq<Finding>) returns (out: seq<Finding>)
    ensures out == DedupSpec(findings)
  {
    var order: seq<Spot> := [];
    var groups: map<Spot, seq<Finding>> := map[];
    for i := 0 to |findings|
      invariant order == Spots(findings[..i])
      invariant forall sp :: sp in groups <==> sp in order
      invariant forall sp :: sp in groups ==> groups[sp] == Group(findings[..i], sp)
    {
      var f := findings[i];
      assert findings[..i + 1][..i] == findings[..i];
      SpotsAreGroups(findings[..i]);
      if SpotOf(f) !in groups {
        groups := groups[SpotOf(f) := []];
        order := order + [SpotOf(f)];
      }
      groups := groups[SpotOf(f) := groups[SpotOf(f)] + [f]];
    }
    assert findings[..|findings|] == findings;
    SpotsAreGroups(findings);
    out := [];
    for k := 0 to |order|
      invariant out == Survivors(findings, order[..k])
    {
      assert order[..k + 1][..k] == order[..k];
      out := out + [Survivor(groups[order[k]])];
    }
    assert order[..|order|] == order;
    out := Sort(out, FindingLe);
  }

  // ---- what dedup promises -------------------------------------------------

  /** `fs[i]` is the earliest finding of greatest confidence on its spot. */
  ghost predicate FirstBest(fs: seq<Finding>, i: nat)
    requires i < |fs|
  {
    && (forall j :: 0 <= j < i && SpotOf(fs[j]) == SpotOf(fs[i]) ==> fs[j].confidence < fs[i].confidence)
    && (forall j :: i < j < |fs| && SpotOf(fs[j]) == SpotOf(fs[i]) ==> fs[j].confidence <= fs[i].confidence)
  }

  lemma {:induction false} WinnerIsFirstBest(fs: seq<Finding>, sp: Spot) returns (i: nat)
    requires Group(fs, sp) != []
    ensures i < |fs| && SpotOf(fs[i]) == sp && fs[i] == Winner(Group(fs, sp)) && FirstBest(fs, i)
  {
    var n := |fs| - 1;
    var before := fs[..n];
    if Group(before, sp) == [] {
      GroupMembers(before, sp);
      assert forall j :: 0 <= j < n ==> before[j] == fs[j] && fs[j] in before;
      i := n;
    } else {
      i := WinnerIsFirstBest(before, sp);
      assert forall j :: 0 <= j < n ==> before[j] == fs[j];
      if SpotOf(fs[n]) == sp {
        assert Group(fs, sp)[..|Group(fs, sp)| - 1] == Group(before, sp);
        if fs[n].confidence > fs[i].confidence {
          forall j | 0 <= j < n && SpotOf(fs[j]) == sp ensures fs[j].confidence < fs[n].confidence {
            assert j < i || j == i || i < j;
          }
          i := n;
        }
      }
    }
  }

  /** Who else flagged the spot of `fs[i]`. */
  ghost function AlsoFlagged(fs: seq<Finding>, i: nat): set<Agent>
    requires i < |fs|
  {
    set f | f in fs && SpotOf(f) == SpotOf(fs[i]) && f.agent != fs[i].agent :: f.agent
  }

  predicate Before(a: Agent, b: Agent) {
    a != b && StringLe(AgentName(a), AgentName(b))
  }

  ghost predicate Ascending(agents: seq<Agent>) {
    forall i, j :: 0 <= i < j < |agents| ==> Before(agents[i], agents[j])
  }

  lemma {:induction false} OtherAgentsAscend(group: seq<Finding>, except: Agent, names: seq<Agent>)
    requires Ascending(names)
    ensures var r := OtherAgents(group, except, names);
      && Ascending(r)
      && (forall a :: a in r <==> a in names && a != except && exists f :: f in group && f.agent == a)
  {
    if names != [] {
      var rest := OtherAgents(group, except, names[1..]);
      OtherAgentsAscend(group, except, names[1..]);
      assert names == [names[0]] + names[1..];
      forall k | 0 <= k < |rest| ensures Before(names[0], rest[k]) {
        assert rest[k] in rest;
        var j :| 0 <= j < |names[1..]| && names[1..][j] == rest[k];
        assert names[j + 1] == rest[k];
      }
    }
  }

  lemma AlphabeticalAscends()
    ensures Ascending(ALPHABETICAL)
    ensures forall a: Agent :: a in ALPHABETICAL
  {
    assert Before(Docs, Quality) && Before(Docs, Security) && Before(Docs, Tests);
    assert Before(Quality, Security) && Before(Quality, Tests) && Before(Security, Tests);
    assert ALPHABETICAL[0] == Docs && ALPHABETICAL[1] == Quality && ALPHABETICAL[2] == Security && ALPHABETICAL[3] == Tests;
    forall a: Agent ensures a in ALPHABETICAL {
      match a { case Docs => case Quality => case Security => case Tests => }
    }
  }

  lemma SurvivorStaysOnSpot(fs: seq<Finding>, sp: Spot)
    requires Group(fs, sp) != []
    ensures SpotOf(Survivor(Group(fs, sp))) == sp
  {
    var i := WinnerIsFirstBest(fs, sp);
  }

  lemma {:induction false} SurvivorAt(fs: seq<Finding>, spots: seq<Spot>, k: nat)
    requires forall sp :: sp in spots ==> Group(fs, sp) != []
    ensures |Survivors(fs, spots)| == |spots|
    ensures k < |spots| ==> Survivors(fs, spots)[k] == Survivor(Group(fs, spots[k]))
  {
    hide Survivor;
    if spots != [] {
      SurvivorAt(fs, spots[..|spots| - 1], k);
    }
  }

  lemma SurvivorsFollowSpots(fs: seq<Finding>, spots: seq<Spot>)
    requires forall sp :: sp in spots ==> Group(fs, sp) != []
    ensures |Survivors(fs, spots)| == |spots|
    ensures forall k :: 0 <= k < |spots| ==>
              Survivors(fs, spots)[k] == Survivor(Group(fs, spots[k])) && SpotOf(Survivors(fs, spots)[k]) == spots[k]
  {
    SurvivorAt(fs, spots, 0);
    forall k | 0 <= k < |spots|
      ensures Survivors(fs, spots)[k] == Survivor(Group(fs, spots[k])) && SpotOf(Survivors(fs, spots)[k]) == spots[k]
    {
      SurvivorAt(fs, spots, k);
      SurvivorStaysOnSpot(fs, spots[k]);
    }
  }

  lemma SurvivorsDistinct(fs: seq<Finding>)
    ensures forall sp :: sp in Spots(fs) ==> Group(fs, sp) != []
    ensures DistinctKeys(Survivors(fs, Spots(fs)), SpotOf)
  {
    SpotsAreGroups(fs);
    SurvivorsFollowSpots(fs, Spots(fs));
  }

  /** The output lists survivors sorted by severity, file and line, and ties
      keep the order in which their spots first appeared. */
  lemma DedupStablySorted(fs: seq<Finding>)
    ensures forall sp :: sp in Spots(fs) ==> Group(fs, sp) != []
    ensures StablySorts(DedupSpec(fs), Survivors(fs, Spots(fs)), FindingLe)
  {
    SpotsAreGroups(fs);
    FindingLePreorder();
    SortIsStable(Survivors(fs, Spots(fs)), FindingLe);
  }

  /** Exactly one output finding a spot, and exactly the input's spots. */
  lemma DedupOnePerSpot(fs: seq<Finding>)
    ensures DistinctKeys(DedupSpec(fs), SpotOf)
    ensures forall sp :: Flagged(DedupSpec(fs), sp) <==> Flagged(fs, sp)
  {
    DedupStablySorted(fs);
    SurvivorsDistinct(fs);
    var spots, survivors, out := Spots(fs), Survivors(fs, Spots(fs)), DedupSpec(fs);
    DistinctKeysPermute(survivors, out, SpotOf);
    SurvivorsFollowSpots(fs, spots);
    SpotsAreGroups(fs);
    forall sp ensures Flagged(out, sp) <==> Flagged(fs, sp) {
      GroupMembers(fs, sp);
      if o :| o in out && SpotOf(o) == sp {
        assert o in multiset(survivors);
        var k :| 0 <= k < |survivors| && survivors[k] == o;
        assert spots[k] in spots;
      }
      if Flagged(fs, sp) {
        var k :| 0 <= k < |spots| && spots[k] == sp;
        assert survivors[k] in multiset(out);
      }
    }
  }

  /** Nothing is listed exactly when nothing was found. */
  lemma DedupEmptyIff(fs: seq<Finding>)
    ensures DedupSpec(fs) == [] <==> fs == []
  {
    hide DedupSpec;
    DedupOnePerSpot(fs);
    if fs != [] {
      assert Flagged(fs, SpotOf(fs[0]));
    }
    if DedupSpec(fs) != [] {
      assert Flagged(DedupSpec(fs), SpotOf(DedupSpec(fs)[0]));
    }
  }

  lemma {:induction false} AloneHasNoOthers(f: Finding, names: seq<Agent>)
    ensures OtherAgents([f], f.agent, names) == []
  {
    if names != [] {
      AloneHasNoOthers(f, names[1..]);
    }
  }

  lemma SurvivorOfGroup(g: seq<Finding>) returns (others: seq<Agent>)
    requires g != [] && Winner(g) in g
    ensures Ascending(others) && others == OtherAgents(g, Winner(g).agent, ALPHABETICAL)
    ensures forall a :: a in others <==> a != Winner(g).agent && exists f :: f in g && f.agent == a
    ensures Survivor(g) == Winner(g).(rationale := Winner(g).rationale + Note(others))
  {
    var w := Winner(g);
    AlphabeticalAscends();
    others := OtherAgents(g, w.agent, ALPHABETICAL);
    OtherAgentsAscend(g, w.agent, ALPHABETICAL);
    if |g| == 1 {
      AloneHasNoOthers(w, ALPHABETICAL);
      assert g == [w];
    }
  }

  /** An output finding is the earliest most confident finding of its spot,
      with a note that names exactly the other agents, alphabetically. */
  lemma DedupKeepsFirstBest(fs: seq<Finding>, o: Finding) returns (i: nat, others: seq<Agent>)
    requires o in DedupSpec(fs)
    ensures i < |fs| && FirstBest(fs, i)
    ensures Ascending(others) && forall a :: a in others <==> a in AlsoFlagged(fs, i)
    ensures o == fs[i].(rationale := fs[i].rationale + Note(others))
  {
    DedupStablySorted(fs);
    var spots, survivors := Spots(fs), Survivors(fs, Spots(fs));
    SurvivorsFollowSpots(fs, spots);
    assert o in multiset(survivors);
    var k :| 0 <= k < |survivors| && survivors[k] == o;
    var g := Group(fs, spots[k]);
    i := WinnerIsFirstBest(fs, spots[k]);
    GroupMembers(fs, spots[k]);
    assert fs[i] in fs;
    others := SurvivorOfGroup(g);
    forall a ensures a in others <==> a in AlsoFlagged(fs, i) {
    }
  }

  /** The first finding of greatest confidence of a spot always survives. */
  lemma FirstBestSurvives(fs: seq<Finding>, i: nat) returns (o: Finding)
    requires i < |fs| && FirstBest(fs, i)
    ensures o in DedupSpec(fs) && SpotOf(o) == SpotOf(fs[i]) && o.severity == fs[i].severity
    ensures o.confidence == fs[i].confidence
  {
    DedupOnePerSpot(fs);
    assert fs[i] in fs;
    assert Flagged(fs, SpotOf(fs[i])) && Flagged(DedupSpec(fs), SpotOf(fs[i]));
    o :| o in DedupSpec(fs) && SpotOf(o) == SpotOf(fs[i]);
    var j, _ := DedupKeepsFirstBest(fs, o);
    assert j == i;
  }

  lemma {:induction false} DistinctGroups(fs: seq<Finding>)
    requires DistinctKeys(fs, SpotOf)
    ensures |Spots(fs)| == |fs| && forall k :: 0 <= k < |fs| ==> Spots(fs)[k] == SpotOf(fs[k])
    ensures forall k :: 0 <= k < |fs| ==> Group(fs, SpotOf(fs[k])) == [fs[k]]
  {
    if fs != [] {
      var n := |fs| - 1;
      var before := fs[..n];
      DistinctGroups(before);
      GroupMembers(before, SpotOf(fs[n]));
      assert forall k :: 0 <= k < n ==> before[k] == fs[k];
    }
  }

  /** Deduplicating twice is deduplicating once; no note is added twice. */
  lemma DedupIdempotent(fs: seq<Finding>)
    ensures DedupSpec(DedupSpec(fs)) == DedupSpec(fs)
  {
    var out := DedupSpec(fs);
    DedupOnePerSpot(fs);
    DistinctGroups(out);
    SpotsAreGroups(out);
    SurvivorsFollowSpots(out, Spots(out));
    assert Survivors(out, Spots(out)) == out;
    DedupStablySorted(fs);
    FindingLePreorder();
    SortFixesSorted(out, FindingLe);
  }

  // ---- the order and the notes, spelled out -------------------------------------

  /** CRITICAL findings come first, then HIGH, MEDIUM, LOW and INFO; within a
      severity the file names ascend, and within a file the lines, where a finding
      without a line stands at 0. */
  lemma OutputOrder(fs: seq<Finding>, i: nat, j: nat) returns (p: nat, q: nat)
    requires i < j < |DedupSpec(fs)|
    ensures var worstFirst := [Critical, High, Medium, Low, Info];
      p <= q < 5 && DedupSpec(fs)[i].severity == worstFirst[p] && DedupSpec(fs)[j].severity == worstFirst[q]
    ensures var a, b := DedupSpec(fs)[i], DedupSpec(fs)[j];
      p == q && a.file != b.file ==>
        a.file <= b.file || exists k :: 0 <= k < |a.file| && k < |b.file| && a.file[..k] == b.file[..k] && a.file[k] < b.file[k]
    ensures var a, b := DedupSpec(fs)[i], DedupSpec(fs)[j];
      p == q && a.file == b.file ==>
        (if a.line.Some? then a.line.value else 0) <= (if b.line.Some? then b.line.value else 0)
  {
    hide DedupSpec;
    DedupStablySorted(fs);
    var a, b := DedupSpec(fs)[i], DedupSpec(fs)[j];
    assert FindingLe(a, b);
    p, q := Rank(a.severity), Rank(b.severity);
    StringLeIs(a.file, b.file);
  }

  lemma {:induction false} SpotsAppear(fs: seq<Finding>, i: nat, j: nat) returns (p: nat)
    requires i < j < |Spots(fs)|
    ensures p < |fs| && SpotOf(fs[p]) == Spots(fs)[i] && forall q :: 0 <= q <= p ==> SpotOf(fs[q]) != Spots(fs)[j]
  {
    var n := |fs| - 1;
    var front := fs[..n];
    assert forall q :: 0 <= q < n ==> front[q] == fs[q] && front[q] in front;
    if j < |Spots(front)| {
      p := SpotsAppear(front, i, j);
    } else {
      SpotsAreGroups(front);
      GroupMembers(front, Spots(fs)[i]);
      GroupMembers(front, Spots(fs)[j]);
      var f :| f in front && SpotOf(f) == Spots(fs)[i];
      p :| 0 <= p < n && front[p] == f;
    }
  }

  /** Findings that tie in severity, file and line stand in the order in which their
      spots were first flagged. */
  lemma TiesKeepFirstAppearance(fs: seq<Finding>, i: nat, j: nat) returns (p: nat)
    requires i < j < |DedupSpec(fs)|
    requires var a, b := DedupSpec(fs)[i], DedupSpec(fs)[j];
      && a.severity == b.severity && a.file == b.file
      && (if a.line.Some? then a.line.value else 0) == (if b.line.Some? then b.line.value else 0)
    ensures p < |fs| && SpotOf(fs[p]) == SpotOf(DedupSpec(fs)[i])
    ensures forall q :: 0 <= q <= p ==> SpotOf(fs[q]) != SpotOf(DedupSpec(fs)[j])
  {
    hide DedupSpec, Survivors, Peers, Spots;
    var out := DedupSpec(fs);
    var x := out[i];
    DedupStablySorted(fs);
    var survivors := Survivors(fs, Spots(fs));
    var a, b := PeersInOrder(out, x, i, j, FindingLe);
    assert Peers(out, x, FindingLe) == Peers(survivors, x, FindingLe);
    var k, m := PeersStandInOrder(survivors, x, a, b, FindingLe);
    SurvivorsFollowSpots(fs, Spots(fs));
    p := SpotsAppear(fs, k, m);
  }

  /** Takes a list joined by ", " apart. */
  function Words(text: string): (words: seq<string>)
    ensures words != []
  {
    if text == "" then [""]
    else if |text| >= 2 && text[0] == ',' && text[1] == ' ' then [""] + Words(text[2..])
    else
      var rest := Words(text[1..]);
      [[text[0]] + rest[0]] + rest[1..]
  }

  lemma {:induction false} FirstWord(name: string, tail: string)
    requires ',' !in name
    ensures Words(name) == [name]
    ensures Words(name + ", " + tail) == [name] + Words(tail)
  {
    var text := name + ", " + tail;
    if name == "" {
      assert text[2..] == tail;
    } else {
      FirstWord(name[1..], tail);
      assert text[1..] == name[1..] + ", " + tail;
      assert name[0] in name && text[0] == name[0];
      assert [name[0]] + name[1..] == name;
    }
  }

  function Names(agents: seq<Agent>): seq<string> {
    seq(|agents|, i requires 0 <= i < |agents| => AgentName(agents[i]))
  }

  lemma {:induction false} JoinedReadsBack(agents: seq<Agent>)
    requires agents != []
    ensures Words(Joined(agents)) == Names(agents)
  {
    assert ',' !in AgentName(agents[0]);
    if |agents| == 1 {
      FirstWord(AgentName(agents[0]), "");
    } else {
      FirstWord(AgentName(agents[0]), Joined(agents[1..]));
      JoinedReadsBack(agents[1..]);
      assert Names(agents) == [AgentName(agents[0])] + Names(agents[1..]);
    }
  }

  /** What an output finding says about the others on its spot: nothing if nobody
      else flagged it, else one sentence from which their names can be read off,
      ascending. */
  lemma NoteNamesOthers(fs: seq<Finding>, o: Finding) returns (i: nat, text: string)
    requires o in DedupSpec(fs)
    ensures i < |fs| && FirstBest(fs, i)
    ensures AlsoFlagged(fs, i) == {} ==> o == fs[i]
    ensures AlsoFlagged(fs, i) != {} ==>
              && o == fs[i].(rationale := fs[i].rationale + "\n\n_Also flagged by: " + text + "._")
              && ("docs" in Words(text) <==> Docs in AlsoFlagged(fs, i))
              && ("quality" in Words(text) <==> Quality in AlsoFlagged(fs, i))
              && ("security" in Words(text) <==> Security in AlsoFlagged(fs, i))
              && ("tests" in Words(text) <==> Tests in AlsoFlagged(fs, i))
              && (forall p, q :: 0 <= p < q < |Words(text)| ==>
                    Words(text)[p] != Words(text)[q] && StringLe(Words(text)[p], Words(text)[q]))
  {
    hide DedupSpec;
    var others;
    i, others := DedupKeepsFirstBest(fs, o);
    text := Joined(others);
    if others == [] {
      assert fs[i].rationale + "" == fs[i].rationale;
    } else {
      assert others[0] in AlsoFlagged(fs, i);
      JoinedReadsBack(others);
      assert fs[i].rationale + ("\n\n_Also flagged by: " + text + "._")
             == fs[i].rationale + "\n\n_Also flagged by: " + text + "._";
      NamesAreIn(others, Docs);
      NamesAreIn(others, Quality);
      NamesAreIn(others, Security);
      NamesAreIn(others, Tests);
      forall p, q | 0 <= p < q < |others| ensures AgentName(others[p]) != AgentName(others[q]) {
        NamesDistinct(others[p], others[q]);
      }
    }
  }

  lemma NamesAreIn(agents: seq<Agent>, a: Agent)
    ensures AgentName(a) in Names(agents) <==> a in agents
  {
    forall k | 0 <= k < |agents| ensures Names(agents)[k] == AgentName(a) <==> agents[k] == a {
      NamesDistinct(agents[k], a);
    }
  }

  // ---- the gate --------------------------------------------------------------

  datatype Decision = AutoPost | Queued | Escalated

  const DEFAULT_CONFIDENCE_THRESHOLD: real := 0.75

  function ConfidenceSum(fs: seq<Finding>): real {
    if fs == [] then 0.0 else fs[0].confidence + ConfidenceSum(fs[1..])
  }

  /** Mean confidence, 1.0 for an empty review. */
  function OverallConfidence(fs: seq<Finding>): real {
    if fs == [] then 1.0 else ConfidenceSum(fs) / (|fs| as real)
  }

  function Decide(fs: seq<Finding>, score: real, threshold: real): Decision {
    if exists f :: f in fs && f.severity == Critical then Escalated
    else if score < threshold then Queued
    else AutoPost
  }

  /** What `aggregate` decides about the raw findings of all agents. */
  function Gate(merged: seq<Finding>, threshold: real): Decision {
    Decide(DedupSpec(merged), OverallConfidence(DedupSpec(merged)), threshold)
  }

  /** The gate escalates exactly when the first best finding of some spot is
      CRITICAL. A CRITICAL finding that lost its spot to a more confident or an
      earlier equally confident one does not count. */
  lemma EscalatesIffCriticalIsFirstBest(merged: seq<Finding>, threshold: real)
    ensures Gate(merged, threshold) == Escalated <==>
            exists i :: 0 <= i < |merged| && merged[i].severity == Critical && FirstBest(merged, i)
  {
    var out := DedupSpec(merged);
    if Gate(merged, threshold) == Escalated {
      var o :| o in out && o.severity == Critical;
      var i, _ := DedupKeepsFirstBest(merged, o);
      assert merged[i].severity == Critical;
    }
    if i :| 0 <= i < |merged| && merged[i].severity == Critical && FirstBest(merged, i) {
      var o := FirstBestSurvives(merged, i);
    }
  }

  /** It posts on its own exactly when no such finding exists and the mean
      confidence of the survivors reaches the threshold. */
  lemma PostsIffConfidentAndNotCritical(merged: seq<Finding>, threshold: real)
    ensures Gate(merged, threshold) == AutoPost <==>
            && (forall i :: 0 <= i < |merged| && FirstBest(merged, i) ==> merged[i].severity != Critical)
            && OverallConfidence(DedupSpec(merged)) >= threshold
  {
    EscalatesIffCriticalIsFirstBest(merged, threshold);
  }

  // ---- the score --------------------------------------------------------------

  lemma {:induction false} SumAppend(a: seq<Finding>, b: seq<Finding>)
    ensures ConfidenceSum(a + b) == ConfidenceSum(a) + ConfidenceSum(b)
  {
    if a == [] {
      assert a + b == b;
    } else {
      assert (a + b)[1..] == a[1..] + b;
      SumAppend(a[1..], b);
    }
  }

  lemma {:induction false} SumPermutes(a: seq<Finding>, b: seq<Finding>)
    requires multiset(a) == multiset(b)
    ensures ConfidenceSum(a) == ConfidenceSum(b)
  {
    assert |multiset(a)| == |multiset(b)|;
    if a != [] {
      assert a[0] in multiset(b);
      var k :| 0 <= k < |b| && b[k] == a[0];
      ToFrontPermutes(b, k);
      assert ToFront(b, k)[1..] == b[..k] + b[k + 1..];
      TailsPermute(a, ToFront(b, k));
      SumPermutes(a[1..], b[..k] + b[k + 1..]);
      assert b == b[..k] + ([b[k]] + b[k + 1..]);
      SumAppend(b[..k], [b[k]] + b[k + 1..]);
      SumAppend(b[..k], b[k + 1..]);
      assert ([b[k]] + b[k + 1..])[1..] == b[k + 1..];
    }
  }

  lemma QuotientTimes(sum: real, n: real)
    requires n > 0.0
    ensures sum / n * n == sum
  {
  }

  /** The score is the mean: 1.0 of nothing, the confidence of a single finding,
      independent of order, and weighted by length when lists are put together.
      No other score has these properties. */
  lemma MeanOfFew(f: Finding)
    ensures OverallConfidence([]) == 1.0 && OverallConfidence([f]) == f.confidence
  {
    assert [f][1..] == [];
    QuotientTimes(f.confidence, 1.0);
  }

  lemma MeanPermutes(a: seq<Finding>, b: seq<Finding>)
    requires multiset(a) == multiset(b)
    ensures OverallConfidence(a) == OverallConfidence(b)
  {
    SumPermutes(a, b);
    assert |multiset(a)| == |multiset(b)|;
  }

  lemma MeanAppends(a: seq<Finding>, b: seq<Finding>)
    requires a != [] && b != []
    ensures OverallConfidence(a + b) * |a + b| as real
            == OverallConfidence(a) * |a| as real + OverallConfidence(b) * |b| as real
  {
    SumAppend(a, b);
    QuotientTimes(ConfidenceSum(a), |a| as real);
    QuotientTimes(ConfidenceSum(b), |b| as real);
    QuotientTimes(ConfidenceSum(a + b), |a + b| as real);
  }

  lemma OneMore(a: real, n: nat)
    ensures a * (n + 1) as real == a * n as real + a
  {
    assert (n + 1) as real == n as real + 1.0;
  }

  lemma {:induction false} SumWithin(fs: seq<Finding>, lo: real, hi: real)
    requires forall f :: f in fs ==> lo <= f.confidence <= hi
    ensures lo * (|fs| as real) <= ConfidenceSum(fs) <= hi * (|fs| as real)
  {
    if fs != [] {
      SumWithin(fs[1..], lo, hi);
      assert fs[0] in fs;
      OneMore(lo, |fs| - 1);
      OneMore(hi, |fs| - 1);
    }
  }

  lemma ScaleStrictly(a: real, b: real, n: real)
    requires a < b && n > 0.0
    ensures a * n < b * n
  {
    assert (b - a) * n > 0.0;
  }

  lemma QuotientWithin(sum: real, n: real, lo: real, hi: real)
    requires n > 0.0 && lo * n <= sum <= hi * n
    ensures lo <= sum / n <= hi
  {
    var q := sum / n;
    assert q * n == sum;
    if q < lo {
      ScaleStrictly(q, lo, n);
    } else if q > hi {
      ScaleStrictly(hi, q, n);
    }
  }

  /** The score lies between the least and the greatest confidence. */
  lemma MeanWithin(fs: seq<Finding>, lo: real, hi: real)
    requires fs != [] && forall f :: f in fs ==> lo <= f.confidence <= hi
    ensures lo <= OverallConfidence(fs) <= hi
  {
    SumWithin(fs, lo, hi);
    QuotientWithin(ConfidenceSum(fs), |fs| as real, lo, hi);
  }

  lemma LouderOfTwoWins(a: Finding, b: Finding)
    requires SpotOf(a) == SpotOf(b) && a.confidence < b.confidence
    ensures DedupSpec([a, b]) != []
    ensures !FirstBest([a, b], 0)
    ensures forall o :: o in DedupSpec([a, b]) ==> o.confidence == b.confidence
  {
    var merged := [a, b];
    assert SpotOf(merged[0]) == SpotOf(merged[1]);
    forall o | o in DedupSpec(merged) ensures o.confidence == b.confidence {
      var i, _ := DedupKeepsFirstBest(merged, o);
      assert i == 1;
    }
    var o := FirstBestSurvives(merged, 1);
  }

  /** "Any CRITICAL finding escalates" is false of the code: here a CRITICAL
      finding is the less confident of two on one spot, and the review posts. */
  lemma CriticalCanBeDropped() returns (merged: seq<Finding>)
    ensures exists f :: f in merged && f.severity == Critical
    ensures Gate(merged, DEFAULT_CONFIDENCE_THRESHOLD) == AutoPost
  {
    hide DedupSpec, OverallConfidence, Gate;
    var crit := Finding(Security, Critical, "sql-injection", "db.py", Some(7), 0.8, "injection", "");
    var style := Finding(Quality, Low, "naming", "db.py", Some(7), 0.9, "name", "");
    merged := [crit, style];
    assert crit in merged;
    LouderOfTwoWins(crit, style);
    PostsIffConfidentAndNotCritical(merged, DEFAULT_CONFIDENCE_THRESHOLD);
    MeanWithin(DedupSpec(merged), 0.9, 0.9);
  }
}
