/** The join of `orchestrator/graph.py`: four specialists append their results
    to one channel in any order; the aggregate node reads them by name. */
module Fanout {
  import opened Basics
  import opened Findings
  import opened Dedup

  /** One element of the `specialist_results` channel. */
  datatype Result = Result(agent: Agent, findings: seq<Finding>)

  const SPECIALIST_NAMES: seq<Agent> := [Security, Quality, Tests, Docs]

  function AgentOf(r: Result): Agent {
    r.agent
  }

  /** The findings of the last result of `agent`, none if it has no result. */
  function ByAgent(results: seq<Result>, agent: Agent): seq<Finding> {
    if results == [] then []
    else if results[|results| - 1].agent == agent then results[|results| - 1].findings
    else ByAgent(results[..|results| - 1], agent)
  }

  function MergedOver(results: seq<Result>, names: seq<Agent>): seq<Finding> {
    if names == [] then []
    else MergedOver(results, names[..|names| - 1]) + ByAgent(results, names[|names| - 1])
  }

  /** The list the aggregate node deduplicates. */
  function Merged(results: seq<Result>): seq<Finding> {
    MergedOver(results, SPECIALIST_NAMES)
  }

  method MergeResults(results: seq<Result>, names: seq<Agent>) returns (merged: seq<Finding>)
    ensures merged == MergedOver(results, names)
  {
    var byAgent: map<Agent, seq<Finding>> := map[];
    for i := 0 to |results|
      invariant forall a :: ByAgent(results[..i], a) == if a in byAgent then byAgent[a] else []
    {
      assert results[..i + 1][..i] == results[..i];
      byAgent := byAgent[results[i].agent := results[i].findings];
    }
    assert results[..|results|] == results;
    merged := [];
    for k := 0 to |names|
      invariant merged == MergedOver(results, names[..k])
    {
      assert names[..k + 1][..k] == names[..k];
      merged := merged + (if names[k] in byAgent then byAgent[names[k]] else []);
    }
    assert names[..|names|] == names;
  }

  // ---- what the joined list holds --------------------------------------------------

  /** `fs` is what the last result of `agent` holds, nothing if it has no result. */
  ghost predicate LastSays(results: seq<Result>, agent: Agent, fs: seq<Finding>) {
    || (fs == [] && forall r :: r in results ==> r.agent != agent)
    || exists i :: 0 <= i < |results| && results[i] == Result(agent, fs)
                   && forall j :: i < j < |results| ==> results[j].agent != agent
  }

  lemma {:induction false} ByAgentIsLast(results: seq<Result>, agent: Agent, fs: seq<Finding>)
    requires LastSays(results, agent, fs)
    ensures ByAgent(results, agent) == fs
  {
    if results != [] {
      var n := |results| - 1;
      if results[n].agent != agent {
        var front := results[..n];
        assert forall r :: r in front ==> r in results;
        if i :| 0 <= i < |results| && results[i] == Result(agent, fs)
                && forall j :: i < j < |results| ==> results[j].agent != agent {
          assert front[i] == Result(agent, fs);
        }
        ByAgentIsLast(front, agent, fs);
      } else {
        assert results[n] in results;
      }
    }
  }

  lemma MergedOverSnoc(results: seq<Result>, names: seq<Agent>, last: Agent)
    ensures MergedOver(results, names + [last]) == MergedOver(results, names) + ByAgent(results, last)
  {
    assert (names + [last])[..|names|] == names;
  }

  lemma MergedOverTwo(results: seq<Result>, names: seq<Agent>, a: Agent, b: Agent)
    ensures MergedOver(results, names + [a, b]) == MergedOver(results, names) + ByAgent(results, a) + ByAgent(results, b)
  {
    hide MergedOver, ByAgent;
    MergedOverSnoc(results, names, a);
    MergedOverSnoc(results, names + [a], b);
    assert names + [a] + [b] == names + [a, b];
  }

  lemma MergedUnfolds(results: seq<Result>)
    ensures Merged(results) == ByAgent(results, Security) + ByAgent(results, Quality)
                               + ByAgent(results, Tests) + ByAgent(results, Docs)
  {
    hide ByAgent;
    MergedOverTwo(results, [], Security, Quality);
    MergedOverTwo(results, [Security, Quality], Tests, Docs);
    assert [] + [Security, Quality] == [Security, Quality];
    assert [Security, Quality] + [Tests, Docs] == SPECIALIST_NAMES;
  }

  /** The joined list is what security, quality, tests and docs said last, one
      after the other; each one's findings keep their order. */
  lemma MergedIs(results: seq<Result>, security: seq<Finding>, quality: seq<Finding>, tests: seq<Finding>, docs: seq<Finding>)
    requires LastSays(results, Security, security) && LastSays(results, Quality, quality)
    requires LastSays(results, Tests, tests) && LastSays(results, Docs, docs)
    ensures Merged(results) == security + quality + tests + docs
  {
    MergedUnfolds(results);
    ByAgentIsLast(results, Security, security);
    ByAgentIsLast(results, Quality, quality);
    ByAgentIsLast(results, Tests, tests);
    ByAgentIsLast(results, Docs, docs);
  }

  /** All findings in the order in which the results arrived. */
  function Arrived(results: seq<Result>): seq<Finding> {
    Flatten(seq(|results|, i requires 0 <= i < |results| => results[i].findings))
  }

  lemma ArrivedSnoc(results: seq<Result>)
    requires results != []
    ensures var n := |results| - 1;
      Arrived(results) == Arrived(results[..n]) + results[n].findings
  {
    var n := |results| - 1;
    var lists := seq(|results|, i requires 0 <= i < |results| => results[i].findings);
    FlattenAppend(lists[..n], [lists[n]]);
    assert lists == lists[..n] + [lists[n]];
    assert lists[..n] == seq(|results[..n]|, i requires 0 <= i < |results[..n]| => results[..n][i].findings);
    assert Flatten([lists[n]]) == lists[n] + Flatten([lists[n]][1..]);
  }

  /** With one result an agent nothing is lost and nothing repeated. */
  lemma {:induction false} EveryFindingMergedOnce(results: seq<Result>)
    requires DistinctKeys(results, AgentOf)
    ensures multiset(Merged(results)) == multiset(Arrived(results))
  {
    MergedUnfolds(results);
    if results != [] {
      var n := |results| - 1;
      var front := results[..n];
      EveryFindingMergedOnce(front);
      MergedUnfolds(front);
      ArrivedSnoc(results);
      forall r | r in front ensures r.agent != results[n].agent {
        var i :| 0 <= i < n && front[i] == r;
        assert AgentOf(results[i]) != AgentOf(results[n]);
      }
      ByAgentAbsent(front, results[n].agent);
    }
  }

  lemma {:induction false} ArrivedMembers(results: seq<Result>, f: Finding)
    ensures f in Arrived(results) <==> exists r :: r in results && f in r.findings
  {
    if results != [] {
      var n := |results| - 1;
      ArrivedSnoc(results);
      ArrivedMembers(results[..n], f);
      assert results == results[..n] + [results[n]];
      if f in results[n].findings {
        assert results[n] in results;
      }
    }
  }

  /** Nothing said about the spot of `f`, other than `f`, is as confident. */
  ghost predicate Unbeaten(results: seq<Result>, f: Finding) {
    forall r, g :: r in results && g in r.findings && SpotOf(g) == SpotOf(f) ==> g == f || g.confidence < f.confidence
  }

  /** A CRITICAL finding of any specialist that nobody tops on its spot escalates
      the review. */
  lemma CriticalEscalates(results: seq<Result>, r: Result, f: Finding, threshold: real)
    requires DistinctKeys(results, AgentOf) && r in results && f in r.findings && f.severity == Critical
    requires Unbeaten(results, f)
    ensures Gate(Merged(results), threshold) == Escalated
  {
    hide Gate;
    var merged := Merged(results);
    EveryFindingMergedOnce(results);
    ArrivedMembers(results, f);
    assert f in multiset(merged);
    var i := FirstIndex(merged, f);
    forall j | 0 <= j < |merged| && SpotOf(merged[j]) == SpotOf(f)
      ensures merged[j] == f || merged[j].confidence < f.confidence
    {
      assert merged[j] in multiset(Arrived(results));
      ArrivedMembers(results, merged[j]);
    }
    assert FirstBest(merged, i);
    EscalatesIffCriticalIsFirstBest(merged, threshold);
  }

  lemma NothingMerged(results: seq<Result>)
    requires DistinctKeys(results, AgentOf)
    ensures Merged(results) == [] <==> forall r :: r in results ==> r.findings == []
  {
    EveryFindingMergedOnce(results);
    assert Merged(results) == [] <==> multiset(Merged(results)) == multiset([]);
    if r :| r in results && r.findings != [] {
      ArrivedMembers(results, r.findings[0]);
      assert r.findings[0] in multiset(Arrived(results));
    } else if Arrived(results) != [] {
      ArrivedMembers(results, Arrived(results)[0]);
    }
  }

  lemma {:induction false} FirstIndex(fs: seq<Finding>, f: Finding) returns (i: nat)
    requires f in fs
    ensures i < |fs| && fs[i] == f && forall j :: 0 <= j < i ==> fs[j] != f
  {
    if fs[0] == f {
      i := 0;
    } else {
      i := FirstIndex(fs[1..], f);
      i := i + 1;
    }
  }

  // ---- schedule independence -------------------------------------------------------

  lemma {:induction false} ByAgentFinds(results: seq<Result>, i: nat)
    requires i < |results| && DistinctKeys(results, AgentOf)
    ensures ByAgent(results, results[i].agent) == results[i].findings
  {
    var n := |results| - 1;
    if i < n {
      assert AgentOf(results[i]) != AgentOf(results[n]);
      ByAgentFinds(results[..n], i);
    }
  }

  lemma {:induction false} ByAgentAbsent(results: seq<Result>, agent: Agent)
    requires forall r :: r in results ==> r.agent != agent
    ensures ByAgent(results, agent) == []
  {
    if results != [] {
      ByAgentAbsent(results[..|results| - 1], agent);
    }
  }

  lemma ByAgentPermutes(a: seq<Result>, b: seq<Result>, agent: Agent)
    requires multiset(a) == multiset(b) && DistinctKeys(a, AgentOf)
    ensures ByAgent(a, agent) == ByAgent(b, agent)
  {
    DistinctKeysPermute(a, b, AgentOf);
    if i :| 0 <= i < |a| && a[i].agent == agent {
      assert a[i] in multiset(b);
      var j :| 0 <= j < |b| && b[j] == a[i];
      ByAgentFinds(a, i);
      ByAgentFinds(b, j);
    } else {
      forall r | r in b ensures r.agent != agent {
        assert r in multiset(a);
      }
      ByAgentAbsent(a, agent);
      ByAgentAbsent(b, agent);
    }
  }

  lemma {:induction false} MergedOverPermutes(a: seq<Result>, b: seq<Result>, names: seq<Agent>)
    requires multiset(a) == multiset(b) && DistinctKeys(a, AgentOf)
    ensures MergedOver(a, names) == MergedOver(b, names)
  {
    if names != [] {
      MergedOverPermutes(a, b, names[..|names| - 1]);
      ByAgentPermutes(a, b, names[|names| - 1]);
    }
  }

  /** The order in which the specialists finish changes nothing the aggregate
      node computes: not the merged list, so not the deduplicated list, the
      score, the decision or the body. */
  lemma ScheduleIndependent(a: seq<Result>, b: seq<Result>, threshold: real)
    requires multiset(a) == multiset(b) && DistinctKeys(a, AgentOf)
    ensures Merged(a) == Merged(b)
    ensures DedupSpec(Merged(a)) == DedupSpec(Merged(b)) && Gate(Merged(a), threshold) == Gate(Merged(b), threshold)
  {
    MergedOverPermutes(a, b, SPECIALIST_NAMES);
  }

  /** Joining by name is what buys this: deduplication by itself depends on the
      order of two equally confident findings on one spot. */
  lemma DedupAloneIsOrderSensitive() returns (a: seq<Finding>, b: seq<Finding>)
    ensures multiset(a) == multiset(b) && DedupSpec(a) != DedupSpec(b)
  {
    var f := Finding(Security, High, "x", "m.py", Some(1), 0.9, "f", "");
    var g := Finding(Tests, Low, "y", "m.py", Some(1), 0.9, "g", "");
    a, b := [f, g], [g, f];
    assert SpotOf(a[0]) == SpotOf(a[1]);
    assert FirstBest(a, 0) && FirstBest(b, 0);
    assert !FirstBest(b, 1);
    var o := FirstBestSurvives(a, 0);
    if DedupSpec(a) == DedupSpec(b) {
      var i, _ := DedupKeepsFirstBest(b, o);
    }
  }
}
