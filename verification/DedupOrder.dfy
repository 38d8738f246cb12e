/** When `dedup_findings` depends on the order of its input: the exact condition,
    over all lists and all their permutations. */
module DedupOrder {
  import opened Basics
  import opened StableSort
  import opened Findings
  import opened Dedup

  /** `f` has the greatest confidence on its spot. */
  ghost predicate Best(fs: seq<Finding>, f: Finding) {
    f in fs && forall g :: g in fs && SpotOf(g) == SpotOf(f) ==> g.confidence <= f.confidence
  }

  /** Two different findings share the greatest confidence of one spot. */
  ghost predicate TopTie(fs: seq<Finding>) {
    exists f, g :: Best(fs, f) && Best(fs, g) && f != g && SpotOf(f) == SpotOf(g)
  }

  predicate Tied(f: Finding, g: Finding) {
    FindingLe(f, g) && FindingLe(g, f)
  }

  /** Two survivors have the same sort key: same severity and file, and lines that
      the key does not tell apart. */
  ghost predicate SurvivorsTie(fs: seq<Finding>) {
    exists o, p :: o in DedupSpec(fs) && p in DedupSpec(fs) && o != p && Tied(o, p)
  }

  /** Two most confident findings of their spots agree in severity and file, one
      without a line and one on line 0. */
  ghost predicate ZeroTie(fs: seq<Finding>) {
    exists f, g :: Best(fs, f) && Best(fs, g) && f.severity == g.severity && f.file == g.file
                   && f.line == None && g.line == Some(0)
  }

  ghost predicate OrderFree(fs: seq<Finding>) {
    forall b :: multiset(b) == multiset(fs) ==> DedupSpec(b) == DedupSpec(fs)
  }

  // ---- groups and survivors of a permutation ------------------------------------------

  lemma WinnerIsBest(fs: seq<Finding>, sp: Spot)
    requires Group(fs, sp) != []
    ensures Best(fs, Winner(Group(fs, sp))) && SpotOf(Winner(Group(fs, sp))) == sp
    ensures Winner(Group(fs, sp)) in Group(fs, sp)
  {
    var i := WinnerIsFirstBest(fs, sp);
    GroupMembers(fs, sp);
    assert fs[i] in fs;
    forall g | g in fs && SpotOf(g) == sp ensures g.confidence <= fs[i].confidence {
      var j :| 0 <= j < |fs| && fs[j] == g;
      assert j < i || j == i || i < j;
    }
  }

  lemma SameGroups(a: seq<Finding>, b: seq<Finding>, sp: Spot)
    requires multiset(a) == multiset(b)
    ensures forall f :: f in Group(a, sp) <==> f in Group(b, sp)
    ensures Group(a, sp) != [] <==> Group(b, sp) != []
    ensures forall f :: Best(a, f) <==> Best(b, f)
  {
    GroupMembers(a, sp);
    GroupMembers(b, sp);
    assert forall f :: f in a <==> f in multiset(b);
    assert forall f :: f in b <==> f in multiset(a);
  }

  lemma {:induction false} OthersOfSameMembers(g: seq<Finding>, h: seq<Finding>, except: Agent, names: seq<Agent>)
    requires forall f :: f in g <==> f in h
    ensures OtherAgents(g, except, names) == OtherAgents(h, except, names)
  {
    if names != [] {
      OthersOfSameMembers(g, h, except, names[1..]);
    }
  }

  /** The note is the same for every order of the group and depends on the winner's agent only. */
  lemma SurvivorsCompared(a: seq<Finding>, b: seq<Finding>, sp: Spot)
    requires multiset(a) == multiset(b) && Group(a, sp) != [] && Group(b, sp) != []
    ensures Survivor(Group(a, sp)) == Survivor(Group(b, sp)) <==> Winner(Group(a, sp)) == Winner(Group(b, sp))
  {
    var g, h := Group(a, sp), Group(b, sp);
    SameGroups(a, b, sp);
    WinnerIsBest(a, sp);
    WinnerIsBest(b, sp);
    var m := SurvivorOfGroup(g);
    var n := SurvivorOfGroup(h);
    OthersOfSameMembers(g, h, Winner(g).agent, ALPHABETICAL);
    if Survivor(g) == Survivor(h) {
      assert m == n;
      SameSuffix(Winner(g).rationale, Winner(h).rationale, Note(m));
    }
  }

  lemma SameSuffix(a: string, b: string, note: string)
    requires a + note == b + note
    ensures a == b
  {
    assert |a + note| == |b + note|;
    assert a == (a + note)[..|a|] && b == (b + note)[..|b|];
  }

  lemma DedupPermutes(fs: seq<Finding>)
    ensures forall sp :: sp in Spots(fs) <==> Group(fs, sp) != []
    ensures forall o :: o in DedupSpec(fs) <==> o in Survivors(fs, Spots(fs))
  {
    SpotsAreGroups(fs);
    DedupStablySorted(fs);
    assert multiset(DedupSpec(fs)) == multiset(Survivors(fs, Spots(fs)));
    forall o ensures o in DedupSpec(fs) <==> o in Survivors(fs, Spots(fs)) {
      assert o in DedupSpec(fs) <==> o in multiset(DedupSpec(fs));
    }
  }

  lemma {:induction false} SurvivorMember(fs: seq<Finding>, spots: seq<Spot>, o: Finding)
    requires forall sp :: sp in spots ==> Group(fs, sp) != []
    ensures o in Survivors(fs, spots) <==> SpotOf(o) in spots && o == Survivor(Group(fs, SpotOf(o)))
  {
    if spots != [] {
      var n := |spots| - 1;
      assert spots == spots[..n] + [spots[n]];
      SurvivorMember(fs, spots[..n], o);
      SurvivorStaysOnSpot(fs, spots[n]);
    }
  }

  /** The output holds exactly the survivors of the groups. */
  lemma DedupMembers(fs: seq<Finding>, o: Finding)
    ensures o in DedupSpec(fs) <==> Group(fs, SpotOf(o)) != [] && o == Survivor(Group(fs, SpotOf(o)))
  {
    DedupPermutes(fs);
    SurvivorMember(fs, Spots(fs), o);
  }

  lemma DedupHasNoDuplicates(fs: seq<Finding>)
    ensures NoDuplicates(DedupSpec(fs))
  {
    DedupOnePerSpot(fs);
    var out := DedupSpec(fs);
    forall i, j | 0 <= i < j < |out| ensures out[i] != out[j] {
      assert SpotOf(out[i]) != SpotOf(out[j]);
    }
  }

  // ---- no ties, no dependence ------------------------------------------------------------

  lemma SameSurvivors(a: seq<Finding>, b: seq<Finding>)
    requires multiset(a) == multiset(b) && !TopTie(a)
    ensures multiset(DedupSpec(a)) == multiset(DedupSpec(b))
  {
    forall o ensures o in DedupSpec(a) <==> o in DedupSpec(b) {
      var sp := SpotOf(o);
      DedupMembers(a, o);
      DedupMembers(b, o);
      SameGroups(a, b, sp);
      if Group(a, sp) != [] {
        WinnerIsBest(a, sp);
        WinnerIsBest(b, sp);
        SurvivorsCompared(a, b, sp);
      }
    }
    DedupHasNoDuplicates(a);
    DedupHasNoDuplicates(b);
    SameElementsPermute(DedupSpec(a), DedupSpec(b));
  }

  lemma NoTiesNoDependence(a: seq<Finding>, b: seq<Finding>)
    requires multiset(a) == multiset(b) && !TopTie(a) && !SurvivorsTie(a)
    ensures DedupSpec(a) == DedupSpec(b)
  {
    SameSurvivors(a, b);
    DedupStablySorted(a);
    DedupStablySorted(b);
    FindingLePreorder();
    forall x, y | x in DedupSpec(a) && y in DedupSpec(a) && FindingLe(x, y) && FindingLe(y, x) ensures x == y {
      assert Tied(x, y);
    }
    assert NoTies(DedupSpec(a), FindingLe);
    SortedWithoutTies(DedupSpec(a), DedupSpec(b), FindingLe);
  }

  // ---- every tie matters ---------------------------------------------------------------

  lemma FrontWins(fs: seq<Finding>, k: nat)
    requires k < |fs| && Best(fs, fs[k])
    ensures multiset(ToFront(fs, k)) == multiset(fs)
    ensures Group(ToFront(fs, k), SpotOf(fs[k])) != []
    ensures Winner(Group(ToFront(fs, k), SpotOf(fs[k]))) == fs[k]
  {
    var b, sp := ToFront(fs, k), SpotOf(fs[k]);
    ToFrontPermutes(fs, k);
    SameGroups(fs, b, sp);
    GroupMembers(b, sp);
    assert b[0] == fs[k] && b[0] in b;
    var i := WinnerIsFirstBest(b, sp);
    WinnerIsBest(b, sp);
    assert Best(b, b[0]) && b[i] in b;
    NothingBefore(b, i);
  }

  lemma NothingBefore(fs: seq<Finding>, i: nat)
    requires i < |fs| && FirstBest(fs, i) && SpotOf(fs[0]) == SpotOf(fs[i]) && fs[0].confidence >= fs[i].confidence
    ensures i == 0
  {
  }

  lemma TopTieMatters(fs: seq<Finding>, f: Finding, g: Finding)
    requires Best(fs, f) && Best(fs, g) && f != g && SpotOf(f) == SpotOf(g)
    ensures !OrderFree(fs)
  {
    var i :| 0 <= i < |fs| && fs[i] == f;
    var j :| 0 <= j < |fs| && fs[j] == g;
    var b, c, sp := ToFront(fs, i), ToFront(fs, j), SpotOf(f);
    FrontWins(fs, i);
    FrontWins(fs, j);
    SurvivorsCompared(b, c, sp);
    var o := Survivor(Group(b, sp));
    SurvivorStaysOnSpot(b, sp);
    DedupMembers(b, o);
    DedupMembers(c, o);
    assert DedupSpec(b) != DedupSpec(c);
  }

  lemma {:induction false} FirstSpot(fs: seq<Finding>)
    requires fs != []
    ensures Spots(fs) != [] && Spots(fs)[0] == SpotOf(fs[0])
  {
    if |fs| > 1 {
      FirstSpot(fs[..|fs| - 1]);
    }
  }

  /** A survivor whose spot is the first to appear leads its ties. */
  lemma FirstSpotLeads(b: seq<Finding>, o: Finding)
    requires b != [] && o in DedupSpec(b) && SpotOf(b[0]) == SpotOf(o)
    ensures Peers(DedupSpec(b), o, FindingLe) != [] && Peers(DedupSpec(b), o, FindingLe)[0] == o
  {
    FirstSpot(b);
    DedupStablySorted(b);
    SurvivorsFollowSpots(b, Spots(b));
    DedupMembers(b, o);
    FindingLePreorder();
    var survivors := Survivors(b, Spots(b));
    assert survivors[0] == o && FindingLe(o, o);
    assert Peers(survivors, o, FindingLe)[0] == o;
  }

  lemma SurvivorLeadsSomewhere(fs: seq<Finding>, o: Finding)
    requires OrderFree(fs) && o in DedupSpec(fs)
    ensures Peers(DedupSpec(fs), o, FindingLe) != [] && Peers(DedupSpec(fs), o, FindingLe)[0] == o
  {
    DedupMembers(fs, o);
    GroupMembers(fs, SpotOf(o));
    var x :| x in fs && SpotOf(x) == SpotOf(o);
    var k :| 0 <= k < |fs| && fs[k] == x;
    ToFrontPermutes(fs, k);
    FirstSpotLeads(ToFront(fs, k), o);
  }

  lemma SurvivorsTieMatters(fs: seq<Finding>, o: Finding, p: Finding)
    requires o in DedupSpec(fs) && p in DedupSpec(fs) && o != p && Tied(o, p)
    ensures !OrderFree(fs)
  {
    if OrderFree(fs) {
      SurvivorLeadsSomewhere(fs, o);
      SurvivorLeadsSomewhere(fs, p);
      FindingLePreorder();
      PeersOfTied(DedupSpec(fs), o, p, FindingLe);
    }
  }

  /** Said of the output: no spot has two different most confident findings and
      no two survivors share their sort key. */
  lemma OrderFreeIffSurvivors(fs: seq<Finding>)
    ensures OrderFree(fs) <==> !TopTie(fs) && !SurvivorsTie(fs)
  {
    if !TopTie(fs) && !SurvivorsTie(fs) {
      forall b | multiset(b) == multiset(fs) ensures DedupSpec(b) == DedupSpec(fs) {
        NoTiesNoDependence(fs, b);
      }
    } else if TopTie(fs) {
      var f, g :| Best(fs, f) && Best(fs, g) && f != g && SpotOf(f) == SpotOf(g);
      TopTieMatters(fs, f, g);
    } else {
      var o, p :| o in DedupSpec(fs) && p in DedupSpec(fs) && o != p && Tied(o, p);
      SurvivorsTieMatters(fs, o, p);
    }
  }

  /** Sort keys of survivors only tie for one file with a finding on line 0 and
      one without a line. */
  lemma TiedSurvivors(fs: seq<Finding>, o: Finding, p: Finding)
    requires o in DedupSpec(fs) && p in DedupSpec(fs) && o != p
    ensures Tied(o, p) <==>
            && o.severity == p.severity && o.file == p.file
            && ((o.line == None && p.line == Some(0)) || (o.line == Some(0) && p.line == None))
  {
    DedupMembers(fs, o);
    DedupMembers(fs, p);
    StringLeTotal(o.file, p.file);
    RanksDiffer(o.severity, p.severity);
  }

  lemma RanksDiffer(s: Severity, t: Severity)
    ensures Rank(s) == Rank(t) <==> s == t
  {
  }

  // ---- the condition on the input -----------------------------------------------------------

  /** A survivor stands where its winner stood. */
  lemma SurvivorOfBest(fs: seq<Finding>, f: Finding) returns (o: Finding)
    requires Best(fs, f) && !TopTie(fs)
    ensures o in DedupSpec(fs) && SpotOf(o) == SpotOf(f) && o.severity == f.severity
  {
    var sp := SpotOf(f);
    GroupMembers(fs, sp);
    WinnerIsBest(fs, sp);
    assert Winner(Group(fs, sp)) == f;
    o := Survivor(Group(fs, sp));
    var others := SurvivorOfGroup(Group(fs, sp));
    DedupMembers(fs, o);
  }

  lemma BestOfSurvivor(fs: seq<Finding>, o: Finding) returns (f: Finding)
    requires o in DedupSpec(fs)
    ensures Best(fs, f) && SpotOf(f) == SpotOf(o) && f.severity == o.severity
  {
    var sp := SpotOf(o);
    DedupMembers(fs, o);
    WinnerIsBest(fs, sp);
    f := Winner(Group(fs, sp));
    var others := SurvivorOfGroup(Group(fs, sp));
  }

  lemma SurvivorsTieIffZeroTie(fs: seq<Finding>)
    requires !TopTie(fs)
    ensures SurvivorsTie(fs) <==> ZeroTie(fs)
  {
    if SurvivorsTie(fs) {
      var o, p :| o in DedupSpec(fs) && p in DedupSpec(fs) && o != p && Tied(o, p);
      TiedSurvivors(fs, o, p);
      var f := BestOfSurvivor(fs, o);
      var g := BestOfSurvivor(fs, p);
    }
    if ZeroTie(fs) {
      var f, g :| Best(fs, f) && Best(fs, g) && f.severity == g.severity && f.file == g.file
                  && f.line == None && g.line == Some(0);
      var o := SurvivorOfBest(fs, f);
      var p := SurvivorOfBest(fs, g);
      assert o.line == None && p.line == Some(0);
      TiedSurvivors(fs, o, p);
    }
  }

  /** Deduplication gives one result for every order of a list if and only if no
      spot has two different most confident findings, and no two most confident
      findings of one severity and file have no line and line 0. */
  lemma OrderFreeIff(fs: seq<Finding>)
    ensures OrderFree(fs) <==> !TopTie(fs) && !ZeroTie(fs)
  {
    OrderFreeIffSurvivors(fs);
    if !TopTie(fs) {
      SurvivorsTieIffZeroTie(fs);
    }
  }
}
