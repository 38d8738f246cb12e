/** `evaluation/scorer.py`: greedy scoring of one golden case. */
module Scorer {
  import opened Basics
  import opened Findings

  datatype Expected = Expected(
    agent: Agent,
    file: string,
    line: Option<int>,
    tolerance: int,
    categoryContains: Option<string>,
    rationaleContains: Option<string>,
    name: string)

  predicate OccursAt(text: string, part: string, i: int) {
    0 <= i <= |text| - |part| && text[i..i + |part|] == part
  }

  predicate Contains(text: string, part: string) {
    exists i :: 0 <= i <= |text| && OccursAt(text, part, i)
  }

  function Abs(i: int): int {
    if i < 0 then -i else i
  }

  /** `lower` is the case folding of the string library. */
  predicate Matches(e: Expected, f: Finding, lower: string -> string) {
    && f.agent == e.agent
    && f.file == e.file
    && (e.line.Some? && f.line.Some? ==> Abs(f.line.value - e.line.value) <= e.tolerance)
    && (e.categoryContains.Some? ==> Contains(lower(f.category), lower(e.categoryContains.value)))
    && (e.rationaleContains.Some? ==> Contains(lower(f.title + "\n" + f.rationale), lower(e.rationaleContains.value)))
  }

  // ---- greedy matching, over any relation ----------------------------------------

  /** Index of the first element of `pool` that `e` matches, |pool| if none. */
  function FirstHit<E, F>(e: E, pool: seq<F>, hit: (E, F) -> bool): (k: nat)
    ensures k <= |pool|
    ensures k < |pool| ==> hit(e, pool[k])
    ensures forall j :: 0 <= j < k ==> !hit(e, pool[j])
  {
    FirstHitFrom(e, pool, 0, hit)
  }

  function FirstHitFrom<E, F>(e: E, pool: seq<F>, i: nat, hit: (E, F) -> bool): (k: nat)
    requires i <= |pool|
    ensures i <= k <= |pool|
    ensures k < |pool| ==> hit(e, pool[k])
    ensures forall j :: i <= j < k ==> !hit(e, pool[j])
    decreases |pool| - i
  {
    if i == |pool| || hit(e, pool[i]) then i else FirstHitFrom(e, pool, i + 1, hit)
  }

  function Without<F>(pool: seq<F>, k: nat): seq<F>
    requires k < |pool|
  {
    pool[..k] + pool[k + 1..]
  }

  /** Each expected element in turn takes the first remaining one it matches. */
  function Greedy<E, F>(expected: seq<E>, pool: seq<F>, hit: (E, F) -> bool): nat {
    if expected == [] then 0
    else
      var k := FirstHit(expected[0], pool, hit);
      if k == |pool| then Greedy(expected[1..], pool, hit)
      else 1 + Greedy(expected[1..], Without(pool, k), hit)
  }

  /** `assign[i]` is the partner of `expected[i]`, or -1. */
  ghost predicate Matching<E, F>(expected: seq<E>, pool: seq<F>, assign: seq<int>, hit: (E, F) -> bool) {
    && |assign| == |expected|
    && (forall i :: 0 <= i < |assign| && assign[i] != -1 ==> 0 <= assign[i] < |pool| && hit(expected[i], pool[assign[i]]))
    && (forall i, j :: 0 <= i < j < |assign| && assign[i] != -1 ==> assign[i] != assign[j])
  }

  /** In turn, each expected element has the first partner that no earlier one took;
      one without a partner matches nothing that is still free. */
  ghost predicate FirstFree<E, F>(expected: seq<E>, pool: seq<F>, assign: seq<int>, hit: (E, F) -> bool) {
    && Matching(expected, pool, assign, hit)
    && forall i, j :: 0 <= i < |assign| && 0 <= j < |pool| && hit(expected[i], pool[j]) && (assign[i] == -1 || j < assign[i])
         ==> TakenBefore(assign, i, j)
  }

  ghost predicate TakenBefore(assign: seq<int>, i: nat, j: nat) {
    exists earlier :: 0 <= earlier < i && earlier < |assign| && assign[earlier] == j
  }

  function Size(assign: seq<int>): nat {
    if assign == [] then 0 else (if assign[0] != -1 then 1 else 0) + Size(assign[1..])
  }

  /** The same pairs after element `k` has left the pool. */
  function Drop(assign: seq<int>, k: nat): seq<int> {
    if assign == [] then []
    else [if assign[0] == k then -1 else if assign[0] > k then assign[0] - 1 else assign[0]] + Drop(assign[1..], k)
  }

  lemma {:induction false} DropAt(assign: seq<int>, k: nat)
    ensures |Drop(assign, k)| == |assign|
    ensures forall i :: 0 <= i < |assign| ==>
              Drop(assign, k)[i] == if assign[i] == k then -1 else if assign[i] > k then assign[i] - 1 else assign[i]
  {
    if assign != [] {
      DropAt(assign[1..], k);
    }
  }

  lemma {:induction false} DropLosesOne(assign: seq<int>, k: nat)
    requires forall i :: 0 <= i < |assign| ==> assign[i] >= -1
    requires forall i, j :: 0 <= i < j < |assign| && assign[i] != -1 ==> assign[i] != assign[j]
    ensures Size(Drop(assign, k)) >= Size(assign) - if k in assign then 1 else 0
  {
    if assign != [] {
      assert assign == [assign[0]] + assign[1..];
      DropLosesOne(assign[1..], k);
    }
  }

  lemma DropIsMatching<E, F>(expected: seq<E>, pool: seq<F>, assign: seq<int>, k: nat, hit: (E, F) -> bool)
    requires Matching(expected, pool, assign, hit) && k < |pool|
    ensures Matching(expected, Without(pool, k), Drop(assign, k), hit)
    ensures Size(Drop(assign, k)) >= Size(assign) - 1
  {
    hide Drop, Size;
    DropAt(assign, k);
    DropLosesOne(assign, k);
  }

  /** The greedy count is at least half of every matching: no way of pairing
      expected and actual findings scores more than twice as high. */
  lemma {:induction false} GreedyIsHalfOptimal<E, F>(expected: seq<E>, pool: seq<F>, assign: seq<int>, hit: (E, F) -> bool)
    requires Matching(expected, pool, assign, hit)
    ensures Size(assign) <= 2 * Greedy(expected, pool, hit)
  {
    if expected != [] {
      var k := FirstHit(expected[0], pool, hit);
      var rest := assign[1..];
      assert Matching(expected[1..], pool, rest, hit);
      if k == |pool| {
        GreedyIsHalfOptimal(expected[1..], pool, rest, hit);
      } else {
        DropIsMatching(expected[1..], pool, rest, k, hit);
        GreedyIsHalfOptimal(expected[1..], Without(pool, k), Drop(rest, k), hit);
      }
    }
  }

  /** Undo `Drop`: indices at or above `k` move up by one. */
  function Lift(assign: seq<int>, k: nat): seq<int> {
    seq(|assign|, i requires 0 <= i < |assign| => if assign[i] >= k then assign[i] + 1 else assign[i])
  }

  lemma {:induction false} LiftSize(assign: seq<int>, k: nat)
    ensures Size(Lift(assign, k)) == Size(assign)
  {
    if assign != [] {
      assert Lift(assign, k)[1..] == Lift(assign[1..], k);
      LiftSize(assign[1..], k);
    }
  }

  lemma PrependUnmatched<E, F>(expected: seq<E>, pool: seq<F>, rest: seq<int>, hit: (E, F) -> bool)
    requires expected != [] && FirstFree(expected[1..], pool, rest, hit)
    requires forall j :: 0 <= j < |pool| ==> !hit(expected[0], pool[j])
    ensures FirstFree(expected, pool, [-1] + rest, hit) && Size([-1] + rest) == Size(rest)
  {
    var assign := [-1] + rest;
    assert assign[1..] == rest;
    forall i | 0 <= i < |assign| && assign[i] != -1
      ensures 0 <= assign[i] < |pool| && hit(expected[i], pool[assign[i]])
    {
      assert assign[i] == rest[i - 1] && expected[i] == expected[1..][i - 1];
    }
    forall i, j | 0 <= i < |assign| && 0 <= j < |pool| && hit(expected[i], pool[j]) && (assign[i] == -1 || j < assign[i])
      ensures TakenBefore(assign, i, j)
    {
      assert expected[i] == expected[1..][i - 1] && TakenBefore(rest, i - 1, j);
      var earlier :| 0 <= earlier < i - 1 && earlier < |rest| && rest[earlier] == j;
      assert assign[earlier + 1] == j;
    }
  }

  lemma PrependedFirst<E, F>(expected: seq<E>, pool: seq<F>, rest: seq<int>, k: nat, i: nat, j: nat, hit: (E, F) -> bool)
    requires expected != [] && k < |pool| && FirstFree(expected[1..], Without(pool, k), rest, hit)
    requires forall m :: 0 <= m < k ==> !hit(expected[0], pool[m])
    requires i < |expected| && j < |pool| && hit(expected[i], pool[j])
    requires |rest| == |expected| - 1
    requires var assign := [k] + Lift(rest, k); assign[i] == -1 || j < assign[i]
    ensures TakenBefore([k] + Lift(rest, k), i, j)
  {
    var assign := [k] + Lift(rest, k);
    if j == k {
      assert assign[0] == j;
    } else {
      var j' := if j < k then j else j - 1;
      assert expected[i] == expected[1..][i - 1] && Without(pool, k)[j'] == pool[j];
      assert assign[i] == Lift(rest, k)[i - 1];
      assert TakenBefore(rest, i - 1, j');
      var earlier :| 0 <= earlier < i - 1 && earlier < |rest| && rest[earlier] == j';
      assert assign[earlier + 1] == Lift(rest, k)[earlier] == j;
    }
  }

  lemma PrependMatched<E, F>(expected: seq<E>, pool: seq<F>, rest: seq<int>, k: nat, hit: (E, F) -> bool)
    requires expected != [] && k < |pool| && hit(expected[0], pool[k])
    requires forall m :: 0 <= m < k ==> !hit(expected[0], pool[m])
    requires FirstFree(expected[1..], Without(pool, k), rest, hit)
    ensures FirstFree(expected, pool, [k] + Lift(rest, k), hit) && Size([k] + Lift(rest, k)) == 1 + Size(rest)
  {
    var assign := [k] + Lift(rest, k);
    LiftSize(rest, k);
    assert assign[1..] == Lift(rest, k);
    forall i | 0 <= i < |assign| && assign[i] != -1
      ensures 0 <= assign[i] < |pool| && hit(expected[i], pool[assign[i]]) && (i > 0 ==> assign[i] != k)
    {
      if i > 0 {
        assert assign[i] == Lift(rest, k)[i - 1] && expected[i] == expected[1..][i - 1];
      }
    }
    forall i, j | 0 <= i < j < |assign| && assign[i] != -1 ensures assign[i] != assign[j] {
      if i > 0 {
        assert assign[i] == Lift(rest, k)[i - 1] && assign[j] == Lift(rest, k)[j - 1];
      }
    }
    forall i, j | 0 <= i < |assign| && 0 <= j < |pool| && hit(expected[i], pool[j]) && (assign[i] == -1 || j < assign[i])
      ensures TakenBefore(assign, i, j)
    {
      PrependedFirst(expected, pool, rest, k, i, j, hit);
    }
  }

  /** The greedy count is the size of a matching, so no finding is counted twice
      and the count never exceeds the optimum; the matching is the one that takes,
      in turn, the first free partner. */
  lemma {:induction false} GreedyIsMatching<E, F>(expected: seq<E>, pool: seq<F>, hit: (E, F) -> bool)
    returns (assign: seq<int>)
    ensures Matching(expected, pool, assign, hit) && Size(assign) == Greedy(expected, pool, hit)
    ensures FirstFree(expected, pool, assign, hit)
  {
    if expected == [] {
      assign := [];
    } else {
      var k := FirstHit(expected[0], pool, hit);
      if k == |pool| {
        var rest := GreedyIsMatching(expected[1..], pool, hit);
        PrependUnmatched(expected, pool, rest, hit);
        assign := [-1] + rest;
      } else {
        var rest := GreedyIsMatching(expected[1..], Without(pool, k), hit);
        PrependMatched(expected, pool, rest, k, hit);
        assign := [k] + Lift(rest, k);
      }
    }
  }

  // ---- one finding more ----------------------------------------------------------------

  function WithExtra<F>(pool: seq<F>, p: nat, x: F): seq<F>
    requires p <= |pool|
  {
    pool[..p] + [x] + pool[p..]
  }

  lemma FirstHitIs<E, F>(e: E, pool: seq<F>, k: nat, hit: (E, F) -> bool)
    requires k <= |pool| && (k < |pool| ==> hit(e, pool[k]))
    requires forall j :: 0 <= j < k ==> !hit(e, pool[j])
    ensures FirstHit(e, pool, hit) == k
  {
  }

  lemma ExtraAt<F>(pool: seq<F>, p: nat, x: F, j: nat)
    requires p <= |pool| && j <= |pool|
    ensures WithExtra(pool, p, x)[j] == if j < p then pool[j] else if j == p then x else pool[j - 1]
  {
  }

  lemma FirstHitBeforeExtra<E, F>(e: E, pool: seq<F>, p: nat, x: F, hit: (E, F) -> bool)
    requires p <= |pool| && FirstHit(e, pool, hit) < p
    ensures FirstHit(e, WithExtra(pool, p, x), hit) == FirstHit(e, pool, hit)
  {
    var k, big := FirstHit(e, pool, hit), WithExtra(pool, p, x);
    assert big[..p] == pool[..p];
    assert forall j :: 0 <= j <= k ==> big[j] == big[..p][j] && pool[j] == pool[..p][j];
    FirstHitIs(e, big, k, hit);
  }

  lemma FirstHitIsExtra<E, F>(e: E, pool: seq<F>, p: nat, x: F, hit: (E, F) -> bool)
    requires p <= |pool| && FirstHit(e, pool, hit) >= p && hit(e, x)
    ensures FirstHit(e, WithExtra(pool, p, x), hit) == p
  {
    var big := WithExtra(pool, p, x);
    assert big[..p] == pool[..p];
    assert forall j :: 0 <= j < p ==> big[j] == big[..p][j] && pool[j] == pool[..p][j];
    FirstHitIs(e, big, p, hit);
  }

  lemma NoEarlierHit<E, F>(e: E, pool: seq<F>, p: nat, x: F, k: nat, hit: (E, F) -> bool)
    requires p <= k <= |pool| && !hit(e, x) && forall j :: 0 <= j < k ==> !hit(e, pool[j])
    ensures forall j :: 0 <= j < k + 1 ==> !hit(e, WithExtra(pool, p, x)[j])
  {
    forall j | 0 <= j < k + 1 ensures !hit(e, WithExtra(pool, p, x)[j]) {
      ExtraAt(pool, p, x, j);
    }
  }

  lemma FirstHitAfterExtra<E, F>(e: E, pool: seq<F>, p: nat, x: F, hit: (E, F) -> bool)
    requires p <= |pool| && FirstHit(e, pool, hit) >= p && !hit(e, x)
    ensures FirstHit(e, WithExtra(pool, p, x), hit) == FirstHit(e, pool, hit) + 1
  {
    var k, big := FirstHit(e, pool, hit), WithExtra(pool, p, x);
    NoEarlierHit(e, pool, p, x, k, hit);
    if k < |pool| {
      ExtraAt(pool, p, x, k + 1);
    }
    FirstHitIs(e, big, k + 1, hit);
  }

  lemma WithoutBeforeExtra<F>(pool: seq<F>, p: nat, x: F, k: nat)
    requires k < p <= |pool|
    ensures Without(WithExtra(pool, p, x), k) == WithExtra(Without(pool, k), p - 1, x)
  {
  }

  lemma WithoutAfterExtra<F>(pool: seq<F>, p: nat, x: F, k: nat)
    requires p <= k < |pool|
    ensures Without(WithExtra(pool, p, x), k + 1) == WithExtra(Without(pool, k), p, x)
  {
  }

  lemma BackIn<F>(pool: seq<F>, k: nat)
    requires k < |pool|
    ensures pool == WithExtra(Without(pool, k), k, pool[k])
  {
  }

  lemma WithoutTheExtra<F>(pool: seq<F>, p: nat, x: F)
    requires p <= |pool|
    ensures Without(WithExtra(pool, p, x), p) == pool
  {
  }

  predicate AtMostOneMore<E, F>(expected: seq<E>, pool: seq<F>, p: nat, x: F, hit: (E, F) -> bool)
    requires p <= |pool|
  {
    Greedy(expected, pool, hit) <= Greedy(expected, WithExtra(pool, p, x), hit) <= Greedy(expected, pool, hit) + 1
  }

  lemma MoreBeforeExtra<E, F>(expected: seq<E>, pool: seq<F>, p: nat, x: F, k: nat, hit: (E, F) -> bool)
    requires p <= |pool| && expected != [] && k == FirstHit(expected[0], pool, hit) < p
    requires AtMostOneMore(expected[1..], Without(pool, k), p - 1, x, hit)
    ensures AtMostOneMore(expected, pool, p, x, hit)
  {
    FirstHitBeforeExtra(expected[0], pool, p, x, hit);
    WithoutBeforeExtra(pool, p, x, k);
  }

  lemma MoreAtExtra<E, F>(expected: seq<E>, pool: seq<F>, p: nat, x: F, k: nat, hit: (E, F) -> bool)
    requires p <= |pool| && expected != [] && k == FirstHit(expected[0], pool, hit) >= p && hit(expected[0], x)
    requires k < |pool| ==> AtMostOneMore(expected[1..], Without(pool, k), k, pool[k], hit)
    ensures AtMostOneMore(expected, pool, p, x, hit)
  {
    FirstHitIsExtra(expected[0], pool, p, x, hit);
    WithoutTheExtra(pool, p, x);
    if k < |pool| {
      BackIn(pool, k);
    }
  }

  lemma MoreAfterExtra<E, F>(expected: seq<E>, pool: seq<F>, p: nat, x: F, k: nat, hit: (E, F) -> bool)
    requires p <= |pool| && expected != [] && k == FirstHit(expected[0], pool, hit) >= p && !hit(expected[0], x)
    requires if k < |pool| then AtMostOneMore(expected[1..], Without(pool, k), p, x, hit)
             else AtMostOneMore(expected[1..], pool, p, x, hit)
    ensures AtMostOneMore(expected, pool, p, x, hit)
  {
    FirstHitAfterExtra(expected[0], pool, p, x, hit);
    if k < |pool| {
      WithoutAfterExtra(pool, p, x, k);
    }
  }

  /** One extra finding, wherever it stands among the others, raises the greedy
      count by one or not at all. */
  lemma {:induction false} ExtraFindingAddsAtMostOne<E, F>(expected: seq<E>, pool: seq<F>, p: nat, x: F, hit: (E, F) -> bool)
    requires p <= |pool|
    ensures Greedy(expected, pool, hit) <= Greedy(expected, WithExtra(pool, p, x), hit) <= Greedy(expected, pool, hit) + 1
    decreases |expected|
  {
    if expected != [] {
      var e, rest := expected[0], expected[1..];
      var k := FirstHit(e, pool, hit);
      if k < p {
        ExtraFindingAddsAtMostOne(rest, Without(pool, k), p - 1, x, hit);
        MoreBeforeExtra(expected, pool, p, x, k, hit);
      } else if hit(e, x) {
        if k < |pool| {
          ExtraFindingAddsAtMostOne(rest, Without(pool, k), k, pool[k], hit);
        }
        MoreAtExtra(expected, pool, p, x, k, hit);
      } else {
        ExtraFindingAddsAtMostOne(rest, if k < |pool| then Without(pool, k) else pool, p, x, hit);
        MoreAfterExtra(expected, pool, p, x, k, hit);
      }
    }
  }

  // ---- score_case ---------------------------------------------------------------------------

  datatype CaseScore = CaseScore(expected: nat, matched: nat, missed: seq<string>, falsePositives: nat) {
    function Recall(): (r: real)
      ensures expected > 0 ==> r * expected as real == matched as real
      ensures expected == 0 ==> r == 1.0
    {
      if expected == 0 then 1.0 else matched as real / expected as real
    }
  }

  /** Labels of the expected findings that greedy matching leaves out, in order. */
  function Missed(expected: seq<Expected>, pool: seq<Finding>, hit: (Expected, Finding) -> bool): seq<string> {
    if expected == [] then []
    else
      var k := FirstHit(expected[0], pool, hit);
      if k == |pool| then [expected[0].name] + Missed(expected[1..], pool, hit)
      else Missed(expected[1..], Without(pool, k), hit)
  }

  lemma {:induction false} MatchedAndMissed(expected: seq<Expected>, pool: seq<Finding>, hit: (Expected, Finding) -> bool)
    ensures Greedy(expected, pool, hit) + |Missed(expected, pool, hit)| == |expected|
  {
    if expected != [] {
      var k := FirstHit(expected[0], pool, hit);
      MatchedAndMissed(expected[1..], if k == |pool| then pool else Without(pool, k), hit);
    }
  }

  /** The labels of the expected findings that `assign` leaves without a partner, in order. */
  function Unpaired(expected: seq<Expected>, assign: seq<int>): seq<string>
    requires |assign| == |expected|
  {
    if expected == [] then []
    else (if assign[0] == -1 then [expected[0].name] else []) + Unpaired(expected[1..], assign[1..])
  }

  lemma {:induction false} UnpairedLift(expected: seq<Expected>, assign: seq<int>, k: nat)
    requires |assign| == |expected|
    ensures Unpaired(expected, Lift(assign, k)) == Unpaired(expected, assign)
  {
    if expected != [] {
      assert Lift(assign, k)[1..] == Lift(assign[1..], k);
      UnpairedLift(expected[1..], assign[1..], k);
    }
  }

  /** What is reported as missed are the labels of exactly those expected findings
      that find no free partner when each in turn takes the first one. */
  lemma {:induction false} MissedFoundNothingFree(expected: seq<Expected>, pool: seq<Finding>, hit: (Expected, Finding) -> bool)
    returns (assign: seq<int>)
    ensures FirstFree(expected, pool, assign, hit) && Size(assign) == Greedy(expected, pool, hit)
    ensures Missed(expected, pool, hit) == Unpaired(expected, assign)
  {
    if expected == [] {
      assign := [];
    } else {
      var k := FirstHit(expected[0], pool, hit);
      if k == |pool| {
        var rest := MissedFoundNothingFree(expected[1..], pool, hit);
        PrependUnmatched(expected, pool, rest, hit);
        assign := [-1] + rest;
        assert assign[1..] == rest;
      } else {
        var rest := MissedFoundNothingFree(expected[1..], Without(pool, k), hit);
        PrependMatched(expected, pool, rest, k, hit);
        assign := [k] + Lift(rest, k);
        assert assign[1..] == Lift(rest, k);
        UnpairedLift(expected[1..], rest, k);
      }
    }
  }

  function CountBy(fs: seq<Finding>, a: Agent): nat {
    if fs == [] then 0
    else CountBy(fs[..|fs| - 1], a) + if fs[|fs| - 1].agent == a then 1 else 0
  }

  function Over(fs: seq<Finding>, caps: map<Agent, int>, a: Agent): nat {
    if a in caps then Max(0, CountBy(fs, a) - caps[a]) as nat else 0
  }

  /** Findings beyond the per-agent ceilings. */
  function FalsePositives(fs: seq<Finding>, caps: map<Agent, int>): nat {
    Over(fs, caps, Security) + Over(fs, caps, Quality) + Over(fs, caps, Tests) + Over(fs, caps, Docs)
  }

  /** Where the findings of an agent stand. */
  ghost function Of(fs: seq<Finding>, a: Agent): set<int> {
    set i | 0 <= i < |fs| && fs[i].agent == a
  }

  lemma {:induction false} CountByIs(fs: seq<Finding>, a: Agent)
    ensures CountBy(fs, a) == |Of(fs, a)|
  {
    if fs != [] {
      var n := |fs| - 1;
      CountByIs(fs[..n], a);
      assert Of(fs, a) == Of(fs[..n], a) + if fs[n].agent == a then {n} else {};
    }
  }

  /** No false positives exactly when every agent with a ceiling keeps to it. */
  lemma WithinCeilings(fs: seq<Finding>, caps: map<Agent, int>)
    ensures FalsePositives(fs, caps) == 0 <==> forall a :: a in caps ==> |Of(fs, a)| <= caps[a]
  {
    forall a ensures CountBy(fs, a) == |Of(fs, a)| && (FalsePositives(fs, caps) == 0 ==> Over(fs, caps, a) == 0) {
      CountByIs(fs, a);
      match a { case Security => case Quality => case Tests => case Docs => }
    }
  }

  /** `remaining.remove(hit)` takes out the first equal finding; that is the hit itself. */
  method RemoveFirst(remaining: seq<Finding>, f: Finding) returns (rest: seq<Finding>, k: nat)
    requires f in remaining
    ensures k < |remaining| && remaining[k] == f && rest == Without(remaining, k)
    ensures forall j :: 0 <= j < k ==> remaining[j] != f
  {
    k := 0;
    while remaining[k] != f
      invariant k < |remaining|
      invariant forall j :: 0 <= j < k ==> remaining[j] != f
      invariant exists j :: k <= j < |remaining| && remaining[j] == f
      decreases |remaining| - k
    {
      k := k + 1;
    }
    rest := Without(remaining, k);
  }

  method CountFalsePositives(fs: seq<Finding>, caps: map<Agent, int>) returns (total: nat)
    ensures total == FalsePositives(fs, caps)
  {
    var byAgent: map<Agent, nat> := map[];
    for i := 0 to |fs|
      invariant forall a :: CountBy(fs[..i], a) == if a in byAgent then byAgent[a] else 0
    {
      assert fs[..i + 1][..i] == fs[..i];
      var a := fs[i].agent;
      byAgent := byAgent[a := 1 + if a in byAgent then byAgent[a] else 0];
    }
    assert fs[..|fs|] == fs;
    total := 0;
    var agents := [Security, Quality, Tests, Docs];
    for k := 0 to |agents|
      invariant k >= 1 ==> total >= Over(fs, caps, Security)
      invariant total == (if k > 0 then Over(fs, caps, Security) else 0) + (if k > 1 then Over(fs, caps, Quality) else 0)
                         + (if k > 2 then Over(fs, caps, Tests) else 0) + (if k > 3 then Over(fs, caps, Docs) else 0)
    {
      var a := agents[k];
      if a in caps {
        total := total + Max(0, (if a in byAgent then byAgent[a] else 0) - caps[a]);
      }
    }
  }

  /** `next(...)` over the remaining findings; their number if none matches. */
  method FindHit(e: Expected, remaining: seq<Finding>, lower: string -> string) returns (k: nat)
    ensures k <= |remaining| && (k < |remaining| ==> Matches(e, remaining[k], lower))
    ensures forall j :: 0 <= j < k ==> !Matches(e, remaining[j], lower)
  {
    k := 0;
    while k < |remaining| && !Matches(e, remaining[k], lower)
      invariant k <= |remaining|
      invariant forall j :: 0 <= j < k ==> !Matches(e, remaining[j], lower)
    {
      k := k + 1;
    }
  }

  method ScoreCase(expected: seq<Expected>, actual: seq<Finding>, caps: map<Agent, int>, lower: string -> string)
    returns (score: CaseScore)
    ensures var hit := (e: Expected, f: Finding) => Matches(e, f, lower);
      && score.expected == |expected|
      && score.matched == Greedy(expected, actual, hit)
      && score.missed == Missed(expected, actual, hit)
    ensures var hit := (e: Expected, f: Finding) => Matches(e, f, lower);
      exists assign :: FirstFree(expected, actual, assign, hit)
        && score.matched == Size(assign) && score.missed == Unpaired(expected, assign)
    ensures score.falsePositives == FalsePositives(actual, caps)
    ensures score.falsePositives == 0 <==> forall a :: a in caps ==> |Of(actual, a)| <= caps[a]
    ensures score.matched + |score.missed| == score.expected
  {
    ghost var hit := (e: Expected, f: Finding) => Matches(e, f, lower);
    var remaining, matched: nat, missed: seq<string> := actual, 0, [];
    for i := 0 to |expected|
      invariant matched + Greedy(expected[i..], remaining, hit) == Greedy(expected, actual, hit)
      invariant missed + Missed(expected[i..], remaining, hit) == Missed(expected, actual, hit)
    {
      var e := expected[i];
      assert expected[i..][0] == e && expected[i..][1..] == expected[i + 1..];
      var k := FindHit(e, remaining, lower);
      FirstHitIs(e, remaining, k, hit);
      if k == |remaining| {
        missed := missed + [e.name];
      } else {
        var rest, at := RemoveFirst(remaining, remaining[k]);
        assert at == k;
        remaining := rest;
        matched := matched + 1;
      }
    }
    MatchedAndMissed(expected, actual, hit);
    ghost var assign := MissedFoundNothingFree(expected, actual, hit);
    WithinCeilings(actual, caps);
    var over := CountFalsePositives(actual, caps);
    score := CaseScore(|expected|, matched, missed, over);
  }

  /** Recall lies between 0 and 1, and is 1 exactly when nothing was missed. */
  lemma RecallIsFullIffNothingMissed(score: CaseScore)
    requires score.matched + |score.missed| == score.expected
    ensures 0.0 <= score.Recall() <= 1.0
    ensures score.Recall() == 1.0 <==> score.missed == []
  {
    if score.expected > 0 {
      Share(score.matched as real, score.expected as real);
    }
  }

  lemma Share(part: real, whole: real)
    requires 0.0 <= part <= whole && whole > 0.0
    ensures 0.0 <= part / whole <= 1.0
    ensures part / whole == 1.0 <==> part == whole
  {
    var rest := whole - part;
    assert rest / whole >= 0.0 && (rest / whole == 0.0 <==> rest == 0.0);
    assert whole / whole == 1.0;
    assert part / whole + rest / whole == (part + rest) / whole;
  }

  // ---- scores and extra findings ---------------------------------------------------------------

  lemma {:induction false} CountAppend(a: seq<Finding>, b: seq<Finding>, agent: Agent)
    ensures CountBy(a + b, agent) == CountBy(a, agent) + CountBy(b, agent)
  {
    if b == [] {
      assert a + b == a;
    } else {
      assert (a + b)[..|a + b| - 1] == a + b[..|b| - 1];
      CountAppend(a, b[..|b| - 1], agent);
    }
  }

  lemma CountWithExtra(fs: seq<Finding>, p: nat, x: Finding, agent: Agent)
    requires p <= |fs|
    ensures CountBy(WithExtra(fs, p, x), agent) == CountBy(fs, agent) + if x.agent == agent then 1 else 0
  {
    CountAppend(fs[..p] + [x], fs[p..], agent);
    CountAppend(fs[..p], [x], agent);
    CountAppend(fs[..p], fs[p..], agent);
    assert fs[..p] + fs[p..] == fs;
    assert [x][..0] == [];
  }

  /** One extra finding is a false positive exactly when its agent has a ceiling and
      had reached it. */
  lemma ExtraFindingIsFalsePositiveIff(fs: seq<Finding>, p: nat, x: Finding, caps: map<Agent, int>)
    requires p <= |fs|
    ensures FalsePositives(WithExtra(fs, p, x), caps)
            == FalsePositives(fs, caps) + if x.agent in caps && |Of(fs, x.agent)| >= caps[x.agent] then 1 else 0
  {
    CountByIs(fs, x.agent);
    CountWithExtra(fs, p, x, Security);
    CountWithExtra(fs, p, x, Quality);
    CountWithExtra(fs, p, x, Tests);
    CountWithExtra(fs, p, x, Docs);
  }

  /** One extra finding also adds at most one false positive, and removes none. */
  lemma ExtraFindingAddsAtMostOneFalsePositive(fs: seq<Finding>, p: nat, x: Finding, caps: map<Agent, int>)
    requires p <= |fs|
    ensures FalsePositives(fs, caps) <= FalsePositives(WithExtra(fs, p, x), caps) <= FalsePositives(fs, caps) + 1
  {
    CountWithExtra(fs, p, x, Security);
    CountWithExtra(fs, p, x, Quality);
    CountWithExtra(fs, p, x, Tests);
    CountWithExtra(fs, p, x, Docs);
  }

  lemma ContainsIff(text: string, part: string)
    ensures Contains(text, part) <==> exists front, back :: text == front + part + back
  {
    if Contains(text, part) {
      var i :| 0 <= i <= |text| && OccursAt(text, part, i);
      assert text == text[..i] + part + text[i + |part|..];
    }
    if front, back :| text == front + part + back {
      assert OccursAt(text, part, |front|);
    }
  }

  /** When one expected finding is found by one actual finding: same agent and file,
      lines no further apart than the tolerance if both have one, and the wanted
      words somewhere in the category and in the title and rationale. */
  lemma OneMatchesOne(e: Expected, f: Finding, lower: string -> string)
    ensures Greedy([e], [f], (x: Expected, y: Finding) => Matches(x, y, lower)) == 1 <==>
            && f.agent == e.agent && f.file == e.file
            && (e.line == None || f.line == None || e.line.value - e.tolerance <= f.line.value <= e.line.value + e.tolerance)
            && (e.categoryContains == None ||
                  exists front, back :: lower(f.category) == front + lower(e.categoryContains.value) + back)
            && (e.rationaleContains == None ||
                  exists front, back :: lower(f.title + "\n" + f.rationale) == front + lower(e.rationaleContains.value) + back)
  {
    hide Contains;
    var hit := (x: Expected, y: Finding) => Matches(x, y, lower);
    assert [e][1..] == [];
    FirstHitIs(e, [f], if Matches(e, f, lower) then 0 else 1, hit);
    if e.categoryContains.Some? {
      ContainsIff(lower(f.category), lower(e.categoryContains.value));
    }
    if e.rationaleContains.Some? {
      ContainsIff(lower(f.title + "\n" + f.rationale), lower(e.rationaleContains.value));
    }
  }

  /** Greedy scoring can be beaten by a factor of two: an expected finding
      without a line takes the only finding the next one could have had. */
  lemma HalfIsReached(lower: string -> string)
    returns (expected: seq<Expected>, actual: seq<Finding>, assign: seq<int>)
    ensures var hit := (e: Expected, f: Finding) => Matches(e, f, lower);
      Matching(expected, actual, assign, hit) && Size(assign) == 2 && Greedy(expected, actual, hit) == 1
  {
    var hit := (e: Expected, f: Finding) => Matches(e, f, lower);
    var f := Finding(Security, High, "c", "a.py", Some(5), 0.9, "t", "");
    var g := f.(line := Some(100));
    var anywhere := Expected(Security, "a.py", None, 3, None, None, "anywhere");
    var onFive := anywhere.(line := Some(5));
    expected, actual, assign := [anywhere, onFive], [f, g], [1, 0];
    assert hit(anywhere, f) && hit(anywhere, g) && hit(onFive, f) && !hit(onFive, g);
    FirstHitIs(anywhere, actual, 0, hit);
    assert Without(actual, 0) == [g];
    assert expected[1..] == [onFive];
    FirstHitIs(onFive, [g], 1, hit);
    assert Greedy([onFive], [g], hit) == Greedy([onFive][1..], [g], hit) == 0;
    assert assign[1..] == [0] && assign[1..][1..] == [];
    assert Size([0]) == 1;
  }
}
