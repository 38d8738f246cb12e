/** Reciprocal rank fusion (`memory/context_retriever.py`): the hybrid query as a
    function of two rankings of chunk ids, best first. */
module Fusion {
  import opened Basics
  import opened StableSort

  type Id = int

  const RRF_K := 60
  const MISSING_RANK := 1000000

  function First(ranking: seq<Id>, k: nat): seq<Id> {
    ranking[..Min(k, |ranking|)]
  }

  /** 1-based position, or the rank given to a chunk that the search did not return. */
  function RankIn(ranking: seq<Id>, x: Id): (r: nat)
    ensures x in ranking ==> 1 <= r <= |ranking| && ranking[r - 1] == x
    ensures x !in ranking ==> r == MISSING_RANK
  {
    RankFrom(ranking, x, 0)
  }

  function RankFrom(ranking: seq<Id>, x: Id, i: nat): (r: nat)
    requires i <= |ranking| && x !in ranking[..i]
    ensures x in ranking ==> 1 <= r <= |ranking| && ranking[r - 1] == x
    ensures x !in ranking ==> r == MISSING_RANK
    decreases |ranking| - i
  {
    if i == |ranking| then assert ranking[..i] == ranking; MISSING_RANK
    else if ranking[i] == x then i + 1
    else assert ranking[..i + 1] == ranking[..i] + [ranking[i]]; RankFrom(ranking, x, i + 1)
  }

  function Reciprocal(rank: nat): real {
    1.0 / (RRF_K + rank) as real
  }

  function Score(v: seq<Id>, f: seq<Id>, x: Id): real {
    Reciprocal(RankIn(v, x)) + Reciprocal(RankIn(f, x))
  }

  function Missing(v: seq<Id>, f: seq<Id>): seq<Id> {
    if f == [] then []
    else Missing(v, f[..|f| - 1]) + if f[|f| - 1] in v then [] else [f[|f| - 1]]
  }

  /** Full outer join of the two result lists. */
  function Join(v: seq<Id>, f: seq<Id>): seq<Id> {
    v + Missing(v, f)
  }

  lemma {:induction false} MissingMembers(v: seq<Id>, f: seq<Id>)
    requires NoDuplicates(f)
    ensures NoDuplicates(Missing(v, f))
    ensures forall x :: x in Missing(v, f) <==> x in f && x !in v
  {
    if f != [] {
      MissingMembers(v, f[..|f| - 1]);
      assert f == f[..|f| - 1] + [f[|f| - 1]];
      assert f[|f| - 1] !in f[..|f| - 1];
    }
  }

  lemma JoinMembers(v: seq<Id>, f: seq<Id>)
    requires NoDuplicates(v) && NoDuplicates(f)
    ensures NoDuplicates(Join(v, f))
    ensures forall x :: x in Join(v, f) <==> x in v || x in f
  {
    MissingMembers(v, f);
    var out, more := Join(v, f), Missing(v, f);
    forall i, j | 0 <= i < j < |out| ensures out[i] != out[j] {
      if i < |v| <= j {
        assert more[j - |v|] in more;
      }
    }
  }

  function ByScore(v: seq<Id>, f: seq<Id>): (Id, Id) -> bool {
    (x, y) => Score(v, f, x) >= Score(v, f, y)
  }

  function Fuse(v: seq<Id>, f: seq<Id>, k: nat): seq<Id> {
    First(Sort(Join(v, f), ByScore(v, f)), k)
  }

  /** The query: both searches are cut to `k`, and so is the fused list. */
  function Retrieve(vectorRanking: seq<Id>, textRanking: seq<Id>, k: nat): seq<Id> {
    Fuse(First(vectorRanking, k), First(textRanking, k), k)
  }

  lemma FoundAt(ranking: seq<Id>, x: Id, i: int)
    requires NoDuplicates(ranking) && (0 <= i < |ranking| ==> ranking[i] == x) && (i < 0 || i >= |ranking| ==> x !in ranking)
    ensures RankIn(ranking, x) == if 0 <= i < |ranking| then i + 1 else MISSING_RANK
  {
  }

  /** The score spelled out: each search gives a chunk that stands at `i` (counted
      from 0) in its list 1 / (61 + i), and a chunk that it did not find 1 / 1000060. */
  lemma ScoreIs(v: seq<Id>, f: seq<Id>, x: Id, i: int, j: int)
    requires NoDuplicates(v) && (0 <= i < |v| ==> v[i] == x) && (i < 0 || i >= |v| ==> x !in v)
    requires NoDuplicates(f) && (0 <= j < |f| ==> f[j] == x) && (j < 0 || j >= |f| ==> x !in f)
    ensures Score(v, f, x) == (if 0 <= i < |v| then 1.0 / (61 + i) as real else 1.0 / 1000060.0)
                              + (if 0 <= j < |f| then 1.0 / (61 + j) as real else 1.0 / 1000060.0)
  {
    FoundAt(v, x, i);
    FoundAt(f, x, j);
  }

  // ---- what any answer to the query is ---------------------------------------------

  /** ORDER BY score DESC LIMIT k, which leaves ties in any order. */
  ghost predicate TopK(v: seq<Id>, f: seq<Id>, k: nat, out: seq<Id>) {
    && NoDuplicates(out)
    && (forall x :: x in out ==> x in v || x in f)
    && (|out| < k ==> forall x :: x in v || x in f ==> x in out)
    && |out| <= k
    && (forall i, j :: 0 <= i < j < |out| ==> Score(v, f, out[i]) >= Score(v, f, out[j]))
    && (forall x, y :: x in out && (y in v || y in f) && y !in out ==> Score(v, f, x) >= Score(v, f, y))
  }

  lemma SortedJoin(v: seq<Id>, f: seq<Id>)
    requires NoDuplicates(v) && NoDuplicates(f)
    ensures var sorted := Sort(Join(v, f), ByScore(v, f));
      && NoDuplicates(sorted) && Sorted(sorted, ByScore(v, f))
      && forall x :: x in sorted <==> x in v || x in f
  {
    var joined, le := Join(v, f), ByScore(v, f);
    var sorted := Sort(joined, le);
    JoinMembers(v, f);
    SortIsStable(joined, le);
    DistinctKeysPermute(joined, sorted, (x: Id) => x);
    forall x ensures x in sorted <==> x in joined {
      assert x in multiset(sorted) <==> x in multiset(joined);
    }
  }

  lemma FuseIsTopK(v: seq<Id>, f: seq<Id>, k: nat)
    requires NoDuplicates(v) && NoDuplicates(f)
    ensures TopK(v, f, k, Fuse(v, f, k))
  {
    var sorted := Sort(Join(v, f), ByScore(v, f));
    SortedJoin(v, f);
    assert forall i, j :: 0 <= i < j < |sorted| ==> Score(v, f, sorted[i]) >= Score(v, f, sorted[j]) by {
      assert forall x, y :: ByScore(v, f)(x, y) <==> Score(v, f, x) >= Score(v, f, y);
    }
    BestAreTopK(v, f, k, sorted);
  }

  lemma BestAreTopK(v: seq<Id>, f: seq<Id>, k: nat, sorted: seq<Id>)
    requires NoDuplicates(sorted) && forall x :: x in sorted <==> x in v || x in f
    requires forall i, j :: 0 <= i < j < |sorted| ==> Score(v, f, sorted[i]) >= Score(v, f, sorted[j])
    ensures TopK(v, f, k, First(sorted, k))
  {
    var out := First(sorted, k);
    assert forall i :: 0 <= i < |out| ==> sorted[i] in out;
    forall x, y | x in out && y in sorted && y !in out ensures Score(v, f, x) >= Score(v, f, y) {
      var j :| 0 <= j < |sorted| && sorted[j] == y;
      var i :| 0 <= i < |out| && out[i] == x;
      assert sorted[i] == x;
    }
  }

  /** Every row the query returns is one of the best `k`, without repetition. */
  lemma RetrieveIsTopK(vectorRanking: seq<Id>, textRanking: seq<Id>, k: nat)
    requires NoDuplicates(vectorRanking) && NoDuplicates(textRanking)
    ensures TopK(First(vectorRanking, k), First(textRanking, k), k, Retrieve(vectorRanking, textRanking, k))
  {
    FuseIsTopK(First(vectorRanking, k), First(textRanking, k), k);
  }

  // ---- agreement beats rank, up to a point --------------------------------------------

  lemma ReciprocalFalls(a: nat, b: nat)
    ensures a <= b ==> Reciprocal(a) >= Reciprocal(b) > 0.0
    ensures a < b ==> Reciprocal(a) > Reciprocal(b)
  {
    var p, q := (RRF_K + a) as real, (RRF_K + b) as real;
    assert Reciprocal(a) * p == 1.0 && Reciprocal(b) * q == 1.0;
    assert Reciprocal(a) - Reciprocal(b) == (q - p) / (p * q);
  }

  /** Found by both searches: at least twice the reciprocal of the last rank. */
  lemma BothScore(v: seq<Id>, f: seq<Id>, k: nat, x: Id)
    requires |v| <= k && |f| <= k && x in v && x in f
    ensures Score(v, f, x) >= 2.0 * Reciprocal(k)
  {
    ReciprocalFalls(RankIn(v, x), k);
    ReciprocalFalls(RankIn(f, x), k);
  }

  /** Found by one search only: at most a first rank and a missing one. */
  lemma OneScore(v: seq<Id>, f: seq<Id>, y: Id)
    requires (y in v) != (y in f)
    ensures Score(v, f, y) <= Reciprocal(1) + Reciprocal(MISSING_RANK)
  {
    ReciprocalFalls(1, if y in v then RankIn(v, y) else RankIn(f, y));
  }

  /** Whoever is found by both searches is listed, and listed earlier, whenever
      something found by only one is. */
  ghost predicate AgreementFirst(v: seq<Id>, f: seq<Id>, out: seq<Id>) {
    forall x, j :: x in v && x in f && 0 <= j < |out| && ((out[j] in v) != (out[j] in f)) ==> x in out[..j]
  }

  /** What the query can be given and return. Every chunk has an embedding, so a
      vector search with fewer than `k` results has returned the whole repository. */
  ghost predicate Answer(k: nat, v: seq<Id>, f: seq<Id>, out: seq<Id>) {
    && NoDuplicates(v) && NoDuplicates(f) && |v| <= k && |f| <= k
    && (|v| == k || forall x :: x in f ==> x in v)
    && TopK(v, f, k, out)
  }

  lemma TwiceOutweighsOnce(k: nat)
    requires k <= 61
    ensures 2.0 * Reciprocal(k) > Reciprocal(1) + Reciprocal(MISSING_RANK)
  {
    ReciprocalFalls(k, 61);
    assert 2.0 * Reciprocal(61) > Reciprocal(1) + Reciprocal(MISSING_RANK);
  }

  /** What scores more than a listed chunk is listed before it. */
  lemma HigherComesFirst(k: nat, v: seq<Id>, f: seq<Id>, out: seq<Id>, x: Id, j: nat)
    requires TopK(v, f, k, out) && (x in v || x in f) && j < |out|
    requires Score(v, f, x) > Score(v, f, out[j])
    ensures x in out[..j]
  {
    assert out[j] in out;
    var i :| 0 <= i < |out| && out[i] == x;
    assert i < j;
    assert out[..j][i] == x;
  }

  lemma AgreementFirstUpTo61(k: nat, v: seq<Id>, f: seq<Id>, out: seq<Id>)
    requires k <= 61 && Answer(k, v, f, out)
    ensures AgreementFirst(v, f, out)
  {
    TwiceOutweighsOnce(k);
    forall x, j | x in v && x in f && 0 <= j < |out| && ((out[j] in v) != (out[j] in f)) ensures x in out[..j] {
      BothScore(v, f, k, x);
      OneScore(v, f, out[j]);
      HigherComesFirst(k, v, f, out, x, j);
    }
  }

  /** `k` nearest chunks, and 62 text hits that agree with them only on the last. */
  function Nearest(k: nat): seq<Id> {
    seq(k, i => i)
  }

  function Hits(k: nat): seq<Id> {
    seq(62, i => if i == 61 then 61 else k + i)
  }

  lemma LoneLeaderScoresMore(k: nat)
    requires k >= 62
    ensures 61 in Nearest(k) && 61 in Hits(k) && 0 in Nearest(k) && 0 !in Hits(k)
    ensures forall x :: x in Nearest(k) && x in Hits(k) ==> x == 61
    ensures NoDuplicates(Nearest(k)) && NoDuplicates(Hits(k))
    ensures Score(Nearest(k), Hits(k), 0) > Score(Nearest(k), Hits(k), 61)
  {
    var v, f := Nearest(k), Hits(k);
    assert v[0] == 0 && v[61] == 61 && f[61] == 61;
    assert RankIn(v, 0) == 1 && RankIn(v, 61) == 62 && RankIn(f, 61) == 62;
    assert Reciprocal(1) == 2.0 * Reciprocal(62);
    ReciprocalFalls(MISSING_RANK, MISSING_RANK);
  }

  lemma AgreementLosesFrom62(k: nat)
    requires k >= 62
    ensures Answer(k, Nearest(k), Hits(k), Fuse(Nearest(k), Hits(k), k))
    ensures !AgreementFirst(Nearest(k), Hits(k), Fuse(Nearest(k), Hits(k), k))
  {
    LoneLeaderScoresMore(k);
    FuseIsTopK(Nearest(k), Hits(k), k);
    LeaderIsSingle(k, Nearest(k), Hits(k), Fuse(Nearest(k), Hits(k), k), 0, 61);
  }

  /** Any two rankings of a repository, the text hits being among its chunks, give
      such an answer. */
  lemma RetrieveIsAnswer(vectorRanking: seq<Id>, textRanking: seq<Id>, k: nat)
    requires NoDuplicates(vectorRanking) && NoDuplicates(textRanking)
    requires forall x :: x in textRanking ==> x in vectorRanking
    ensures Answer(k, First(vectorRanking, k), First(textRanking, k), Retrieve(vectorRanking, textRanking, k))
  {
    RetrieveIsTopK(vectorRanking, textRanking, k);
    if |vectorRanking| < k {
      forall x | x in First(textRanking, k) ensures x in First(vectorRanking, k) {
        assert x in textRanking && First(vectorRanking, k) == vectorRanking;
      }
    }
  }

  lemma LeaderIsSingle(k: nat, v: seq<Id>, f: seq<Id>, out: seq<Id>, lone: Id, both: Id)
    requires k >= 1 && TopK(v, f, k, out)
    requires both in v && both in f && (forall x :: x in v && x in f ==> x == both) && lone in v
    requires Score(v, f, lone) > Score(v, f, both)
    ensures !AgreementFirst(v, f, out)
  {
    assert |out| < k ==> lone in out;
    assert out[0] in out;
    assert Score(v, f, out[0]) >= Score(v, f, lone);
    assert out[..0] == [];
  }

  /** The damping constant makes agreement between the two searches outrank every
      single-search hit exactly while at most 61 chunks are asked for. */
  lemma AgreementFirstIff(k: nat)
    ensures (forall v, f, out :: Answer(k, v, f, out) ==> AgreementFirst(v, f, out)) <==> k <= 61
  {
    if k <= 61 {
      forall v, f, out | Answer(k, v, f, out) ensures AgreementFirst(v, f, out) {
        AgreementFirstUpTo61(k, v, f, out);
      }
    } else {
      AgreementLosesFrom62(k);
    }
  }

  /** No worse in either search and better in one means listed first, as long as
      the lists are shorter than the rank of a missing chunk. */
  lemma DominanceIsKept(k: nat, v: seq<Id>, f: seq<Id>, out: seq<Id>, x: Id, j: nat)
    requires Answer(k, v, f, out) && k < MISSING_RANK && (x in v || x in f) && j < |out|
    requires RankIn(v, x) <= RankIn(v, out[j]) && RankIn(f, x) <= RankIn(f, out[j])
    requires RankIn(v, x) < RankIn(v, out[j]) || RankIn(f, x) < RankIn(f, out[j])
    ensures x in out[..j]
  {
    ReciprocalFalls(RankIn(v, x), RankIn(v, out[j]));
    ReciprocalFalls(RankIn(f, x), RankIn(f, out[j]));
    HigherComesFirst(k, v, f, out, x, j);
  }
}
