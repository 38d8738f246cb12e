/** Vocabulary shared by every module of the project. */
module Basics {

  datatype Option<+T> = None | Some(value: T)

  ghost predicate NoDuplicates<T>(s: seq<T>) {
    forall i, j :: 0 <= i < j < |s| ==> s[i] != s[j]
  }

  function Flatten<T>(parts: seq<seq<T>>): seq<T> {
    if parts == [] then [] else parts[0] + Flatten(parts[1..])
  }

  lemma {:induction false} FlattenAppend<T>(a: seq<seq<T>>, b: seq<seq<T>>)
    ensures Flatten(a + b) == Flatten(a) + Flatten(b)
  {
    if a == [] {
      assert a + b == b;
    } else {
      assert (a + b)[1..] == a[1..] + b;
      FlattenAppend(a[1..], b);
    }
  }

  function Max(a: int, b: int): int {
    if a < b then b else a
  }

  function Min(a: int, b: int): int {
    if a < b then a else b
  }

  // ---- repeated addition ------------------------------------------------------

  /** `unit` added up `n` times. */
  function Multiple(n: nat, unit: real): real {
    if n == 0 then 0.0 else Multiple(n - 1, unit) + unit
  }

  lemma {:induction false} MultipleIs(n: nat, unit: real)
    ensures Multiple(n, unit) == n as real * unit
  {
    if n > 0 {
      MultipleIs(n - 1, unit);
      var m := (n - 1) as real;
      assert (m + 1.0) * unit == m * unit + unit;
    }
  }

  lemma {:induction false} MultipleGrows(a: nat, b: nat, unit: real)
    requires a <= b && unit >= 0.0
    ensures 0.0 <= Multiple(a, unit) <= Multiple(b, unit)
  {
    if a > 0 {
      MultipleGrows(a - 1, b - 1, unit);
    } else if b > 0 {
      MultipleGrows(a, b - 1, unit);
    }
  }

  // ---- permutations and distinct keys ---------------------------------------

  ghost predicate DistinctKeys<T, K>(s: seq<T>, key: T -> K) {
    forall i, j :: 0 <= i < j < |s| ==> key(s[i]) != key(s[j])
  }

  lemma {:induction false} CountedTwice<T>(s: seq<T>, x: T) returns (i: nat, j: nat)
    requires multiset(s)[x] >= 2
    ensures i < j < |s| && s[i] == x && s[j] == x
  {
    assert s == [s[0]] + s[1..];
    if s[0] == x {
      assert x in multiset(s[1..]);
      var k :| 0 <= k < |s[1..]| && s[1..][k] == x;
      i, j := 0, k + 1;
    } else {
      i, j := CountedTwice(s[1..], x);
      i, j := i + 1, j + 1;
    }
  }

  lemma TwicePresent<T>(s: seq<T>, i: nat, j: nat)
    requires i < j < |s| && s[i] == s[j]
    ensures multiset(s)[s[i]] >= 2
  {
    assert s == s[..j] + s[j..];
    assert s[..j][i] == s[i] && s[j..][0] == s[i];
    assert s[i] in multiset(s[..j]) && s[i] in multiset(s[j..]);
  }

  /** A permutation of elements with distinct keys has distinct keys. */
  lemma DistinctKeysPermute<T, K>(a: seq<T>, b: seq<T>, key: T -> K)
    requires multiset(a) == multiset(b) && DistinctKeys(a, key)
    ensures DistinctKeys(b, key)
  {
    forall i, j | 0 <= i < j < |b| ensures key(b[i]) != key(b[j]) {
      assert b[i] in multiset(a) && b[j] in multiset(a);
      if b[i] == b[j] {
        TwicePresent(b, i, j);
        var p, q := CountedTwice(a, b[i]);
      } else {
        var p :| 0 <= p < |a| && a[p] == b[i];
        var q :| 0 <= q < |a| && a[q] == b[j];
        assert p < q || q < p;
      }
    }
  }

  /** Two sequences without repetition and with the same elements are permutations. */
  lemma SameElementsPermute<T>(a: seq<T>, b: seq<T>)
    requires NoDuplicates(a) && NoDuplicates(b) && forall x :: x in a <==> x in b
    ensures multiset(a) == multiset(b)
  {
    forall x ensures multiset(a)[x] == multiset(b)[x] {
      OnceAtMost(a, x);
      OnceAtMost(b, x);
      assert (x in multiset(a) <==> x in a) && (x in multiset(b) <==> x in b);
    }
  }

  lemma OnceAtMost<T>(a: seq<T>, x: T)
    requires NoDuplicates(a)
    ensures multiset(a)[x] <= 1
  {
    if multiset(a)[x] >= 2 {
      var i, j := CountedTwice(a, x);
    }
  }

  lemma OneMoreMember(before: set<nat>, after: set<nat>, n: nat, last: bool)
    requires n !in before && after == before + if last then {n} else {}
    ensures |after| == |before| + if last then 1 else 0
  {
  }

  lemma AppendAssociates<T>(a: seq<T>, b: seq<T>, c: seq<T>)
    ensures (a + b) + c == a + (b + c)
  {
  }

  /** The same elements with the `k`-th moved to the front. */
  function ToFront<T>(s: seq<T>, k: nat): seq<T>
    requires k < |s|
  {
    [s[k]] + (s[..k] + s[k + 1..])
  }

  lemma ToFrontPermutes<T>(s: seq<T>, k: nat)
    requires k < |s|
    ensures multiset(ToFront(s, k)) == multiset(s)
  {
    assert s == s[..k] + ([s[k]] + s[k + 1..]);
  }
}
