/** The language's built-in stable sort, given twice: as a property that every
    stable sort has, and as one insertion sort. The property determines the
    result, so what is proved about `Sort` holds of any stable sort. */
module StableSort {

  ghost predicate TotalPreorder<T(!new)>(le: (T, T) -> bool) {
    && (forall x, y :: le(x, y) || le(y, x))
    && (forall x, y, z :: le(x, y) && le(y, z) ==> le(x, z))
  }

  ghost predicate Sorted<T>(s: seq<T>, le: (T, T) -> bool) {
    forall i, j :: 0 <= i < j < |s| ==> le(s[i], s[j])
  }

  /** The elements of `s` that tie with `x`, in their order in `s`. */
  function Peers<T>(s: seq<T>, x: T, le: (T, T) -> bool): seq<T> {
    if s == [] then []
    else if le(s[0], x) && le(x, s[0]) then [s[0]] + Peers(s[1..], x, le)
    else Peers(s[1..], x, le)
  }

  ghost predicate StablySorts<T(!new)>(out: seq<T>, s: seq<T>, le: (T, T) -> bool) {
    && Sorted(out, le)
    && multiset(out) == multiset(s)
    && (forall x :: Peers(out, x, le) == Peers(s, x, le))
  }

  function Insert<T>(x: T, s: seq<T>, le: (T, T) -> bool): seq<T> {
    if s == [] then [x]
    else if le(x, s[0]) then [x] + s
    else [s[0]] + Insert(x, s[1..], le)
  }

  function Sort<T>(s: seq<T>, le: (T, T) -> bool): seq<T> {
    if s == [] then [] else Insert(s[0], Sort(s[1..], le), le)
  }

  lemma {:induction false} InsertMembers<T>(x: T, s: seq<T>, le: (T, T) -> bool)
    ensures multiset(Insert(x, s, le)) == multiset(s) + multiset{x}
  {
    if s != [] {
      assert s == [s[0]] + s[1..];
      if !le(x, s[0]) {
        InsertMembers(x, s[1..], le);
      }
    }
  }

  lemma {:induction false} InsertSorted<T(!new)>(x: T, s: seq<T>, le: (T, T) -> bool)
    requires TotalPreorder(le) && Sorted(s, le)
    ensures Sorted(Insert(x, s, le), le)
  {
    if s != [] && !le(x, s[0]) {
      var rest := Insert(x, s[1..], le);
      InsertSorted(x, s[1..], le);
      InsertMembers(x, s[1..], le);
      forall k | 0 <= k < |rest| ensures le(s[0], rest[k]) {
        assert rest[k] in multiset(rest);
      }
    }
  }

  /** The new element goes in front of the elements it ties with. */
  lemma {:induction false} InsertPeers<T(!new)>(x: T, s: seq<T>, y: T, le: (T, T) -> bool)
    requires TotalPreorder(le)
    ensures Peers(Insert(x, s, le), y, le) == Peers([x] + s, y, le)
  {
    assert ([x] + s)[1..] == s;
    if s != [] && !le(x, s[0]) {
      var rest := Insert(x, s[1..], le);
      InsertPeers(x, s[1..], y, le);
      assert ([s[0]] + rest)[1..] == rest;
      assert ([x] + s[1..])[1..] == s[1..];
    }
  }

  /** Insertion sort is a stable sort for every total preorder. */
  lemma {:induction false} SortIsStable<T(!new)>(s: seq<T>, le: (T, T) -> bool)
    requires TotalPreorder(le)
    ensures StablySorts(Sort(s, le), s, le)
  {
    if s != [] {
      var rest := Sort(s[1..], le);
      SortIsStable(s[1..], le);
      InsertMembers(s[0], rest, le);
      InsertSorted(s[0], rest, le);
      assert s == [s[0]] + s[1..];
      forall y ensures Peers(Sort(s, le), y, le) == Peers(s, y, le) {
        InsertPeers(s[0], rest, y, le);
        assert ([s[0]] + rest)[1..] == rest;
      }
    }
  }

  lemma {:induction false} PeersMembers<T>(s: seq<T>, x: T, le: (T, T) -> bool)
    ensures forall y :: y in Peers(s, x, le) <==> y in s && le(y, x) && le(x, y)
  {
    if s != [] {
      PeersMembers(s[1..], x, le);
      assert s == [s[0]] + s[1..];
    }
  }

  lemma {:induction false} PeersAppend<T>(a: seq<T>, b: seq<T>, x: T, le: (T, T) -> bool)
    ensures Peers(a + b, x, le) == Peers(a, x, le) + Peers(b, x, le)
  {
    if a == [] {
      assert a + b == b;
    } else {
      assert (a + b)[1..] == a[1..] + b;
      PeersAppend(a[1..], b, x, le);
    }
  }

  /** Tied elements stand in the list of peers in the order in which they stand in `s`, */
  lemma {:induction false} PeersInOrder<T>(s: seq<T>, x: T, i: nat, j: nat, le: (T, T) -> bool) returns (a: nat, b: nat)
    requires i < j < |s| && le(s[i], x) && le(x, s[i]) && le(s[j], x) && le(x, s[j])
    ensures a < b < |Peers(s, x, le)| && Peers(s, x, le)[a] == s[i] && Peers(s, x, le)[b] == s[j]
  {
    var rest := Peers(s[1..], x, le);
    if i == 0 {
      PeersMembers(s[1..], x, le);
      assert s[j] == s[1..][j - 1];
      b :| 0 <= b < |rest| && rest[b] == s[j];
      a, b := 0, b + 1;
    } else {
      a, b := PeersInOrder(s[1..], x, i - 1, j - 1, le);
      if le(s[0], x) && le(x, s[0]) {
        a, b := a + 1, b + 1;
      }
    }
  }

  lemma {:induction false} PeerStands<T>(s: seq<T>, x: T, a: nat, le: (T, T) -> bool) returns (i: nat)
    requires a < |Peers(s, x, le)|
    ensures i < |s| && s[i] == Peers(s, x, le)[a]
  {
    if le(s[0], x) && le(x, s[0]) {
      if a == 0 {
        i := 0;
      } else {
        i := PeerStands(s[1..], x, a - 1, le);
        i := i + 1;
      }
    } else {
      i := PeerStands(s[1..], x, a, le);
      i := i + 1;
    }
  }

  /** and in `s` in the order in which they stand in the list of peers. */
  lemma {:induction false} PeersStandInOrder<T>(s: seq<T>, x: T, a: nat, b: nat, le: (T, T) -> bool) returns (i: nat, j: nat)
    requires a < b < |Peers(s, x, le)|
    ensures i < j < |s| && s[i] == Peers(s, x, le)[a] && s[j] == Peers(s, x, le)[b]
  {
    if le(s[0], x) && le(x, s[0]) {
      if a == 0 {
        j := PeerStands(s[1..], x, b - 1, le);
        i, j := 0, j + 1;
      } else {
        i, j := PeersStandInOrder(s[1..], x, a - 1, b - 1, le);
        i, j := i + 1, j + 1;
      }
    } else {
      i, j := PeersStandInOrder(s[1..], x, a, b, le);
      i, j := i + 1, j + 1;
    }
  }

  /** Two sorted sequences with the same ties in the same order are equal:
      a stable sort has exactly one result. */
  lemma {:induction false} StableSortUnique<T(!new)>(t: seq<T>, u: seq<T>, le: (T, T) -> bool)
    requires TotalPreorder(le) && Sorted(t, le) && Sorted(u, le)
    requires forall x :: Peers(t, x, le) == Peers(u, x, le)
    ensures t == u
  {
    if t == [] || u == [] {
      if t != [] {
        assert le(t[0], t[0]);
        PeersMembers(t, t[0], le);
        PeersMembers(u, t[0], le);
      } else if u != [] {
        assert le(u[0], u[0]);
        PeersMembers(t, u[0], le);
        PeersMembers(u, u[0], le);
      }
    } else {
      PeersMembers(t, t[0], le);
      PeersMembers(u, t[0], le);
      PeersMembers(t, u[0], le);
      PeersMembers(u, u[0], le);
      assert t[0] in Peers(t, t[0], le);
      assert u[0] in Peers(u, u[0], le);
      assert le(t[0], u[0]) && le(u[0], t[0]);
      assert Peers(t, t[0], le)[0] == t[0] && Peers(u, t[0], le)[0] == u[0];
      assert t[0] == u[0];
      forall x ensures Peers(t[1..], x, le) == Peers(u[1..], x, le) {
        assert Peers(t, x, le) == Peers(u, x, le);
        if le(t[0], x) && le(x, t[0]) {
          assert Peers(t, x, le)[1..] == Peers(t[1..], x, le);
          assert Peers(u, x, le)[1..] == Peers(u[1..], x, le);
        }
      }
      StableSortUnique(t[1..], u[1..], le);
      assert t == [t[0]] + t[1..] && u == [u[0]] + u[1..];
    }
  }

  /** Sorting what is already sorted changes nothing, ties included. */
  lemma SortFixesSorted<T(!new)>(s: seq<T>, le: (T, T) -> bool)
    requires TotalPreorder(le) && Sorted(s, le)
    ensures Sort(s, le) == s
  {
    SortIsStable(s, le);
    StableSortUnique(Sort(s, le), s, le);
  }

  /** Elements that tie have the same peers. */
  lemma {:induction false} PeersOfTied<T(!new)>(s: seq<T>, x: T, y: T, le: (T, T) -> bool)
    requires TotalPreorder(le) && le(x, y) && le(y, x)
    ensures Peers(s, x, le) == Peers(s, y, le)
  {
    if s != [] {
      PeersOfTied(s[1..], x, y, le);
    }
  }

  ghost predicate NoTies<T>(t: seq<T>, le: (T, T) -> bool) {
    forall x, y :: x in t && y in t && le(x, y) && le(y, x) ==> x == y
  }

  lemma HeadIsLeast<T(!new)>(t: seq<T>, le: (T, T) -> bool, x: T)
    requires TotalPreorder(le) && Sorted(t, le) && x in t
    ensures le(t[0], x)
  {
    var i :| 0 <= i < |t| && t[i] == x;
    assert le(t[0], t[0]);
  }

  lemma HeadsAgree<T(!new)>(t: seq<T>, u: seq<T>, le: (T, T) -> bool)
    requires TotalPreorder(le) && Sorted(t, le) && Sorted(u, le) && multiset(t) == multiset(u) && NoTies(t, le) && t != []
    ensures u != [] && t[0] == u[0]
  {
    assert |multiset(t)| == |multiset(u)|;
    assert t[0] in multiset(u) && u[0] in multiset(t);
    HeadIsLeast(t, le, u[0]);
    HeadIsLeast(u, le, t[0]);
  }

  lemma TailsPermute<T>(t: seq<T>, u: seq<T>)
    requires multiset(t) == multiset(u) && t != [] && u != [] && t[0] == u[0]
    ensures multiset(t[1..]) == multiset(u[1..]) && forall x :: x in t[1..] ==> x in t
  {
    assert t == [t[0]] + t[1..] && u == [u[0]] + u[1..];
    assert multiset(t[1..]) == multiset(t) - multiset{t[0]};
  }

  /** Without ties the elements alone determine the sorted sequence. */
  lemma {:induction false} SortedWithoutTies<T(!new)>(t: seq<T>, u: seq<T>, le: (T, T) -> bool)
    requires TotalPreorder(le) && Sorted(t, le) && Sorted(u, le) && multiset(t) == multiset(u) && NoTies(t, le)
    ensures t == u
  {
    assert |multiset(t)| == |multiset(u)|;
    if t != [] {
      HeadsAgree(t, u, le);
      TailsPermute(t, u);
      SortedWithoutTies(t[1..], u[1..], le);
      assert t == [t[0]] + t[1..] && u == [u[0]] + u[1..];
    }
  }
}
