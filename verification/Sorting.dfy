/** What the code relies on from sort.Slice: an in-place reordering with no promise about ties. */
module Sorting {

  ghost predicate TotalPreorder<T(!new)>(leq: (T, T) -> bool) {
    && (forall x, y :: leq(x, y) || leq(y, x))
    && (forall x, y, z :: leq(x, y) && leq(y, z) ==> leq(x, z))
  }

  ghost predicate SortedBy<T>(s: seq<T>, leq: (T, T) -> bool) {
    forall i, j :: 0 <= i < j < |s| ==> leq(s[i], s[j])
  }

  /** s with the element at i removed. */
  function Without<T>(s: seq<T>, i: nat): (r: seq<T>)
    requires i < |s|
    ensures |r| == |s| - 1
    ensures multiset(r) == multiset(s) - multiset{s[i]}
  {
    assert s == s[..i] + [s[i]] + s[i + 1..];
    s[..i] + s[i + 1..]
  }

  method SortSlice<T(==, !new)>(a: array<T>, leq: (T, T) -> bool)
    requires TotalPreorder(leq)
    modifies a
    ensures SortedBy(a[..], leq)
    ensures multiset(a[..]) == multiset(old(a[..]))
  {
    for n := 0 to a.Length
      invariant SortedBy(a[..n], leq)
      invariant multiset(a[..]) == multiset(old(a[..]))
    {
      Insert(a, n, leq);
    }
    assert a[..] == a[..a.Length];
  }

  method Insert<T(==, !new)>(a: array<T>, n: nat, leq: (T, T) -> bool)
    requires TotalPreorder(leq)
    requires n < a.Length && SortedBy(a[..n], leq)
    modifies a
    ensures SortedBy(a[..n + 1], leq)
    ensures multiset(a[..]) == multiset(old(a[..]))
  {
    hide TotalPreorder, SortedBy, SortedBut;
    StartSortedBut(a[..], n, leq);
    assert a[..][..n] == a[..n];
    var k: nat := n;
    while k > 0 && !leq(a[k - 1], a[k])
      invariant k <= n && SortedBut(a[..], n, k, leq)
      invariant multiset(a[..]) == multiset(old(a[..]))
    {
      ghost var was := a[..];
      SwapSortedBut(was, n, k, leq);
      a[k - 1], a[k] := a[k], a[k - 1];
      assert a[..] == was[k - 1 := was[k]][k := was[k - 1]];
      k := k - 1;
    }
    EndSortedBut(a[..], n, k, leq);
    assert a[..][..n + 1] == a[..n + 1];
  }

  /** The first n + 1 elements are in order but for the one at k, which goes before those after it. */
  ghost predicate SortedBut<T>(s: seq<T>, n: nat, k: nat, leq: (T, T) -> bool)
    requires k <= n < |s|
  {
    && (forall i, j :: 0 <= i < j <= n && i != k && j != k ==> leq(s[i], s[j]))
    && forall j :: k < j <= n ==> leq(s[k], s[j])
  }

  lemma StartSortedBut<T>(s: seq<T>, n: nat, leq: (T, T) -> bool)
    requires n < |s|
    ensures SortedBy(s[..n], leq) ==> SortedBut(s, n, n, leq)
  {
    if SortedBy(s[..n], leq) {
      forall i, j | 0 <= i < j < n
        ensures leq(s[i], s[j])
      {
        assert leq(s[..n][i], s[..n][j]);
      }
    }
  }

  lemma SwapSortedBut<T(!new)>(s: seq<T>, n: nat, k: nat, leq: (T, T) -> bool)
    requires TotalPreorder(leq)
    requires 0 < k <= n < |s| && SortedBut(s, n, k, leq) && !leq(s[k - 1], s[k])
    ensures SortedBut(s[k - 1 := s[k]][k := s[k - 1]], n, k - 1, leq)
  {
    assert leq(s[k], s[k - 1]);
  }

  lemma EndSortedBut<T(!new)>(s: seq<T>, n: nat, k: nat, leq: (T, T) -> bool)
    requires TotalPreorder(leq)
    requires k <= n < |s| && SortedBut(s, n, k, leq) && (k == 0 || leq(s[k - 1], s[k]))
    ensures SortedBy(s[..n + 1], leq)
  {
    forall i, j | 0 <= i < j < n + 1
      ensures leq(s[i], s[j])
    {
      if j == k && i < k - 1 {
        assert leq(s[i], s[k - 1]) && leq(s[k - 1], s[k]);
      }
    }
  }

  /** The order distinguishes any two different elements of s. */
  ghost predicate Distinguishes<T>(leq: (T, T) -> bool, s: seq<T>) {
    forall x, y :: x in s && y in s && leq(x, y) && leq(y, x) ==> x == y
  }

  lemma ConcatAssociates<T>(a: seq<T>, b: seq<T>, c: seq<T>)
    ensures a + (b + c) == (a + b) + c
  {
  }

  /** Sorted arrangements of one multiset are the same list when the order distinguishes its elements. */
  lemma {:induction false} SortedUnique<T(!new)>(s: seq<T>, t: seq<T>, leq: (T, T) -> bool)
    requires TotalPreorder(leq) && Distinguishes(leq, s)
    requires SortedBy(s, leq) && SortedBy(t, leq)
    requires multiset(s) == multiset(t)
    ensures s == t
  {
    hide TotalPreorder, SortedBy, Distinguishes;
    assert |s| == |multiset(s)| == |multiset(t)| == |t|;
    if s != [] {
      assert t[0] in multiset(s) && s[0] in multiset(t);
      FirstIsLeast(s, t[0], leq);
      FirstIsLeast(t, s[0], leq);
      SameElement(s, s[0], t[0], leq);
      Tail(s, leq);
      Tail(t, leq);
      SortedUnique(s[1..], t[1..], leq);
    }
  }

  lemma Tail<T(!new)>(s: seq<T>, leq: (T, T) -> bool)
    requires s != []
    ensures s == [s[0]] + s[1..] && multiset(s[1..]) == multiset(s) - multiset{s[0]}
    ensures SortedBy(s, leq) ==> SortedBy(s[1..], leq)
    ensures Distinguishes(leq, s) ==> Distinguishes(leq, s[1..])
  {
    assert s == [s[0]] + s[1..];
  }

  lemma SameElement<T(!new)>(s: seq<T>, x: T, y: T, leq: (T, T) -> bool)
    requires Distinguishes(leq, s) && x in s && y in s && leq(x, y) && leq(y, x)
    ensures x == y
  {
  }

  lemma FirstIsLeast<T(!new)>(s: seq<T>, x: T, leq: (T, T) -> bool)
    requires TotalPreorder(leq) && SortedBy(s, leq)
    requires x in s
    ensures leq(s[0], x)
  {
    var i :| 0 <= i < |s| && s[i] == x;
    assert leq(s[0], s[0]);
  }
}
