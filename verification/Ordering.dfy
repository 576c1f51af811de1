/** The order Go uses on strings and byte slices, and lists kept sorted by string keys. */
module Ordering {
  import opened Sorting
  import opened Wrappers

  /** a comes before b or equals it, comparing element by element by rank. */
  predicate LexLeq<T>(a: seq<T>, b: seq<T>, rank: T -> int) {
    a == [] || (b != [] && (rank(a[0]) < rank(b[0]) || (rank(a[0]) == rank(b[0]) && LexLeq(a[1..], b[1..], rank))))
  }

  lemma {:induction false} LexTotal<T>(a: seq<T>, b: seq<T>, rank: T -> int)
    ensures LexLeq(a, b, rank) || LexLeq(b, a, rank)
  {
    if a != [] && b != [] {
      LexTotal(a[1..], b[1..], rank);
    }
  }

  lemma {:induction false} LexTransitive<T>(a: seq<T>, b: seq<T>, c: seq<T>, rank: T -> int)
    requires LexLeq(a, b, rank) && LexLeq(b, c, rank)
    ensures LexLeq(a, c, rank)
  {
    if a != [] && rank(a[0]) == rank(b[0]) == rank(c[0]) {
      LexTransitive(a[1..], b[1..], c[1..], rank);
    }
  }

  lemma {:induction false} LexAntisymmetric<T(!new)>(a: seq<T>, b: seq<T>, rank: T -> int)
    requires forall x, y :: rank(x) == rank(y) ==> x == y
    requires LexLeq(a, b, rank) && LexLeq(b, a, rank)
    ensures a == b
  {
    if a != [] {
      LexAntisymmetric(a[1..], b[1..], rank);
      assert a == [a[0]] + a[1..] && b == [b[0]] + b[1..];
    }
  }

  /** The sequences agree on k places, after which the first ends or has the smaller element. */
  ghost predicate FirstDifference<T>(a: seq<T>, b: seq<T>, rank: T -> int, k: nat) {
    && k <= |a| && k <= |b| && (forall i :: 0 <= i < k ==> rank(a[i]) == rank(b[i]))
    && (k == |a| || (k < |b| && rank(a[k]) < rank(b[k])))
  }

  /** The order is that of the first difference, a prefix coming first. */
  lemma {:induction false} LexIsFirstDifference<T>(a: seq<T>, b: seq<T>, rank: T -> int)
    ensures LexLeq(a, b, rank) <==> exists k :: FirstDifference(a, b, rank, k)
  {
    if a == [] {
      assert FirstDifference(a, b, rank, 0);
    } else if b != [] {
      var a', b' := a[1..], b[1..];
      LexIsFirstDifference(a', b', rank);
      if rank(a[0]) < rank(b[0]) {
        assert FirstDifference(a, b, rank, 0);
      } else if rank(a[0]) == rank(b[0]) {
        if k: nat :| FirstDifference(a', b', rank, k) {
          assert FirstDifference(a, b, rank, k + 1);
        }
        if k: nat :| FirstDifference(a, b, rank, k) {
          assert k > 0;
          assert forall i :: 0 <= i < k - 1 ==> a'[i] == a[i + 1] && b'[i] == b[i + 1];
          assert FirstDifference(a', b', rank, k - 1);
        }
      }
    }
  }

  function CharRank(c: char): int {
    c as int
  }

  predicate StringLeq(a: string, b: string) {
    LexLeq(a, b, CharRank)
  }

  /** Strings are ordered by their first different character, smaller codes first. */
  lemma StringLeqIs(a: string, b: string)
    ensures StringLeq(a, b) <==>
            exists k :: 0 <= k <= |a| && k <= |b| && a[..k] == b[..k] && (k == |a| || (k < |b| && a[k] < b[k]))
  {
    LexIsFirstDifference(a, b, CharRank);
    if k: nat :| FirstDifference(a, b, CharRank, k) {
      assert a[..k] == b[..k];
    }
    if k :| 0 <= k <= |a| && k <= |b| && a[..k] == b[..k] && (k == |a| || (k < |b| && a[k] < b[k])) {
      assert forall i :: 0 <= i < k ==> a[i] == a[..k][i] && b[i] == b[..k][i];
      assert FirstDifference(a, b, CharRank, k);
    }
  }

  predicate StringLess(a: string, b: string) {
    StringLeq(a, b) && a != b
  }

  lemma StringOrder(a: string, b: string, c: string)
    ensures StringLeq(a, b) || StringLeq(b, a)
    ensures StringLeq(a, b) && StringLeq(b, a) ==> a == b
    ensures StringLeq(a, b) && StringLeq(b, c) ==> StringLeq(a, c)
    ensures StringLeq("", a)
  {
    LexTotal(a, b, CharRank);
    if StringLeq(a, b) && StringLeq(b, a) {
      LexAntisymmetric(a, b, CharRank);
    }
    if StringLeq(a, b) && StringLeq(b, c) {
      LexTransitive(a, b, c, CharRank);
    }
  }

  lemma StringLessTransitive(a: string, b: string, c: string)
    requires StringLess(a, b) && StringLess(b, c)
    ensures StringLess(a, c)
  {
    StringOrder(a, b, c);
    StringOrder(a, b, a);
  }

  // ----- ordered maps (btree.Map, safe_map.Map)

  /** Entries with strictly increasing keys, as iteration visits them. */
  predicate Increasing<V>(entries: seq<(string, V)>) {
    |entries| <= 1 || (StringLess(entries[0].0, entries[1].0) && Increasing(entries[1..]))
  }

  function Lookup<V>(entries: seq<(string, V)>, key: string): Option<V> {
    if entries == [] then None
    else if entries[0].0 == key then Some(entries[0].1)
    else Lookup(entries[1..], key)
  }

  function Update<V>(entries: seq<(string, V)>, key: string, value: V): (r: seq<(string, V)>)
    ensures r != [] && (r[0].0 == key || (entries != [] && r[0].0 == entries[0].0))
  {
    if entries == [] then [(key, value)]
    else if entries[0].0 == key then [(key, value)] + entries[1..]
    else if StringLeq(entries[0].0, key) then [entries[0]] + Update(entries[1..], key, value)
    else [(key, value)] + entries
  }

  lemma {:induction false} UpdateIncreasing<V>(entries: seq<(string, V)>, key: string, value: V)
    requires Increasing(entries)
    ensures Increasing(Update(entries, key, value))
  {
    if entries != [] {
      StringOrder(entries[0].0, key, key);
      UpdateIncreasing(entries[1..], key, value);
      var r := Update(entries, key, value);
      if entries[0].0 == key {
        assert r[1..] == entries[1..];
      } else if StringLeq(entries[0].0, key) {
        assert r[1..] == Update(entries[1..], key, value);
      } else {
        assert r[1..] == entries;
      }
    }
  }

  lemma {:induction false} LookupUpdate<V>(entries: seq<(string, V)>, key: string, value: V, k: string)
    ensures Lookup(Update(entries, key, value), k) == if k == key then Some(value) else Lookup(entries, k)
  {
    if entries != [] {
      LookupUpdate(entries[1..], key, value, k);
      var r := Update(entries, key, value);
      if entries[0].0 == key {
        assert r[1..] == entries[1..];
      } else if StringLeq(entries[0].0, key) {
        assert r[1..] == Update(entries[1..], key, value);
      } else {
        assert r[1..] == entries;
      }
    }
  }

  lemma {:induction false} IncreasingPairs<V>(entries: seq<(string, V)>, i: nat, j: nat)
    requires Increasing(entries) && i < j < |entries|
    ensures StringLess(entries[i].0, entries[j].0)
  {
    if i > 0 {
      IncreasingPairs(entries[1..], i - 1, j - 1);
    } else if j > 1 {
      IncreasingPairs(entries[1..], 0, j - 1);
      StringLessTransitive(entries[0].0, entries[1].0, entries[j].0);
    }
  }

  /** Each entry of an increasing list is what looking its key up finds. */
  lemma {:induction false} EntryIsLookup<V>(entries: seq<(string, V)>, i: nat)
    requires Increasing(entries) && i < |entries|
    ensures Lookup(entries, entries[i].0) == Some(entries[i].1)
  {
    if i > 0 {
      IncreasingPairs(entries, 0, i);
      EntryIsLookup(entries[1..], i - 1);
    }
  }

  lemma {:induction false} LookupIsEntry<V>(entries: seq<(string, V)>, key: string) returns (i: nat)
    requires Lookup(entries, key).Some?
    ensures i < |entries| && entries[i] == (key, Lookup(entries, key).value)
  {
    if entries[0].0 == key {
      i := 0;
    } else {
      i := LookupIsEntry(entries[1..], key);
      i := i + 1;
    }
  }

  lemma {:induction false} LookupAbsent<V>(entries: seq<(string, V)>, key: string)
    requires Increasing(entries) && entries != [] && StringLess(key, entries[0].0)
    ensures Lookup(entries, key) == None
  {
    StringOrder(key, entries[0].0, key);
    if |entries| > 1 {
      StringLessTransitive(key, entries[0].0, entries[1].0);
      LookupAbsent(entries[1..], key);
    }
  }

  /** Lookups determine an increasing list. */
  lemma {:induction false} LookupsDetermine<V>(a: seq<(string, V)>, b: seq<(string, V)>)
    requires Increasing(a) && Increasing(b)
    requires forall key :: Lookup(a, key) == Lookup(b, key)
    ensures a == b
  {
    if a != [] {
      assert Lookup(a, a[0].0).Some?;
    }
    if b != [] {
      assert Lookup(b, b[0].0).Some?;
    }
    if a != [] {
      SameHead(a, b);
      forall key
        ensures Lookup(a[1..], key) == Lookup(b[1..], key)
      {
        assert Lookup(a, key) == Lookup(b, key);
        if key == a[0].0 {
          LookupBelowTail(a);
          LookupBelowTail(b);
        }
      }
      LookupsDetermine(a[1..], b[1..]);
      assert a == [a[0]] + a[1..] && b == [b[0]] + b[1..];
    }
  }

  lemma LookupBelowTail<V>(entries: seq<(string, V)>)
    requires Increasing(entries) && entries != []
    ensures Lookup(entries[1..], entries[0].0) == None
  {
    if |entries| > 1 {
      LookupAbsent(entries[1..], entries[0].0);
    }
  }

  lemma SameHead<V>(a: seq<(string, V)>, b: seq<(string, V)>)
    requires Increasing(a) && Increasing(b) && a != [] && b != []
    requires forall key :: Lookup(a, key) == Lookup(b, key)
    ensures a[0] == b[0]
  {
    var x, y := a[0].0, b[0].0;
    assert Lookup(a, x) == Lookup(b, x) == Some(a[0].1);
    assert Lookup(a, y) == Lookup(b, y) == Some(b[0].1);
    StringOrder(x, y, x);
    if x != y {
      if StringLess(x, y) {
        LookupAbsent(b, x);
      } else {
        LookupAbsent(a, y);
      }
    }
  }

  class OrderedMap<V> {
    var entries: seq<(string, V)>

    constructor ()
      ensures entries == []
    {
      entries := [];
    }

    method Get(key: string) returns (value: Option<V>)
      ensures value == Lookup(entries, key)
    {
      for i := 0 to |entries|
        invariant Lookup(entries, key) == Lookup(entries[i..], key)
      {
        if entries[i].0 == key {
          return Some(entries[i].1);
        }
        assert entries[i..][1..] == entries[i + 1..];
      }
      return None;
    }

    /** Replaces or inserts one entry and keeps the keys in order. */
    method Set(key: string, value: V)
      requires Increasing(entries)
      modifies this
      ensures entries == Update(old(entries), key, value) && Increasing(entries)
    {
      UpdateIncreasing(entries, key, value);
      entries := Update(entries, key, value);
    }
  }
}
