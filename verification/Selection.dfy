/** Choosing the fewest items that reach a target: why taking the largest first is best. */
module Selection {
  import opened Sorting

  function Sum<T>(s: seq<T>, f: T -> int): int {
    if s == [] then 0 else f(s[0]) + Sum(s[1..], f)
  }

  lemma {:induction false} SumConcat<T>(s: seq<T>, t: seq<T>, f: T -> int)
    ensures Sum(s + t, f) == Sum(s, f) + Sum(t, f)
  {
    if s == [] {
      assert s + t == t;
    } else {
      SumConcat(s[1..], t, f);
      assert (s + t)[1..] == s[1..] + t;
    }
  }

  lemma SumExtend<T>(s: seq<T>, k: nat, f: T -> int)
    requires k < |s|
    ensures Sum(s[..k + 1], f) == Sum(s[..k], f) + f(s[k])
  {
    SumConcat(s[..k], [s[k]], f);
    assert s[..k + 1] == s[..k] + [s[k]];
    assert Sum([s[k]], f) == f(s[k]) + Sum([], f);
  }

  lemma SumWithout<T>(s: seq<T>, i: nat, f: T -> int)
    requires i < |s|
    ensures Sum(s, f) == f(s[i]) + Sum(Without(s, i), f)
  {
    SumConcat(s[..i], s[i + 1..], f);
    SumConcat(s[..i], s[i..], f);
    assert s == s[..i] + s[i..] && s[i..][1..] == s[i + 1..];
  }

  lemma SumHead<T>(s: seq<T>, k: nat, f: T -> int)
    requires 0 < k <= |s|
    ensures Sum(s[..k], f) == f(s[0]) + Sum(s[1..][..k - 1], f)
  {
    assert s[..k][1..] == s[1..][..k - 1];
  }

  /** The sum depends only on which items occur, and how often. */
  lemma {:induction false} SumOfPermutation<T>(s: seq<T>, t: seq<T>, f: T -> int)
    requires multiset(s) == multiset(t)
    ensures Sum(s, f) == Sum(t, f)
  {
    if s == [] {
      assert |t| == |multiset(t)| == 0;
    } else {
      assert s[0] in multiset(t);
      var i :| 0 <= i < |t| && t[i] == s[0];
      assert s == [s[0]] + s[1..];
      SumOfPermutation(s[1..], Without(t, i), f);
      SumWithout(t, i, f);
    }
  }

  predicate Descending<T>(s: seq<T>, f: T -> int) {
    forall i, j :: 0 <= i < j < |s| ==> f(s[i]) >= f(s[j])
  }

  /** In a descending list, k leading items weigh at least as much as any k later consecutive ones. */
  lemma {:induction false} ShiftedSum<T>(s: seq<T>, k: nat, f: T -> int)
    requires Descending(s, f) && k < |s|
    ensures Sum(s[1..][..k], f) <= Sum(s[..k], f)
  {
    if k > 0 {
      ShiftedSum(s, k - 1, f);
      SumExtend(s[1..], k - 1, f);
      SumExtend(s, k - 1, f);
    }
  }

  /** Exchange: no selection of m items outweighs the m leading items of a descending list. */
  lemma {:induction false} LeadingIsHeaviest<T>(s: seq<T>, t: seq<T>, f: T -> int)
    requires Descending(s, f) && multiset(t) <= multiset(s)
    ensures |t| <= |s| && Sum(t, f) <= Sum(s[..|t|], f)
  {
    hide Without, Sum;
    SubMultisetLength(s, t);
    if s == [] {
      assert t == s[..|t|];
    } else {
      if i :| 0 <= i < |t| && t[i] == s[0] {
        DropChosen(s, t, i);
        LeadingIsHeaviest(s[1..], Without(t, i), f);
        SumWithout(t, i, f);
        SumHead(s, |t|, f);
      } else {
        DropUnchosen(s, t);
        LeadingIsHeaviest(s[1..], t, f);
        ShiftedSum(s, |t|, f);
      }
    }
  }

  lemma DropChosen<T>(s: seq<T>, t: seq<T>, i: nat)
    requires s != [] && i < |t| && t[i] == s[0] && multiset(t) <= multiset(s)
    ensures multiset(Without(t, i)) <= multiset(s[1..])
  {
    assert s == [s[0]] + s[1..];
  }

  lemma DropUnchosen<T>(s: seq<T>, t: seq<T>)
    requires s != [] && s[0] !in t && multiset(t) <= multiset(s)
    ensures multiset(t) <= multiset(s[1..]) && |t| <= |s| - 1
  {
    assert s == [s[0]] + s[1..];
    assert s[0] !in multiset(t);
    SubMultisetLength(s[1..], t);
  }

  lemma SubMultisetLength<T>(s: seq<T>, t: seq<T>)
    requires multiset(t) <= multiset(s)
    ensures |t| <= |s|
  {
    assert |multiset(s)| == |multiset(t)| + |multiset(s) - multiset(t)|;
  }

  /** k is the least number of items, but at least floor, with which some selection from s reaches target. */
  ghost predicate LeastCount<T(!new)>(s: seq<T>, f: T -> int, target: int, floor: nat, k: nat) {
    && (exists t: seq<T> :: multiset(t) <= multiset(s) && |t| == k && Sum(t, f) >= target)
    && floor <= k
    && forall t: seq<T> :: multiset(t) <= multiset(s) && |t| >= floor && Sum(t, f) >= target ==> |t| >= k
  }

  ghost predicate Unreachable<T(!new)>(s: seq<T>, f: T -> int, target: int, floor: nat) {
    forall t: seq<T> :: multiset(t) <= multiset(s) && |t| >= floor ==> Sum(t, f) < target
  }

  /** The first prefix of a descending list to reach the target has the least possible size. */
  lemma FirstPrefixIsLeast<T(!new)>(original: seq<T>, s: seq<T>, f: T -> int, target: int, floor: nat, k: nat)
    requires multiset(s) == multiset(original) && Descending(s, f)
    requires floor <= k <= |s| && Sum(s[..k], f) >= target
    requires forall j :: floor <= j < k ==> Sum(s[..j], f) < target
    ensures LeastCount(original, f, target, floor, k)
  {
    assert s == s[..k] + s[k..];
    assert multiset(s[..k]) <= multiset(s);
    forall t: seq<T> | multiset(t) <= multiset(original) && |t| >= floor && Sum(t, f) >= target
      ensures |t| >= k
    {
      LeadingIsHeaviest(s, t, f);
    }
  }

  lemma NoPrefixReaches<T(!new)>(original: seq<T>, s: seq<T>, f: T -> int, target: int, floor: nat)
    requires multiset(s) == multiset(original) && Descending(s, f)
    requires forall j :: floor <= j <= |s| ==> Sum(s[..j], f) < target
    ensures Unreachable(original, f, target, floor)
  {
    forall t: seq<T> | multiset(t) <= multiset(original) && |t| >= floor
      ensures Sum(t, f) < target
    {
      LeadingIsHeaviest(s, t, f);
    }
  }
}
