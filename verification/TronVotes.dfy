/** Tron votes: taking votes back when a stake is reduced. */
module TronVotes {
  import opened Numbers
  import opened Selection
  import opened Sorting

  const TWO_64: nat := 0x1_0000_0000_0000_0000

  class Vote {
    const voteAddress: string
    var voteCount: nat

    constructor (voteAddress: string, voteCount: nat)
      ensures this.voteAddress == voteAddress && this.voteCount == voteCount
    {
      this.voteAddress, this.voteCount := voteAddress, voteCount;
    }
  }

  const Count: nat -> int := (n: nat) => n as int
  const Negated: nat -> int := (n: nat) => -(n as int)

  function Counts(votes: seq<Vote>): (counts: seq<nat>)
    reads votes
    ensures |counts| == |votes|
  {
    seq(|votes|, i requires 0 <= i < |votes| reads votes => votes[i].voteCount)
  }

  ghost predicate Distinct(votes: seq<Vote>) {
    forall i, j :: 0 <= i < j < |votes| ==> votes[i] != votes[j]
  }

  predicate Ascending(counts: seq<nat>) {
    forall i, j :: 0 <= i < j < |counts| ==> counts[i] <= counts[j]
  }

  // ----- taking votes back, on the counts alone

  /** Takes up to remove votes back, in order, each validator giving all it has before the next gives any. */
  function Reduced(counts: seq<nat>, remove: nat): (left: seq<nat>)
    ensures |left| == |counts|
  {
    if counts == [] then []
    else
      var removed := Min(counts[0], remove);
      [counts[0] - removed] + Reduced(counts[1..], remove - removed)
  }

  lemma {:induction false} ReducedByNothing(counts: seq<nat>)
    ensures Reduced(counts, 0) == counts
  {
    if counts != [] {
      ReducedByNothing(counts[1..]);
    }
  }

  lemma {:induction false} ReducedNeverRaises(counts: seq<nat>, remove: nat, i: nat)
    requires i < |counts|
    ensures Reduced(counts, remove)[i] <= counts[i]
  {
    if i > 0 {
      ReducedNeverRaises(counts[1..], remove - Min(counts[0], remove), i - 1);
    }
  }

  /** Exactly the requested number of votes is taken, or all of them when there are fewer. */
  lemma {:induction false} ReducedTotal(counts: seq<nat>, remove: nat)
    ensures Sum(counts, Count) >= 0
    ensures Sum(Reduced(counts, remove), Count) == Sum(counts, Count) - Min(Sum(counts, Count), remove)
  {
    if counts != [] {
      var removed := Min(counts[0], remove);
      ReducedTotal(counts[1..], remove - removed);
      assert Reduced(counts, remove)[1..] == Reduced(counts[1..], remove - removed);
    }
  }

  function Zeros(counts: seq<nat>): nat {
    if counts == [] then 0 else (if counts[0] == 0 then 1 else 0) + Zeros(counts[1..])
  }

  /** A leading stretch that the votes to remove cover is zeroed altogether. */
  lemma {:induction false} PrefixZeroed(counts: seq<nat>, remove: nat, z: nat)
    requires z <= |counts| && Sum(counts[..z], Count) <= remove
    ensures Zeros(Reduced(counts, remove)) >= z
  {
    if z > 0 {
      var removed := Min(counts[0], remove);
      SumHead(counts, z, Count);
      ReducedTotal(counts[1..][..z - 1], 0);
      assert removed == counts[0];
      PrefixZeroed(counts[1..], remove - removed, z - 1);
      assert Reduced(counts, remove)[1..] == Reduced(counts[1..], remove - removed);
    }
  }

  predicate NeverRaises(left: seq<nat>, counts: seq<nat>) {
    |left| == |counts| && forall i :: 0 <= i < |counts| ==> left[i] <= counts[i]
  }

  /** What a reduction zeroes is a selection of validators whose votes it took back. */
  lemma {:induction false} ZeroedSelection(counts: seq<nat>, left: seq<nat>) returns (zeroed: seq<nat>)
    requires NeverRaises(left, counts)
    ensures multiset(zeroed) <= multiset(counts) && |zeroed| == Zeros(left)
    ensures Sum(zeroed, Count) <= Sum(counts, Count) - Sum(left, Count)
  {
    if counts == [] {
      zeroed := [];
    } else {
      var rest := ZeroedSelection(counts[1..], left[1..]);
      assert counts == [counts[0]] + counts[1..];
      if left[0] == 0 {
        zeroed := [counts[0]] + rest;
        assert zeroed[1..] == rest;
      } else {
        zeroed := rest;
      }
    }
  }

  lemma {:induction false} SumNegated(counts: seq<nat>)
    ensures Sum(counts, Negated) == -Sum(counts, Count)
  {
    if counts != [] {
      SumNegated(counts[1..]);
    }
  }

  /**
   * Starting with the smallest counts clears the most validators: no way of taking back no more votes,
   * without raising any count, leaves more validators without votes.
   */
  lemma ReducedZeroesMost(counts: seq<nat>, remove: nat, other: seq<nat>)
    requires Ascending(counts) && NeverRaises(other, counts)
    requires Sum(counts, Count) - Sum(other, Count) <= remove
    ensures Zeros(other) <= Zeros(Reduced(counts, remove))
  {
    var zeroed := ZeroedSelection(counts, other);
    assert Descending(counts, Negated);
    LeadingIsHeaviest(counts, zeroed, Negated);
    SumNegated(zeroed);
    SumNegated(counts[..|zeroed|]);
    PrefixZeroed(counts, remove, |zeroed|);
  }

  // ----- the same in place

  const NoMore: (nat, nat) -> bool := (x: nat, y: nat) => x <= y

  /** Reorders the votes by count, smallest first. */
  method SortByCount(votes: array<Vote>)
    modifies votes
    ensures Ascending(Counts(votes[..]))
    ensures multiset(votes[..]) == multiset(old(votes[..]))
  {
    for n := 0 to votes.Length
      invariant SortedBy(Counts(votes[..])[..n], NoMore)
      invariant multiset(votes[..]) == multiset(old(votes[..]))
    {
      InsertByCount(votes, n);
    }
    assert Counts(votes[..])[..votes.Length] == Counts(votes[..]);
    SortedAscends(Counts(votes[..]));
  }

  lemma SortedAscends(counts: seq<nat>)
    requires SortedBy(counts, NoMore)
    ensures Ascending(counts)
  {
    assert forall i, j :: 0 <= i < j < |counts| ==> NoMore(counts[i], counts[j]);
  }

  method InsertByCount(votes: array<Vote>, n: nat)
    requires n < votes.Length && SortedBy(Counts(votes[..])[..n], NoMore)
    modifies votes
    ensures SortedBy(Counts(votes[..])[..n + 1], NoMore)
    ensures multiset(votes[..]) == multiset(old(votes[..]))
  {
    assert TotalPreorder(NoMore);
    hide SortedBy, SortedBut, TotalPreorder;
    StartSortedBut(Counts(votes[..]), n, NoMore);
    var k: nat := n;
    while k > 0 && votes[k].voteCount < votes[k - 1].voteCount
      invariant k <= n && SortedBut(Counts(votes[..]), n, k, NoMore)
      invariant multiset(votes[..]) == multiset(old(votes[..]))
    {
      ghost var was, counts := votes[..], Counts(votes[..]);
      SwapSortedBut(counts, n, k, NoMore);
      votes[k - 1], votes[k] := votes[k], votes[k - 1];
      assert votes[..] == was[k - 1 := was[k]][k := was[k - 1]];
      assert Counts(votes[..]) == counts[k - 1 := counts[k]][k := counts[k - 1]];
      k := k - 1;
    }
    EndSortedBut(Counts(votes[..]), n, k, NoMore);
  }

  lemma DistinctIsMultiplicity(votes: seq<Vote>, other: seq<Vote>)
    requires Distinct(votes) && multiset(votes) == multiset(other)
    ensures Distinct(other)
  {
    forall i, j | 0 <= i < j < |other|
      ensures other[i] != other[j]
    {
      if other[i] == other[j] {
        assert other == other[..i] + [other[i]] + other[i + 1..j] + [other[j]] + other[j + 1..];
        assert multiset(other)[other[i]] >= 2;
        OnceEach(votes, other[i]);
      }
    }
  }

  lemma {:induction false} OnceEach(votes: seq<Vote>, v: Vote)
    requires Distinct(votes)
    ensures multiset(votes)[v] <= 1
  {
    if votes != [] {
      OnceEach(votes[1..], v);
      assert votes == [votes[0]] + votes[1..];
      assert Distinct(votes[1..]) && votes[0] !in votes[1..];
    }
  }

  /**
   * Takes votes back, smallest counts first. It fails exactly when there are fewer than requested, and has
   * then zeroed them all. before holds the counts in the order the votes end up in.
   */
  method ReduceTotalVoteCount(votes: array<Vote>, reduceCount: nat) returns (ok: bool, ghost before: seq<nat>)
    requires Distinct(votes[..])
    modifies votes, votes[..]
    ensures multiset(votes[..]) == multiset(old(votes[..]))
    ensures |before| == votes.Length && Ascending(before)
    ensures multiset(before) == multiset(old(Counts(votes[..])))
    ensures forall i :: 0 <= i < votes.Length ==>
              var v := votes[i]; v in old(votes[..]) && before[i] == old(v.voteCount)
    ensures Counts(votes[..]) == Reduced(before, reduceCount)
    ensures ok <==> reduceCount <= Sum(before, Count)
  {
    hide Distinct, Reduced, Sum;
    SortByCount(votes);
    DistinctIsMultiplicity(old(votes[..]), votes[..]);
    SamePlaces(old(votes[..]), votes[..]);
    CountsPermuted(old(votes[..]), votes[..]);
    before := Counts(votes[..]);
    ok := ReduceInOrder(votes, reduceCount, before);
  }

  /** The loop of the reduction. */
  method ReduceInOrder(votes: array<Vote>, reduceCount: nat, ghost before: seq<nat>) returns (ok: bool)
    requires Distinct(votes[..]) && before == Counts(votes[..])
    modifies votes[..]
    ensures Counts(votes[..]) == Reduced(before, reduceCount)
    ensures ok <==> reduceCount <= Sum(before, Count)
  {
    hide Distinct, Reduced, Sum, Min;
    ghost var after := Reduced(before, reduceCount);
    var remaining: nat, i: nat := reduceCount, 0;
    NoneYet(before);
    NoneYet(after);
    while i < votes.Length
      invariant i <= votes.Length
      invariant forall j :: 0 <= j < i ==> votes[j].voteCount == after[j]
      invariant forall j :: i <= j < votes.Length ==> votes[j].voteCount == before[j]
      invariant after[i..] == Reduced(before[i..], remaining)
      invariant Left(before, i, reduceCount, remaining)
    {
      ReducedStep(before, after, i, remaining);
      LeftStep(before, i, reduceCount, remaining);
      PairwiseDistinct(votes[..], i);
      remaining := TakeFrom(votes[i], remaining);
      i := i + 1;
      if remaining == 0 {
        break;
      }
    }
    if i < votes.Length {
      ReducedByNothing(before[i..]);
      RestUnchanged(before, after, i);
    }
    LeftAtEnd(before, i, reduceCount, remaining);
    ok := remaining == 0;
  }

  /** The body of that loop: takes what one vote can give. */
  method TakeFrom(v: Vote, reduceCount: nat) returns (remaining: nat)
    modifies v
    ensures v.voteCount == old(v.voteCount) - Min(old(v.voteCount), reduceCount)
    ensures remaining == reduceCount - Min(old(v.voteCount), reduceCount)
  {
    var removedVotes := if v.voteCount < reduceCount then v.voteCount else reduceCount;
    remaining := reduceCount - removedVotes;
    v.voteCount := v.voteCount - removedVotes;
  }

  /** What is left to remove after the first i counts. */
  ghost predicate Left(before: seq<nat>, i: nat, reduceCount: nat, remaining: nat)
    requires i <= |before|
  {
    remaining == if Sum(before[..i], Count) < reduceCount then reduceCount - Sum(before[..i], Count) else 0
  }

  lemma LeftStep(before: seq<nat>, i: nat, reduceCount: nat, remaining: nat)
    requires i < |before| && Left(before, i, reduceCount, remaining)
    ensures Left(before, i + 1, reduceCount, remaining - Min(before[i], remaining))
  {
    SumExtend(before, i, Count);
  }

  lemma LeftAtEnd(before: seq<nat>, i: nat, reduceCount: nat, remaining: nat)
    requires i <= |before| && Left(before, i, reduceCount, remaining) && (i == |before| || remaining == 0)
    ensures remaining == 0 <==> reduceCount <= Sum(before, Count)
  {
    assert before[..|before|] == before;
    PrefixSum(before, i);
  }

  lemma CountsWithout(votes: seq<Vote>, i: nat)
    requires i < |votes|
    ensures multiset(Counts(votes)) == multiset(Counts(Without(votes, i))) + multiset{votes[i].voteCount}
  {
    assert Counts(Without(votes, i)) == Without(Counts(votes), i);
  }

  lemma {:induction false} CountsPermuted(was: seq<Vote>, votes: seq<Vote>)
    requires multiset(was) == multiset(votes)
    ensures multiset(Counts(was)) == multiset(Counts(votes))
    decreases |was|
  {
    hide Counts, Without;
    if was == [] {
      assert |votes| == |multiset(votes)| == 0;
      assert was == votes;
    } else {
      assert was[0] in multiset(votes);
      var i :| 0 <= i < |votes| && votes[i] == was[0];
      var rest := Without(was, 0);
      CountsPermuted(rest, Without(votes, i));
      CountsWithout(was, 0);
      CountsWithout(votes, i);
    }
  }

  lemma SamePlaces(was: seq<Vote>, votes: seq<Vote>)
    requires multiset(was) == multiset(votes)
    ensures forall i :: 0 <= i < |votes| ==> votes[i] in was
  {
    forall i | 0 <= i < |votes|
      ensures votes[i] in was
    {
      assert votes[i] in multiset(votes);
      assert votes[i] in multiset(was);
    }
  }

  lemma NoneYet(before: seq<nat>)
    ensures before[0..] == before
    ensures forall r: nat :: Left(before, 0, r, r)
  {
  }

  lemma ReducedStep(before: seq<nat>, after: seq<nat>, i: nat, remaining: nat)
    requires i < |before| && |after| == |before| && after[i..] == Reduced(before[i..], remaining)
    ensures after[i] == before[i] - Min(before[i], remaining)
    ensures after[i + 1..] == Reduced(before[i + 1..], remaining - Min(before[i], remaining))
  {
    assert before[i..][1..] == before[i + 1..] && after[i..][1..] == after[i + 1..];
    assert after[i] == after[i..][0];
  }

  lemma RestUnchanged(before: seq<nat>, after: seq<nat>, i: nat)
    requires i <= |before| == |after| && after[i..] == before[i..]
    ensures forall j :: i <= j < |before| ==> after[j] == before[j]
  {
    forall j | i <= j < |before|
      ensures after[j] == before[j]
    {
      assert after[j] == after[i..][j - i] && before[j] == before[i..][j - i];
    }
  }

  lemma PairwiseDistinct(votes: seq<Vote>, i: nat)
    requires Distinct(votes) && i < |votes|
    ensures forall j :: 0 <= j < |votes| && j != i ==> votes[j] != votes[i]
  {
  }

  lemma PrefixSum(counts: seq<nat>, i: nat)
    requires i <= |counts|
    ensures 0 <= Sum(counts[..i], Count) <= Sum(counts, Count)
  {
    SumConcat(counts[..i], counts[i..], Count);
    assert counts == counts[..i] + counts[i..];
    ReducedTotal(counts[..i], 0);
    ReducedTotal(counts[i..], 0);
  }
}
