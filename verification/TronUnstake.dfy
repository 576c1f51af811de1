/** Tron unstaking: whether votes have to be taken back, and what vote transaction goes with the unfreeze. */
module TronUnstake {
  import opened Numbers
  import opened Selection
  import opened Sorting
  import opened Wrappers
  import opened TronVotes

  datatype Action = VoteForSpecificValidator | VoteForAnyValidator | NoVoteRequired

  /** Addresses with their votes, as a vote transaction lists them. */
  type VoteList = seq<(string, int)>

  datatype UnstakeError =
    NoActiveVotes | VotingInputRequired | NotEnoughVotes | ConversionFailed | InsufficientStake

  /** The decision carries a copy of the validator's vote. */
  datatype Decision = Decision(action: Action, voteCount: nat)

  /** Unsigned 64-bit wrap-around. */
  function Wrap(n: int): (w: nat)
    ensures w < TWO_64 && (0 <= n < TWO_64 ==> w == n)
  {
    n % TWO_64
  }

  ghost predicate InRange(votes: seq<Vote>)
    reads votes
  {
    forall v :: v in votes ==> v.voteCount < TWO_64
  }

  function Total(votes: seq<Vote>): int
    reads votes
  {
    Sum(Counts(votes), Count)
  }

  lemma TotalExtend(votes: seq<Vote>, i: nat)
    requires i < |votes|
    ensures Total(votes[..i + 1]) == Total(votes[..i]) + votes[i].voteCount
  {
    SumExtend(Counts(votes), i, Count);
    assert Counts(votes)[..i + 1] == Counts(votes[..i + 1]) && Counts(votes)[..i] == Counts(votes[..i]);
  }

  /** The first vote for the validator. */
  function FirstFor(votes: seq<Vote>, validator: string): (k: nat)
    ensures k <= |votes| && (k < |votes| ==> votes[k].voteAddress == validator)
    ensures forall i :: 0 <= i < k ==> votes[i].voteAddress != validator
  {
    if votes == [] || votes[0].voteAddress == validator then 0 else 1 + FirstFor(votes[1..], validator)
  }

  lemma FirstForIs(votes: seq<Vote>, validator: string, k: nat)
    requires k < |votes| && votes[k].voteAddress == validator
    requires forall i :: 0 <= i < k ==> votes[i].voteAddress != validator
    ensures FirstFor(votes, validator) == k
  {
  }

  /** totalVotes is what the frozen balance converts to, when it does. */
  method DetermineUnstakeVoteAction(
      votes: array<Vote>, validator: string, votesToUnstake: nat, totalVotes: Option<nat>, voteInput: bool)
    returns (r: Result<Decision, UnstakeError>)
    requires InRange(votes[..]) && votesToUnstake < TWO_64
    ensures validator != "" ==>
              var k := FirstFor(votes[..], validator);
              r == if k == votes.Length then Err(NoActiveVotes)
                   else if !voteInput then Err(VotingInputRequired)
                   else if votes[k].voteCount < votesToUnstake then Err(NotEnoughVotes)
                   else Ok(Decision(VoteForSpecificValidator, votes[k].voteCount))
    ensures validator == "" ==>
              r == if totalVotes.None? then Err(ConversionFailed)
                   else if votesToUnstake <= Unused(Total(votes[..]), totalVotes.value) then Ok(Decision(NoVoteRequired, 0))
                   else if voteInput then Ok(Decision(VoteForAnyValidator, 0))
                   else Err(VotingInputRequired)
  {
    var validatorVotes: Option<Vote> := None;
    var usedVotes: nat := 0;
    var i := 0;
    while i < votes.Length
      invariant 0 <= i <= votes.Length && validatorVotes.None?
      invariant usedVotes == Wrap(Total(votes[..i]))
      invariant validator != "" ==> forall j :: 0 <= j < i ==> votes[j].voteAddress != validator
    {
      WrapAdd(Total(votes[..i]), votes[i].voteCount);
      TotalExtend(votes[..], i);
      assert votes[..][..i] == votes[..i] && votes[..][..i + 1] == votes[..i + 1];
      usedVotes := Wrap(usedVotes + votes[i].voteCount);
      if validator != "" && validator == votes[i].voteAddress {
        validatorVotes := Some(votes[i]);
        FirstForIs(votes[..], validator, i);
        break;
      }
      i := i + 1;
    }
    if validator != "" && validatorVotes.None? {
      assert FirstFor(votes[..], validator) == votes.Length;
      return Err(NoActiveVotes);
    }
    if validatorVotes.Some? {
      if !voteInput {
        return Err(VotingInputRequired);
      }
      if validatorVotes.value.voteCount < votesToUnstake {
        return Err(NotEnoughVotes);
      }
      return Ok(Decision(VoteForSpecificValidator, validatorVotes.value.voteCount));
    }
    assert votes[..votes.Length] == votes[..];
    if totalVotes.None? {
      return Err(ConversionFailed);
    }
    var remainingVotes := Wrap(totalVotes.value - usedVotes);
    if remainingVotes < votesToUnstake {
      return if voteInput then Ok(Decision(VoteForAnyValidator, 0)) else Err(VotingInputRequired);
    }
    return Ok(Decision(NoVoteRequired, 0));
  }

  lemma WrapAdd(total: int, n: nat)
    ensures Wrap(Wrap(total) + n) == Wrap(total + n)
  {
  }

  // ----- the vote transaction

  function Addresses(votes: seq<Vote>): (addresses: seq<string>)
    ensures |addresses| == |votes|
  {
    seq(|votes|, i requires 0 <= i < |votes| => votes[i].voteAddress)
  }

  function Entry(address: string, count: nat): VoteList {
    if count == 0 then [] else [(address, ToInt64(count))]
  }

  /** The votes listed in a vote transaction: those that are not empty. */
  function Listed(addresses: seq<string>, counts: seq<nat>): VoteList
    requires |addresses| == |counts|
  {
    if counts == [] then []
    else
      var n := |counts| - 1;
      Listed(addresses[..n], counts[..n]) + Entry(addresses[n], counts[n])
  }

  /** No transaction is made when nothing is listed. */
  function Contract(addresses: seq<string>, counts: seq<nat>): Option<VoteList>
    requires |addresses| == |counts|
  {
    if Listed(addresses, counts) == [] then None else Some(Listed(addresses, counts))
  }

  /** No transaction is made when no vote is left. */
  method NewVotes(votes: array<Vote>) returns (contract: Option<VoteList>)
    ensures contract == Contract(Addresses(votes[..]), Counts(votes[..]))
  {
    var listed := [];
    for i := 0 to votes.Length
      invariant listed == Listed(Addresses(votes[..i]), Counts(votes[..i]))
    {
      assert Addresses(votes[..i + 1])[..i] == Addresses(votes[..i]);
      assert Counts(votes[..i + 1])[..i] == Counts(votes[..i]);
      var v := votes[i];
      if v.voteCount != 0 {
        listed := listed + [(v.voteAddress, ToInt64(v.voteCount))];
      }
    }
    assert votes[..votes.Length] == votes[..];
    return if listed == [] then None else Some(listed);
  }

  const ListedCount: ((string, int)) -> int := (v: (string, int)) => v.1

  /** The listed votes are never more than the votes, and all of them exactly when each fits a signed count. */
  lemma {:induction false} ListedTotal(addresses: seq<string>, counts: seq<nat>)
    requires |addresses| == |counts|
    ensures Sum(Listed(addresses, counts), ListedCount) <= Sum(counts, Count)
    ensures Sum(Listed(addresses, counts), ListedCount) == Sum(counts, Count) <==>
            forall i :: 0 <= i < |counts| ==> counts[i] < TWO_64 / 2
  {
    if counts != [] {
      var n := |counts| - 1;
      ListedTotal(addresses[..n], counts[..n]);
      SumExtend(counts, n, Count);
      assert counts[..n + 1] == counts;
      SumConcat(Listed(addresses[..n], counts[..n]), Entry(addresses[n], counts[n]), ListedCount);
      EntryCount(addresses[n], counts[n]);
      assert (forall i :: 0 <= i < n ==> counts[..n][i] < TWO_64 / 2) <==> forall i :: 0 <= i < n ==> counts[i] < TWO_64 / 2;
    }
  }

  lemma EntryCount(address: string, count: nat)
    ensures Sum(Entry(address, count), ListedCount) <= count
    ensures Sum(Entry(address, count), ListedCount) == count <==> count < TWO_64 / 2
  {
    assert Entry(address, count) != [] ==> Entry(address, count)[1..] == [];
  }

  lemma {:induction false} ListedSplits(addresses: seq<string>, counts: seq<nat>, k: nat)
    requires k < |addresses| == |counts|
    ensures Listed(addresses, counts) ==
            Listed(addresses[..k], counts[..k]) + Entry(addresses[k], counts[k])
            + Listed(addresses[k + 1..], counts[k + 1..])
  {
    hide Entry;
    var n := |counts| - 1;
    if k < n {
      ListedSplits(addresses[..n], counts[..n], k);
      LastOfRest(addresses, k);
      LastOfRest(counts, k);
      ConcatAssociates(Listed(addresses[..k], counts[..k]) + Entry(addresses[k], counts[k]),
                       Listed(addresses[..n][k + 1..], counts[..n][k + 1..]), Entry(addresses[n], counts[n]));
    } else {
      assert Listed(addresses[k + 1..], counts[k + 1..]) == [];
    }
  }

  lemma LastOfRest<T>(s: seq<T>, k: nat)
    requires k + 1 < |s|
    ensures s[..|s| - 1][..k] == s[..k] && s[..|s| - 1][k] == s[k]
    ensures s[..|s| - 1][k + 1..] == s[k + 1..][..|s| - k - 2] && s[k + 1..][|s| - k - 2] == s[|s| - 1]
  {
  }

  /** Votes are listed in order, each with its validator; empty ones leave no place. */
  lemma {:induction false} ListedAt(addresses: seq<string>, counts: seq<nat>, k: nat)
    requires k < |addresses| == |counts|
    ensures |Listed(addresses, counts)| == |counts| - Zeros(counts)
    ensures var place := k - Zeros(counts[..k]);
            counts[k] != 0 ==> 0 <= place < |Listed(addresses, counts)|
                               && Listed(addresses, counts)[place] == (addresses[k], ToInt64(counts[k]))
  {
    var n := |counts| - 1;
    var before, last := Listed(addresses[..n], counts[..n]), Entry(addresses[n], counts[n]);
    assert Listed(addresses, counts) == before + last;
    ZerosExtend(counts, n);
    assert counts[..n + 1] == counts;
    if n > 0 {
      ListedAt(addresses[..n], counts[..n], if k < n then k else 0);
    } else {
      assert before == [] && Zeros(counts[..0]) == 0;
    }
    if k < n {
      assert counts[..n][..k] == counts[..k];
    }
  }

  lemma {:induction false} ZerosExtend(counts: seq<nat>, n: nat)
    requires n < |counts|
    ensures Zeros(counts[..n + 1]) == Zeros(counts[..n]) + if counts[n] == 0 then 1 else 0
  {
    if n == 0 {
      assert counts[..1][1..] == [];
    } else {
      ZerosExtend(counts[1..], n - 1);
      assert counts[..n + 1][1..] == counts[1..][..n] && counts[..n][1..] == counts[1..][..n - 1];
    }
  }

  lemma EntriesDiffer(before: VoteList, after: VoteList, address: string, count: nat, lower: nat)
    requires lower < count < TWO_64
    ensures before + Entry(address, lower) + after != before + Entry(address, count) + after
  {
    var s, t := before + Entry(address, lower) + after, before + Entry(address, count) + after;
    if lower == 0 {
      assert |t| == |s| + 1;
    } else {
      assert s[|before|].1 == ToInt64(lower) && t[|before|].1 == ToInt64(count);
      assert lower % TWO_64 != count % TWO_64;
    }
  }

  // ----- unstaking

  function Lowered(counts: seq<nat>, k: nat, stakeVotes: nat): seq<nat>
    requires k < |counts| && stakeVotes <= counts[k]
  {
    counts[k := counts[k] - stakeVotes]
  }

  /** A vote transaction with one count lowered differs from one without whenever anything is taken off it. */
  lemma LoweringShows(addresses: seq<string>, counts: seq<nat>, k: nat, stakeVotes: nat)
    requires k < |addresses| == |counts| && stakeVotes <= counts[k] < TWO_64
    ensures Contract(addresses, counts) == Contract(addresses, Lowered(counts, k, stakeVotes)) <==> stakeVotes == 0
  {
    hide Listed, Entry;
    var lowered := Lowered(counts, k, stakeVotes);
    ListedSplits(addresses, counts, k);
    ListedSplits(addresses, lowered, k);
    assert lowered[..k] == counts[..k] && lowered[k + 1..] == counts[k + 1..];
    if stakeVotes > 0 {
      EntriesDiffer(Listed(addresses[..k], counts[..k]), Listed(addresses[k + 1..], counts[k + 1..]),
                    addresses[k], counts[k], counts[k] - stakeVotes);
    } else {
      assert lowered == counts;
    }
  }

  /**
   * The votes of a named validator stay cast: with the unstaked amount they are within the frozen votes exactly
   * when the unused ones cover that amount. Had the count been lowered they always would be.
   */
  lemma NamedVotesStayCast(was: seq<nat>, now: seq<nat>, k: nat, stakeVotes: nat, totalVotes: nat)
    requires k < |was| && stakeVotes <= was[k] && Sum(was, Count) <= totalVotes
    requires now == was
    ensures Sum(now, Count) + stakeVotes <= totalVotes <==> stakeVotes <= totalVotes - Sum(was, Count)
    ensures Sum(Lowered(was, k, stakeVotes), Count) + stakeVotes == Sum(was, Count) <= totalVotes
  {
    var lowered := Lowered(was, k, stakeVotes);
    assert was == was[..k] + was[k..] && lowered == was[..k] + lowered[k..];
    SumConcat(was[..k], was[k..], Count);
    SumConcat(was[..k], lowered[k..], Count);
    assert lowered[k..][1..] == was[k..][1..];
  }

  /** now is what taking votes back from was, smallest counts first, leaves, in some order of equal counts. */
  ghost predicate ReducedFrom(was: seq<nat>, now: seq<nat>, remove: nat) {
    exists before: seq<nat> :: multiset(before) == multiset(was) && Ascending(before) && now == Reduced(before, remove)
  }

  /**
   * The part of an unstake that concerns votes: the vote transaction to send before the unfreeze, if any. For
   * a named validator the code lowers a copy of its vote, so the transaction repeats the votes as they were: it
   * is the one with that validator's count lowered only when nothing is unstaked.
   */
  method UnstakeVotes(
      votes: array<Vote>, validator: string, stakeVotes: nat, totalVotes: Option<nat>, voteInput: bool)
    returns (r: Result<Option<VoteList>, UnstakeError>)
    requires Distinct(votes[..]) && InRange(votes[..]) && stakeVotes < TWO_64
    modifies votes, votes[..]
    ensures multiset(votes[..]) == multiset(old(votes[..]))
    ensures validator != "" ==>
              var k := FirstFor(old(votes[..]), validator);
              && votes[..] == old(votes[..]) && Counts(votes[..]) == old(Counts(votes[..]))
              && r == if k == votes.Length then Err(NoActiveVotes)
                      else if !voteInput then Err(VotingInputRequired)
                      else if old(Counts(votes[..]))[k] < stakeVotes then Err(NotEnoughVotes)
                      else Ok(Contract(Addresses(votes[..]), Counts(votes[..])))
    ensures validator != "" && r.Ok? ==>
              var counts, k := old(Counts(votes[..])), FirstFor(old(votes[..]), validator);
              && k < |counts| && stakeVotes <= counts[k]
              && (r.value == Contract(Addresses(votes[..]), Lowered(counts, k, stakeVotes)) <==> stakeVotes == 0)
    ensures validator == "" && NeedsNoVotes(old(Total(votes[..])), stakeVotes, totalVotes, voteInput) ==>
              && votes[..] == old(votes[..]) && Counts(votes[..]) == old(Counts(votes[..]))
              && r == if totalVotes.None? then Err(ConversionFailed)
                      else if stakeVotes <= Unused(old(Total(votes[..])), totalVotes.value) then Ok(None)
                      else Err(VotingInputRequired)
    ensures validator == "" && !NeedsNoVotes(old(Total(votes[..])), stakeVotes, totalVotes, voteInput) ==>
              && ReducedFrom(old(Counts(votes[..])), Counts(votes[..]), stakeVotes)
              && r == if stakeVotes <= old(Total(votes[..])) then Ok(Contract(Addresses(votes[..]), Counts(votes[..])))
                      else Err(InsufficientStake)
  {
    hide Listed, FirstFor, Lowered;
    var decision := DetermineUnstakeVoteAction(votes, validator, stakeVotes, totalVotes, voteInput);
    if decision.Err? {
      return Err(decision.error);
    }
    match decision.value.action {
      case VoteForSpecificValidator =>
        var validatorVotes := decision.value.(voteCount := Wrap(decision.value.voteCount - stakeVotes));
        var contract := NewVotes(votes);
        LoweringShows(Addresses(votes[..]), Counts(votes[..]), FirstFor(votes[..], validator), stakeVotes);
        r := Ok(contract);
      case VoteForAnyValidator =>
        var ok := ReduceTotal(votes, stakeVotes);
        if !ok {
          return Err(InsufficientStake);
        }
        var contract := NewVotes(votes);
        r := Ok(contract);
      case NoVoteRequired =>
        r := Ok(None);
    }
  }

  /** The frozen votes not cast, as the code computes them. */
  function Unused(usedVotes: int, totalVotes: nat): nat {
    Wrap(totalVotes - Wrap(usedVotes))
  }

  /** With votes beyond the frozen ones the difference wraps around, and nearly any amount counts as unused. */
  lemma OvercastWraps(usedVotes: nat, totalVotes: nat)
    requires usedVotes < TWO_64 && totalVotes < TWO_64
    ensures Unused(usedVotes, totalVotes) == if usedVotes <= totalVotes then totalVotes - usedVotes
                                             else TWO_64 - (usedVotes - totalVotes)
  {
  }

  predicate NeedsNoVotes(usedVotes: int, stakeVotes: nat, totalVotes: Option<nat>, voteInput: bool) {
    totalVotes.None? || stakeVotes <= Unused(usedVotes, totalVotes.value) || !voteInput
  }

  /** Reduction by total: it fails exactly when there are fewer votes than asked for. */
  method ReduceTotal(votes: array<Vote>, stakeVotes: nat) returns (ok: bool)
    requires Distinct(votes[..])
    modifies votes, votes[..]
    ensures multiset(votes[..]) == multiset(old(votes[..]))
    ensures ok <==> stakeVotes <= old(Total(votes[..]))
    ensures ReducedFrom(old(Counts(votes[..])), Counts(votes[..]), stakeVotes)
  {
    ghost var counts := Counts(votes[..]);
    ghost var before;
    ok, before := ReduceTotalVoteCount(votes, stakeVotes);
    SumOfPermutation(counts, before, Count);
  }

  /** The unused votes cover the amount, or the used ones do: the two together are not considered. */
  predicate MayUnstake(usedVotes: int, stakeVotes: nat, totalVotes: nat, voteInput: bool) {
    stakeVotes <= totalVotes - usedVotes || (voteInput && stakeVotes <= usedVotes)
  }

  /**
   * With votes backed by the frozen balance: unstaking from no particular validator succeeds exactly when the
   * unused votes alone, or with a vote input the used ones alone, cover the amount. The votes then cast and
   * the unstaked amount are within the frozen votes.
   */
  lemma UnstakeSucceeds(was: seq<nat>, now: seq<nat>, stakeVotes: nat, totalVotes: nat, voteInput: bool)
    requires Sum(was, Count) <= totalVotes < TWO_64
    requires NeedsNoVotes(Sum(was, Count), stakeVotes, Some(totalVotes), voteInput) ==> now == was
    requires !NeedsNoVotes(Sum(was, Count), stakeVotes, Some(totalVotes), voteInput) ==> ReducedFrom(was, now, stakeVotes)
    ensures var used, needsNone := Sum(was, Count), NeedsNoVotes(Sum(was, Count), stakeVotes, Some(totalVotes), voteInput);
            var succeeds := if needsNone then stakeVotes <= Unused(used, totalVotes) else stakeVotes <= used;
            && (succeeds <==> MayUnstake(used, stakeVotes, totalVotes, voteInput))
            && (succeeds ==> Sum(now, Count) + stakeVotes <= totalVotes)
            && (succeeds && !needsNone ==> Sum(now, Count) == used - stakeVotes)
  {
    hide Wrap, Sum, Reduced;
    ReducedTotal(was, 0);
    if !NeedsNoVotes(Sum(was, Count), stakeVotes, Some(totalVotes), voteInput) {
      var before: seq<nat> :| multiset(before) == multiset(was) && Ascending(before) && now == Reduced(before, stakeVotes);
      SumOfPermutation(was, before, Count);
      ReducedTotal(before, stakeVotes);
    }
  }

  /** Unstaking 8 of 10 frozen votes, 3 of them cast, is refused although 7 are free and 1 could be taken back. */
  method UnstakeMayBeRefused() returns (r: Result<Option<VoteList>, UnstakeError>)
    ensures r == Err(InsufficientStake)
  {
    var vote := new Vote("validator", 3);
    var votes := new Vote[1](_ => vote);
    assert votes[..] == [vote];
    ghost var counts: seq<nat> := [3];
    assert Counts([vote]) == counts && counts[1..] == [];
    assert Total(votes[..]) == 3;
    r := UnstakeVotes(votes, "", 8, Some(10), true);
  }

  /** With all 10 votes cast for a validator, taking 4 back from it leaves the vote transaction at 10. */
  method NamedUnstakeRepeatsVotes() returns (r: Result<Option<VoteList>, UnstakeError>)
    ensures r == Ok(Some([("validator", 10)]))
  {
    var vote := new Vote("validator", 10);
    var votes := new Vote[1](_ => vote);
    assert votes[..] == [vote];
    assert Addresses([vote]) == ["validator"];
    ghost var counts: seq<nat> := [10];
    assert Counts([vote]) == counts;
    ListsOne("validator", 10);
    assert FirstFor(votes[..], "validator") == 0;
    r := UnstakeVotes(votes, "validator", 4, Some(10), true);
  }

  lemma ListsOne(address: string, count: nat)
    requires 0 < count < TWO_64 / 2
    ensures Contract([address], [count]) == Some([(address, count)])
  {
    var addresses, counts := [address], [count];
    assert Listed(addresses[..0], counts[..0]) == [];
    assert Listed(addresses, counts) == [] + Entry(address, count) == [(address, count)];
  }
}
