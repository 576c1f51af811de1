/** Choosing the holdings that pay for a Canton token transfer. */
module CantonHoldings {
  import opened Wrappers
  import opened Sorting
  import opened Selection
  import opened Ordering

  datatype HoldingView = HoldingView(owner: string, admin: string, instrument: string, amount: Option<int>)

  /** The lock in a holding's arguments: absent, not serializable, or its serialization. */
  datatype LockField = NoLock | BadLock | Lock(json: string)

  /** A created event, with the results of reading its view, lock and expiry; amount is None when it does not parse. */
  datatype Created = Created(contractId: string, view: Option<HoldingView>, lock: LockField, lockedTemplate: bool, expiresAt: Option<int>)

  datatype Holding = Holding(created: Created, amount: int)

  /** The grouping key, and whether the holding counts as locked at all. */
  function LockKey(c: Created): (string, bool) {
    match c.lock
    case NoLock => ("", c.lockedTemplate)
    case BadLock => ("", true)
    case Lock(json) => (json, true)
  }

  predicate IsUnexpiredLocked(c: Created, asOf: int) {
    LockKey(c).1 && (c.expiresAt.None? || asOf < c.expiresAt.value)
  }

  datatype Want = Want(owner: string, admin: string, instrument: string, amount: int, asOf: int)

  function FromCreated(c: Option<Created>, w: Want): Option<Holding> {
    if c.None? || c.value.view.None? then None
    else
      var v := c.value.view.value;
      if v.owner != w.owner || v.admin != w.admin || v.instrument != w.instrument then None
      else if IsUnexpiredLocked(c.value, w.asOf) then None
      else if v.amount.None? then None
      else Some(Holding(c.value, v.amount.value))
  }

  const AmountOf: Holding -> int := (h: Holding) => h.amount

  /** Larger amounts first; equal amounts by contract id. */
  const Before: (Holding, Holding) -> bool :=
    (x: Holding, y: Holding) => x.amount > y.amount || (x.amount == y.amount && StringLeq(x.created.contractId, y.created.contractId))

  lemma BeforeIsOrder()
    ensures TotalPreorder(Before)
  {
    forall x: Holding, y: Holding, z: Holding
      ensures Before(x, y) || Before(y, x)
      ensures Before(x, y) && Before(y, z) ==> Before(x, z)
    {
      StringOrder(x.created.contractId, y.created.contractId, z.created.contractId);
    }
  }

  ghost predicate DistinctContracts(hs: seq<Holding>) {
    forall x, y :: x in hs && y in hs && x.created.contractId == y.created.contractId ==> x == y
  }

  // ----- one group

  /** The shortest nonempty prefix that reaches want, or nothing. */
  ghost predicate CoveringPrefix(s: seq<Holding>, want: int, r: seq<Holding>) {
    && |r| <= |s| && r == s[..|r|]
    && (r != [] ==> Sum(r, AmountOf) >= want)
    && (forall j :: 1 <= j < |r| ==> Sum(s[..j], AmountOf) < want)
    && (r == [] ==> forall j :: 1 <= j <= |s| ==> Sum(s[..j], AmountOf) < want)
  }

  /** r is what selecting from the group gives. */
  ghost predicate SelectedFrom(hs: seq<Holding>, want: int, r: seq<Holding>) {
    exists s: seq<Holding> :: multiset(s) == multiset(hs) && SortedBy(s, Before) && CoveringPrefix(s, want, r)
  }

  method SelectGroup(holdings: seq<Holding>, wantAmount: int) returns (selected: seq<Holding>)
    ensures SelectedFrom(holdings, wantAmount, selected)
  {
    if |holdings| == 0 {
      assert SortedBy(holdings, Before) && CoveringPrefix(holdings, wantAmount, []);
      return [];
    }
    var a := new Holding[|holdings|](i requires 0 <= i < |holdings| => holdings[i]);
    assert a[..] == holdings;
    BeforeIsOrder();
    SortSlice(a, Before);
    selected := TakeCovering(a[..], wantAmount);
    assert SelectedFrom(holdings, wantAmount, selected) by {
      assert multiset(a[..]) == multiset(holdings) && SortedBy(a[..], Before) && CoveringPrefix(a[..], wantAmount, selected);
    }
  }

  method TakeCovering(s: seq<Holding>, wantAmount: int) returns (selected: seq<Holding>)
    ensures CoveringPrefix(s, wantAmount, selected)
  {
    var total := 0;
    selected := [];
    assert Sum(s[..0], AmountOf) == 0;
    hide Sum;
    for i := 0 to |s|
      invariant selected == s[..i]
      invariant total == Sum(s[..i], AmountOf)
      invariant forall j :: 1 <= j <= i ==> Sum(s[..j], AmountOf) < wantAmount
    {
      SumExtend(s, i, AmountOf);
      selected := selected + [s[i]];
      total := total + s[i].amount;
      if total >= wantAmount {
        assert selected == s[..|selected|];
        return;
      }
    }
    selected := [];
  }

  /** Selecting from a group is optimal: fewest holdings among all nonempty selections that cover, and none only if none covers. */
  lemma GroupIsOptimal(hs: seq<Holding>, want: int, r: seq<Holding>)
    requires SelectedFrom(hs, want, r)
    ensures multiset(r) <= multiset(hs)
    ensures r != [] ==> Sum(r, AmountOf) >= want && LeastCount(hs, AmountOf, want, 1, |r|)
    ensures r == [] <==> Unreachable(hs, AmountOf, want, 1)
  {
    var s: seq<Holding> :| multiset(s) == multiset(hs) && SortedBy(s, Before) && CoveringPrefix(s, want, r);
    SortedGroupIsOptimal(hs, s, want, r);
  }

  lemma SortedIsDescending(s: seq<Holding>)
    requires SortedBy(s, Before)
    ensures Descending(s, AmountOf)
  {
    forall i, j | 0 <= i < j < |s|
      ensures AmountOf(s[i]) >= AmountOf(s[j])
    {
      assert Before(s[i], s[j]);
    }
  }

  lemma SortedGroupIsOptimal(hs: seq<Holding>, s: seq<Holding>, want: int, r: seq<Holding>)
    requires multiset(s) == multiset(hs) && SortedBy(s, Before) && CoveringPrefix(s, want, r)
    ensures multiset(r) <= multiset(hs)
    ensures r != [] ==> Sum(r, AmountOf) >= want && LeastCount(hs, AmountOf, want, 1, |r|)
    ensures r == [] <==> Unreachable(hs, AmountOf, want, 1)
  {
    hide Sum, LeastCount, Unreachable, SortedBy, Descending;
    assert s == s[..|r|] + s[|r|..];
    SortedIsDescending(s);
    if r != [] {
      FirstPrefixIsLeast(hs, s, AmountOf, want, 1, |r|);
      CoveringIsReachable(hs, want, r);
    } else {
      NoPrefixReaches(hs, s, AmountOf, want, 1);
    }
  }

  lemma CoveringIsReachable(hs: seq<Holding>, want: int, r: seq<Holding>)
    requires multiset(r) <= multiset(hs) && r != [] && Sum(r, AmountOf) >= want
    ensures !Unreachable(hs, AmountOf, want, 1)
  {
  }

  /** The selection does not depend on the order of the group. */
  lemma GroupIsCanonical(hs: seq<Holding>, hs': seq<Holding>, want: int, r: seq<Holding>, r': seq<Holding>)
    requires multiset(hs) == multiset(hs') && DistinctContracts(hs)
    requires SelectedFrom(hs, want, r) && SelectedFrom(hs', want, r')
    ensures r == r'
  {
    var s: seq<Holding> :| multiset(s) == multiset(hs) && SortedBy(s, Before) && CoveringPrefix(s, want, r);
    var s': seq<Holding> :| multiset(s') == multiset(hs') && SortedBy(s', Before) && CoveringPrefix(s', want, r');
    BeforeIsOrder();
    assert Distinguishes(Before, s) by {
      forall x, y | x in s && y in s && Before(x, y) && Before(y, x)
        ensures x == y
      {
        assert x in multiset(hs) && y in multiset(hs);
        StringOrder(x.created.contractId, y.created.contractId, "");
      }
    }
    SortedUnique(s, s', Before);
    PrefixUnique(s, want, r, r');
  }

  lemma PrefixUnique(s: seq<Holding>, want: int, r: seq<Holding>, r': seq<Holding>)
    requires CoveringPrefix(s, want, r) && CoveringPrefix(s, want, r')
    ensures r == r'
  {
    hide Sum;
  }

  // ----- eligible holdings, unlocked and by lock

  function Eligible(events: seq<Option<Created>>, w: Want): seq<Holding> {
    if events == [] then []
    else Admitted(events[0], w) + Eligible(events[1..], w)
  }

  function Admitted(event: Option<Created>, w: Want): seq<Holding> {
    match FromCreated(event, w)
    case None => []
    case Some(h) => [h]
  }

  predicate Locked(h: Holding) {
    LockKey(h.created).1
  }

  predicate InGroup(h: Holding, key: string) {
    LockKey(h.created) == (key, true)
  }

  function Unlocked(hs: seq<Holding>): seq<Holding> {
    if hs == [] then [] else (if Locked(hs[0]) then [] else [hs[0]]) + Unlocked(hs[1..])
  }

  function Group(hs: seq<Holding>, key: string): seq<Holding> {
    if hs == [] then [] else (if InGroup(hs[0], key) then [hs[0]] else []) + Group(hs[1..], key)
  }

  lemma {:induction false} UnlockedConcat(a: seq<Holding>, b: seq<Holding>)
    ensures Unlocked(a + b) == Unlocked(a) + Unlocked(b)
  {
    hide Locked;
    if a == [] {
      assert a + b == b;
    } else {
      UnlockedConcat(a[1..], b);
      assert (a + b)[0] == a[0] && (a + b)[1..] == a[1..] + b;
      ConcatAssociates(if Locked(a[0]) then [] else [a[0]], Unlocked(a[1..]), Unlocked(b));
    }
  }

  lemma {:induction false} GroupConcat(a: seq<Holding>, b: seq<Holding>, key: string)
    ensures Group(a + b, key) == Group(a, key) + Group(b, key)
  {
    hide InGroup;
    if a == [] {
      assert a + b == b;
    } else {
      GroupConcat(a[1..], b, key);
      assert (a + b)[0] == a[0] && (a + b)[1..] == a[1..] + b;
      ConcatAssociates(if InGroup(a[0], key) then [a[0]] else [], Group(a[1..], key), Group(b, key));
    }
  }

  lemma {:induction false} EligibleConcat(a: seq<Option<Created>>, b: seq<Option<Created>>, w: Want)
    ensures Eligible(a + b, w) == Eligible(a, w) + Eligible(b, w)
  {
    hide Admitted;
    if a == [] {
      assert a + b == b;
    } else {
      EligibleConcat(a[1..], b, w);
      assert (a + b)[0] == a[0] && (a + b)[1..] == a[1..] + b;
      ConcatAssociates(Admitted(a[0], w), Eligible(a[1..], w), Eligible(b, w));
    }
  }

  /** The map holds, for every lock key that occurs, its holdings in order, and nothing else. */
  ghost predicate GroupsOf(entries: seq<(string, seq<Holding>)>, hs: seq<Holding>) {
    && Increasing(entries)
    && forall key :: (match Lookup(entries, key) case None => [] case Some(g) => g) == Group(hs, key)
  }

  method Classify(senderHoldings: seq<Option<Created>>, w: Want)
    returns (unlocked: seq<Holding>, lockedByLock: OrderedMap<seq<Holding>>)
    ensures fresh(lockedByLock)
    ensures unlocked == Unlocked(Eligible(senderHoldings, w))
    ensures GroupsOf(lockedByLock.entries, Eligible(senderHoldings, w))
  {
    unlocked := [];
    lockedByLock := new OrderedMap();
    for i := 0 to |senderHoldings|
      invariant fresh(lockedByLock)
      invariant unlocked == Unlocked(Eligible(senderHoldings[..i], w))
      invariant GroupsOf(lockedByLock.entries, Eligible(senderHoldings[..i], w))
    {
      ghost var before := Eligible(senderHoldings[..i], w);
      ExtendEligible(senderHoldings, i, w);
      var holding := FromCreated(senderHoldings[i], w);
      if holding.None? {
        assert before + [] == before;
        continue;
      }
      UnlockedConcat(before, [holding.value]);
      var (lockKey, locked) := LockKey(holding.value.created);
      if !locked {
        unlocked := unlocked + [holding.value];
        GroupsUnchanged(lockedByLock.entries, before, holding.value);
        continue;
      }
      var group := lockedByLock.Get(lockKey);
      var g := if group.Some? then group.value else [];
      GroupsExtended(lockedByLock.entries, before, holding.value);
      lockedByLock.Set(lockKey, g + [holding.value]);
    }
    assert senderHoldings[..|senderHoldings|] == senderHoldings;
  }

  lemma ExtendEligible(events: seq<Option<Created>>, i: nat, w: Want)
    requires i < |events|
    ensures Eligible(events[..i + 1], w)
            == Eligible(events[..i], w) + Admitted(events[i], w)
  {
    assert events[..i + 1] == events[..i] + [events[i]];
    EligibleConcat(events[..i], [events[i]], w);
    assert [events[i]][1..] == [];
    assert Eligible([events[i]], w) == Admitted(events[i], w) + [];
  }

  lemma GroupsUnchanged(entries: seq<(string, seq<Holding>)>, hs: seq<Holding>, h: Holding)
    requires GroupsOf(entries, hs) && !Locked(h)
    ensures GroupsOf(entries, hs + [h]) && Unlocked([h]) == [h]
  {
    forall key
      ensures Group(hs + [h], key) == Group(hs, key)
    {
      GroupConcat(hs, [h], key);
      GroupOfOne(h, key);
    }
    assert [h][1..] == [];
  }

  lemma GroupOfOne(h: Holding, key: string)
    ensures Group([h], key) == if InGroup(h, key) then [h] else []
    ensures Unlocked([h]) == if Locked(h) then [] else [h]
  {
    assert [h][1..] == [];
  }

  lemma GroupsExtended(entries: seq<(string, seq<Holding>)>, hs: seq<Holding>, h: Holding)
    requires GroupsOf(entries, hs) && Locked(h)
    ensures var key := LockKey(h.created).0;
            var known := match Lookup(entries, key) case None => [] case Some(g) => g;
            GroupsOf(Update(entries, key, known + [h]), hs + [h]) && Unlocked([h]) == []
  {
    var key := LockKey(h.created).0;
    var known := match Lookup(entries, key) case None => [] case Some(g) => g;
    var after := Update(entries, key, known + [h]);
    UpdateIncreasing(entries, key, known + [h]);
    forall k
      ensures (match Lookup(after, k) case None => [] case Some(g) => g) == Group(hs + [h], k)
    {
      LookupUpdate(entries, key, known + [h], k);
      GroupConcat(hs, [h], k);
      GroupOfOne(h, k);
    }
    GroupOfOne(h, key);
  }

  // ----- the choice

  /** Some lock group's selection is the smallest there is, and the first such group in key order is taken. */
  ghost predicate BestGroup(hs: seq<Holding>, want: int, r: seq<Holding>) {
    if r == [] then forall key :: Unreachable(Group(hs, key), AmountOf, want, 1)
    else exists key :: IsBestKey(hs, want, r, key)
  }

  ghost predicate IsBestKey(hs: seq<Holding>, want: int, r: seq<Holding>, key: string) {
    && SelectedFrom(Group(hs, key), want, r)
    && forall other, k: nat :: LeastCount(Group(hs, other), AmountOf, want, 1, k) ==>
         k >= |r| && (StringLess(other, key) ==> k > |r|)
  }

  /** Unlocked holdings whenever they can pay, otherwise the best lock group. */
  ghost predicate Outcome(hs: seq<Holding>, want: int, r: seq<Holding>) {
    if !Unreachable(Unlocked(hs), AmountOf, want, 1) then SelectedFrom(Unlocked(hs), want, r)
    else BestGroup(hs, want, r)
  }

  /** What the loop over the groups has found after the first n. */
  ghost predicate BestSoFar(entries: seq<(string, seq<Holding>)>, n: nat, want: int, r: seq<Holding>, at: nat)
    requires n <= |entries|
  {
    if r == [] then forall i :: 0 <= i < n ==> Unreachable(entries[i].1, AmountOf, want, 1)
    else
      && at < n && SelectedFrom(entries[at].1, want, r)
      && forall i, k: nat :: 0 <= i < n && LeastCount(entries[i].1, AmountOf, want, 1, k) ==>
           k >= |r| && (i < at ==> k > |r|)
  }

  lemma BestSoFarStep(entries: seq<(string, seq<Holding>)>, n: nat, want: int, r: seq<Holding>, at: nat, candidate: seq<Holding>)
    requires n < |entries| && BestSoFar(entries, n, want, r, at)
    requires SelectedFrom(entries[n].1, want, candidate)
    ensures var better := candidate != [] && (r == [] || |candidate| < |r|);
            BestSoFar(entries, n + 1, want, if better then candidate else r, if better then n else at)
  {
    hide SelectedFrom, LeastCount, Unreachable;
    GroupIsOptimal(entries[n].1, want, candidate);
    forall i, k: nat | 0 <= i <= n && LeastCount(entries[i].1, AmountOf, want, 1, k)
      ensures !Unreachable(entries[i].1, AmountOf, want, 1)
      ensures i == n ==> k == |candidate|
    {
      LeastIsReachable(entries[i].1, want, k);
      if i == n {
        LeastUnique(entries[n].1, want, k, |candidate|);
      }
    }
  }

  lemma LeastIsReachable(hs: seq<Holding>, want: int, k: nat)
    requires LeastCount(hs, AmountOf, want, 1, k)
    ensures !Unreachable(hs, AmountOf, want, 1)
  {
  }

  lemma LeastUnique(hs: seq<Holding>, want: int, k: nat, k': nat)
    requires LeastCount(hs, AmountOf, want, 1, k) && LeastCount(hs, AmountOf, want, 1, k')
    ensures k == k'
  {
    var t: seq<Holding> :| multiset(t) <= multiset(hs) && |t| == k && Sum(t, AmountOf) >= want;
    var t': seq<Holding> :| multiset(t') <= multiset(hs) && |t'| == k' && Sum(t', AmountOf) >= want;
  }

  method TokenTransferInputHoldings(senderHoldings: seq<Option<Created>>, w: Want) returns (selected: seq<Holding>)
    ensures Outcome(Eligible(senderHoldings, w), w.amount, selected)
    ensures forall h :: h in selected ==>
              && Some(h.created) in senderHoldings
              && h.created.view == Some(HoldingView(w.owner, w.admin, w.instrument, Some(h.amount)))
              && ((h.created.lock.NoLock? && !h.created.lockedTemplate)
                  || (h.created.expiresAt.Some? && h.created.expiresAt.value <= w.asOf))
  {
    ghost var hs := Eligible(senderHoldings, w);
    var unlocked, lockedByLock := Classify(senderHoldings, w);
    selected := SelectGroup(unlocked, w.amount);
    GroupIsOptimal(unlocked, w.amount, selected);
    if |selected| > 0 {
      SelectedAreWanted(senderHoldings, w, selected);
      return;
    }
    var entries := lockedByLock.entries;
    ghost var at := 0;
    for n := 0 to |entries|
      invariant BestSoFar(entries, n, w.amount, selected, at)
    {
      var candidate := SelectGroup(entries[n].1, w.amount);
      BestSoFarStep(entries, n, w.amount, selected, at, candidate);
      if |candidate| > 0 && (|selected| == 0 || |candidate| < |selected|) {
        selected := candidate;
        at := n;
      }
    }
    BestOfAll(entries, hs, w.amount, selected, at);
    SelectedAreWanted(senderHoldings, w, selected);
  }

  lemma EntryIsGroup(entries: seq<(string, seq<Holding>)>, hs: seq<Holding>, i: nat)
    requires GroupsOf(entries, hs) && i < |entries|
    ensures entries[i].1 == Group(hs, entries[i].0)
  {
    EntryIsLookup(entries, i);
  }

  lemma NothingFromNothing(hs: seq<Holding>, want: int)
    requires hs == []
    ensures Unreachable(hs, AmountOf, want, 1)
  {
    forall t: seq<Holding> | multiset(t) <= multiset(hs) && |t| >= 1
      ensures false
    {
      SubMultisetLength(hs, t);
    }
  }

  lemma BestOfAll(entries: seq<(string, seq<Holding>)>, hs: seq<Holding>, want: int, r: seq<Holding>, at: nat)
    requires GroupsOf(entries, hs) && BestSoFar(entries, |entries|, want, r, at)
    ensures BestGroup(hs, want, r)
  {
    hide SelectedFrom, LeastCount, Unreachable;
    if r == [] {
      forall key
        ensures Unreachable(Group(hs, key), AmountOf, want, 1)
      {
        if Lookup(entries, key).None? {
          NothingFromNothing(Group(hs, key), want);
        } else {
          var i := LookupIsEntry(entries, key);
          EntryIsGroup(entries, hs, i);
        }
      }
    } else {
      EntryIsGroup(entries, hs, at);
      forall other, k: nat | LeastCount(Group(hs, other), AmountOf, want, 1, k)
        ensures k >= |r| && (StringLess(other, entries[at].0) ==> k > |r|)
      {
        if Lookup(entries, other).None? {
          NothingFromNothing(Group(hs, other), want);
          LeastIsReachable(Group(hs, other), want, k);
        } else {
          var i := LookupIsEntry(entries, other);
          EntryIsGroup(entries, hs, i);
          if i > at {
            IncreasingPairs(entries, at, i);
            StringOrder(entries[at].0, other, other);
          }
        }
      }
      assert IsBestKey(hs, want, r, entries[at].0);
    }
  }

  // ----- what the outcome means

  lemma {:induction false} UnlockedMembers(hs: seq<Holding>)
    ensures forall h :: h in Unlocked(hs) <==> h in hs && !Locked(h)
    ensures multiset(Unlocked(hs)) <= multiset(hs)
  {
    if hs != [] {
      UnlockedMembers(hs[1..]);
      assert hs == [hs[0]] + hs[1..];
    }
  }

  lemma {:induction false} GroupMembers(hs: seq<Holding>, key: string)
    ensures forall h :: h in Group(hs, key) <==> h in hs && InGroup(h, key)
    ensures multiset(Group(hs, key)) <= multiset(hs)
  {
    if hs != [] {
      GroupMembers(hs[1..], key);
      assert hs == [hs[0]] + hs[1..];
    }
  }

  /** A holding of the wanted owner, admin and instrument, worth what its view has, not locked or with its lock expired. */
  predicate Wanted(h: Holding, w: Want) {
    var c := h.created;
    && c.view == Some(HoldingView(w.owner, w.admin, w.instrument, Some(h.amount)))
    && ((c.lock.NoLock? && !c.lockedTemplate) || (c.expiresAt.Some? && c.expiresAt.value <= w.asOf))
  }

  lemma AdmittedIs(event: Option<Created>, w: Want, h: Holding)
    ensures multiset(Admitted(event, w))[h] == if event == Some(h.created) && Wanted(h, w) then 1 else 0
  {
  }

  /** The eligible holdings are the wanted ones among the events, each as often as its event occurs. */
  lemma {:induction false} EligibleCount(events: seq<Option<Created>>, w: Want, h: Holding)
    ensures multiset(Eligible(events, w))[h] == if Wanted(h, w) then multiset(events)[Some(h.created)] else 0
  {
    hide Admitted, Wanted;
    if events != [] {
      AdmittedIs(events[0], w, h);
      EligibleCount(events[1..], w, h);
      assert events == [events[0]] + events[1..];
    }
  }

  /** The same in the terms of the event's view, lock and expiry. */
  lemma EligibleIs(events: seq<Option<Created>>, w: Want, h: Holding)
    ensures h in Eligible(events, w) <==>
            && Some(h.created) in events
            && h.created.view.Some? && h.created.view.value.owner == w.owner && h.created.view.value.admin == w.admin
            && h.created.view.value.instrument == w.instrument && h.created.view.value.amount == Some(h.amount)
            && ((h.created.lock.NoLock? && !h.created.lockedTemplate)
                || (h.created.expiresAt.Some? && h.created.expiresAt.value <= w.asOf))
  {
    hide Eligible;
    EligibleCount(events, w, h);
    assert h in Eligible(events, w) <==> h in multiset(Eligible(events, w));
    assert Some(h.created) in events <==> Some(h.created) in multiset(events);
  }

  /** Locked holdings are admitted only with an expiry that has passed. */
  lemma {:induction false} EligibleLocksExpired(events: seq<Option<Created>>, w: Want, h: Holding)
    requires h in Eligible(events, w)
    ensures Some(h.created) in events
    ensures Locked(h) ==> h.created.expiresAt.Some? && h.created.expiresAt.value <= w.asOf
  {
    if h !in Admitted(events[0], w) {
      EligibleLocksExpired(events[1..], w, h);
    }
  }

  lemma SelectedAreWanted(events: seq<Option<Created>>, w: Want, r: seq<Holding>)
    requires Outcome(Eligible(events, w), w.amount, r)
    ensures forall h :: h in r ==> Some(h.created) in events && Wanted(h, w)
  {
    hide SelectedFrom, Unreachable, LeastCount, Eligible, Wanted;
    var hs := Eligible(events, w);
    forall h | h in r
      ensures Some(h.created) in events && Wanted(h, w)
    {
      var part := ChosenPart(hs, w.amount, r);
      assert h in multiset(r);
      assert h in multiset(part);
      assert h in multiset(hs);
      EligibleCount(events, w, h);
      assert Some(h.created) in multiset(events);
    }
  }

  /** The part of the holdings, unlocked or of one lock, that an outcome is taken from. */
  lemma ChosenPart(hs: seq<Holding>, want: int, r: seq<Holding>) returns (part: seq<Holding>)
    requires Outcome(hs, want, r) && r != []
    ensures SelectedFrom(part, want, r) && multiset(r) <= multiset(part) <= multiset(hs)
  {
    hide SelectedFrom, Unreachable, LeastCount;
    if !Unreachable(Unlocked(hs), AmountOf, want, 1) {
      part := Unlocked(hs);
      UnlockedMembers(hs);
    } else {
      var key :| IsBestKey(hs, want, r, key);
      part := Group(hs, key);
      GroupMembers(hs, key);
    }
    GroupIsOptimal(part, want, r);
  }

  /** A nonempty selection of unlocked holdings, or of holdings that share one lock, that pays want. */
  ghost predicate Payment(hs: seq<Holding>, want: int, t: seq<Holding>, lock: Option<string>) {
    && t != [] && multiset(t) <= multiset(hs) && Sum(t, AmountOf) >= want
    && forall h :: h in t ==> match lock case None => !Locked(h) case Some(key) => InGroup(h, key)
  }

  lemma PaymentFrom(hs: seq<Holding>, part: seq<Holding>, want: int, t: seq<Holding>, lock: Option<string>)
    requires part == match lock case None => Unlocked(hs) case Some(key) => Group(hs, key)
    ensures Payment(hs, want, t, lock) <==> |t| >= 1 && multiset(t) <= multiset(part) && Sum(t, AmountOf) >= want
  {
    hide Sum;
    match lock
    case None =>
      UnlockedMembers(hs);
      forall h | h in t && !Locked(h) ensures multiset(part)[h] == multiset(hs)[h] { UnlockedCount(hs, h); }
      forall h | h in t && h in multiset(part) ensures h in part {}
      MembersBelow(t, part, hs);
    case Some(key) =>
      GroupMembers(hs, key);
      forall h | h in t && InGroup(h, key) ensures multiset(part)[h] == multiset(hs)[h] { GroupCount(hs, key, h); }
      MembersBelow(t, part, hs);
  }

  /** t fits in part when it fits in the whole and part keeps all copies of its members. */
  lemma MembersBelow(t: seq<Holding>, part: seq<Holding>, hs: seq<Holding>)
    requires multiset(part) <= multiset(hs)
    ensures (forall h :: h in t ==> multiset(part)[h] == multiset(hs)[h]) && multiset(t) <= multiset(hs)
            ==> multiset(t) <= multiset(part)
    ensures multiset(t) <= multiset(part) ==> multiset(t) <= multiset(hs) && forall h :: h in t ==> h in part
  {
    if (forall h :: h in t ==> multiset(part)[h] == multiset(hs)[h]) && multiset(t) <= multiset(hs) {
      forall h
        ensures multiset(t)[h] <= multiset(part)[h]
      {
        if h in multiset(t) {
          assert h in t;
        }
      }
    }
    if multiset(t) <= multiset(part) {
      forall h | h in t
        ensures h in part
      {
        assert h in multiset(t);
        assert h in multiset(part);
      }
    }
  }

  lemma {:induction false} UnlockedCount(hs: seq<Holding>, h: Holding)
    ensures multiset(Unlocked(hs))[h] == if Locked(h) then 0 else multiset(hs)[h]
  {
    hide Locked;
    if hs != [] {
      UnlockedCount(hs[1..], h);
      assert hs == [hs[0]] + hs[1..];
    }
  }

  lemma {:induction false} GroupCount(hs: seq<Holding>, key: string, h: Holding)
    ensures multiset(Group(hs, key))[h] == if InGroup(h, key) then multiset(hs)[h] else 0
  {
    hide InGroup;
    if hs != [] {
      GroupCount(hs[1..], key, h);
      assert hs == [hs[0]] + hs[1..];
    }
  }

  lemma NoPaymentFrom(hs: seq<Holding>, part: seq<Holding>, want: int, lock: Option<string>)
    requires part == match lock case None => Unlocked(hs) case Some(key) => Group(hs, key)
    ensures Unreachable(part, AmountOf, want, 1) <==> forall t :: !Payment(hs, want, t, lock)
  {
    hide Payment;
    forall t
      ensures Payment(hs, want, t, lock) <==> |t| >= 1 && multiset(t) <= multiset(part) && Sum(t, AmountOf) >= want
    {
      PaymentFrom(hs, part, want, t, lock);
    }
  }

  lemma LeastPaymentFrom(hs: seq<Holding>, part: seq<Holding>, want: int, r: seq<Holding>, lock: Option<string>)
    requires part == match lock case None => Unlocked(hs) case Some(key) => Group(hs, key)
    requires r != [] && SelectedFrom(part, want, r)
    ensures Payment(hs, want, r, lock)
    ensures LeastCount(part, AmountOf, want, 1, |r|)
    ensures forall t :: Payment(hs, want, t, lock) ==> |t| >= |r|
  {
    hide Payment, SelectedFrom;
    GroupIsOptimal(part, want, r);
    PaymentFrom(hs, part, want, r, lock);
    forall t | Payment(hs, want, t, lock)
      ensures |t| >= |r|
    {
      PaymentFrom(hs, part, want, t, lock);
    }
  }

  /**
   * Optimality, for any amounts and any target: if some unlocked holdings can pay, the smallest such payment
   * is chosen; otherwise the smallest payment from holdings sharing one lock; and nothing is chosen exactly
   * when neither exists.
   */
  lemma OutcomeIsOptimal(hs: seq<Holding>, want: int, r: seq<Holding>)
    requires Outcome(hs, want, r)
    ensures r == [] <==> forall t, lock :: !Payment(hs, want, t, lock)
    ensures (exists t :: Payment(hs, want, t, None)) ==>
              Payment(hs, want, r, None) && forall t :: Payment(hs, want, t, None) ==> |t| >= |r|
    ensures r != [] && (forall t :: !Payment(hs, want, t, None)) ==>
              && (exists key :: Payment(hs, want, r, Some(key)))
              && forall t, key :: Payment(hs, want, t, Some(key)) ==> |t| >= |r|
  {
    hide Payment, SelectedFrom, Unreachable, LeastCount;
    NoPaymentFrom(hs, Unlocked(hs), want, None);
    if !Unreachable(Unlocked(hs), AmountOf, want, 1) {
      GroupIsOptimal(Unlocked(hs), want, r);
      LeastPaymentFrom(hs, Unlocked(hs), want, r, None);
    } else if r == [] {
      forall t, lock: Option<string>
        ensures !Payment(hs, want, t, lock)
      {
        if lock.Some? {
          NoPaymentFrom(hs, Group(hs, lock.value), want, lock);
        }
      }
    } else {
      var key :| IsBestKey(hs, want, r, key);
      LeastPaymentFrom(hs, Group(hs, key), want, r, Some(key));
      forall t, other | Payment(hs, want, t, Some(other))
        ensures |t| >= |r|
      {
        PaymentGivesLeast(hs, Group(hs, other), want, t, other, r, key);
      }
    }
  }

  lemma PaymentGivesLeast(hs: seq<Holding>, part: seq<Holding>, want: int, t: seq<Holding>, other: string, r: seq<Holding>, key: string)
    requires part == Group(hs, other) && Payment(hs, want, t, Some(other))
    requires IsBestKey(hs, want, r, key)
    ensures |t| >= |r|
  {
    hide Payment, SelectedFrom;
    PaymentFrom(hs, part, want, t, Some(other));
    var k := LeastExists(part, want, t);
  }

  /** If some nonempty selection reaches the target there is a least number that does. */
  lemma {:induction false} LeastExists(hs: seq<Holding>, want: int, t: seq<Holding>) returns (k: nat)
    requires |t| >= 1 && multiset(t) <= multiset(hs) && Sum(t, AmountOf) >= want
    ensures LeastCount(hs, AmountOf, want, 1, k) && k <= |t|
    decreases |t|
  {
    if u: seq<Holding> :| |u| >= 1 && multiset(u) <= multiset(hs) && Sum(u, AmountOf) >= want && |u| < |t| {
      k := LeastExists(hs, want, u);
    } else {
      k := |t|;
    }
  }

  /** Which locks go together: none at all, or one serialization, with unreadable and missing ones under "". */
  lemma PaymentIs(hs: seq<Holding>, want: int, t: seq<Holding>, lock: Option<string>)
    ensures Payment(hs, want, t, lock) <==>
            && t != [] && multiset(t) <= multiset(hs) && Sum(t, AmountOf) >= want
            && forall h :: h in t ==>
                 match lock
                 case None => h.created.lock.NoLock? && !h.created.lockedTemplate
                 case Some(key) => || h.created.lock == Lock(key)
                                   || (key == "" && (h.created.lock.BadLock? || (h.created.lock.NoLock? && h.created.lockedTemplate)))
  {
    hide Sum;
  }

  lemma PassedOver(s: seq<Holding>, r: seq<Holding>, h: Holding, g: Holding)
    requires r <= s && SortedBy(s, Before) && h in r && multiset(s)[g] > multiset(r)[g]
    ensures Before(h, g)
  {
    assert s == r + s[|r|..];
    assert g in multiset(s[|r|..]);
    var i :| 0 <= i < |r| && r[i] == h;
    var j :| 0 <= j < |s[|r|..]| && s[|r|..][j] == g;
    assert Before(s[i], s[|r| + j]);
  }

  /** Holdings are listed larger amounts first, equal ones by contract id, and those passed over come after them. */
  lemma SelectedInOrder(part: seq<Holding>, want: int, r: seq<Holding>)
    requires SelectedFrom(part, want, r)
    ensures forall i, j :: 0 <= i < j < |r| ==>
              r[i].amount > r[j].amount
              || (r[i].amount == r[j].amount && StringLeq(r[i].created.contractId, r[j].created.contractId))
    ensures r != [] ==> forall h, g :: h in r && multiset(part)[g] > multiset(r)[g] ==>
              h.amount > g.amount || (h.amount == g.amount && StringLeq(h.created.contractId, g.created.contractId))
  {
    var s: seq<Holding> :| multiset(s) == multiset(part) && SortedBy(s, Before) && CoveringPrefix(s, want, r);
    assert r <= s by { hide Before, SortedBy; }
    hide Sum, CoveringPrefix;
    forall i, j | 0 <= i < j < |r|
      ensures Before(r[i], r[j])
    {
      assert Before(s[i], s[j]);
    }
    forall h, g | h in r && multiset(part)[g] > multiset(r)[g]
      ensures Before(h, g)
    {
      PassedOver(s, r, h, g);
    }
  }

  /** Among lock groups that pay with equally few holdings the first in key order is taken. */
  lemma FirstLockWins(hs: seq<Holding>, want: int, r: seq<Holding>)
    requires Outcome(hs, want, r) && r != [] && forall t :: !Payment(hs, want, t, None)
    ensures exists key :: Payment(hs, want, r, Some(key))
              && forall t, other :: Payment(hs, want, t, Some(other)) && |t| == |r| ==> StringLeq(key, other)
  {
    hide Payment, SelectedFrom, Unreachable, LeastCount;
    NoPaymentFrom(hs, Unlocked(hs), want, None);
    var key :| IsBestKey(hs, want, r, key);
    LeastPaymentFrom(hs, Group(hs, key), want, r, Some(key));
    forall t, other | Payment(hs, want, t, Some(other)) && |t| == |r|
      ensures StringLeq(key, other)
    {
      PaymentFrom(hs, Group(hs, other), want, t, Some(other));
      var k := LeastExists(Group(hs, other), want, t);
      StringOrder(key, other, key);
    }
  }

  // ----- independence of the input order

  lemma {:induction false} EligibleOfPermutation(a: seq<Option<Created>>, b: seq<Option<Created>>, w: Want)
    requires multiset(a) == multiset(b)
    ensures multiset(Eligible(a, w)) == multiset(Eligible(b, w))
  {
    hide Admitted;
    if a == [] {
      assert |b| == |multiset(b)| == 0;
    } else {
      assert a[0] in multiset(b);
      var i :| 0 <= i < |b| && b[i] == a[0];
      assert a == [a[0]] + a[1..];
      EligibleOfPermutation(a[1..], Without(b, i), w);
      EligibleWithout(b, i, w);
    }
  }

  lemma EligibleWithout(b: seq<Option<Created>>, i: nat, w: Want)
    requires i < |b|
    ensures multiset(Eligible(b, w)) == multiset(Admitted(b[i], w)) + multiset(Eligible(Without(b, i), w))
  {
    hide Admitted;
    assert b == b[..i] + b[i..] && b[i..][1..] == b[i + 1..];
    EligibleConcat(b[..i], b[i..], w);
    EligibleConcat(b[..i], b[i + 1..], w);
  }

  lemma PartsOfPermutation(hs: seq<Holding>, hs': seq<Holding>, key: string)
    requires multiset(hs) == multiset(hs')
    ensures multiset(Unlocked(hs)) == multiset(Unlocked(hs'))
    ensures multiset(Group(hs, key)) == multiset(Group(hs', key))
  {
    forall h
      ensures multiset(Unlocked(hs))[h] == multiset(Unlocked(hs'))[h]
      ensures multiset(Group(hs, key))[h] == multiset(Group(hs', key))[h]
    {
      UnlockedCount(hs, h);
      UnlockedCount(hs', h);
      GroupCount(hs, key, h);
      GroupCount(hs', key, h);
    }
  }

  lemma ReachOfPermutation(hs: seq<Holding>, hs': seq<Holding>, want: int)
    requires multiset(hs) == multiset(hs')
    ensures Unreachable(hs, AmountOf, want, 1) <==> Unreachable(hs', AmountOf, want, 1)
    ensures forall k: nat :: LeastCount(hs, AmountOf, want, 1, k) <==> LeastCount(hs', AmountOf, want, 1, k)
  {
  }

  /** With distinct contract ids the choice depends only on which events there are, not on their order. */
  lemma OutcomeIsCanonical(events: seq<Option<Created>>, events': seq<Option<Created>>, w: Want, r: seq<Holding>, r': seq<Holding>)
    requires multiset(events) == multiset(events')
    requires DistinctContracts(Eligible(events, w))
    requires Outcome(Eligible(events, w), w.amount, r) && Outcome(Eligible(events', w), w.amount, r')
    ensures r == r'
  {
    hide SelectedFrom, Unreachable, LeastCount, Eligible;
    var hs, hs' := Eligible(events, w), Eligible(events', w);
    EligibleOfPermutation(events, events', w);
    PartsOfPermutation(hs, hs', "");
    UnlockedMembers(hs);
    ReachOfPermutation(Unlocked(hs), Unlocked(hs'), w.amount);
    if !Unreachable(Unlocked(hs), AmountOf, w.amount, 1) {
      GroupIsCanonical(Unlocked(hs), Unlocked(hs'), w.amount, r, r');
    } else {
      BestIsCanonical(hs, hs', w.amount, r, r');
    }
  }

  lemma BestIsCanonical(hs: seq<Holding>, hs': seq<Holding>, want: int, r: seq<Holding>, r': seq<Holding>)
    requires multiset(hs) == multiset(hs') && DistinctContracts(hs)
    requires BestGroup(hs, want, r) && BestGroup(hs', want, r')
    ensures r == r'
  {
    hide SelectedFrom, Unreachable, LeastCount;
    if r != [] && r' != [] {
      var key :| IsBestKey(hs, want, r, key);
      var key' :| IsBestKey(hs', want, r', key');
      BestSizes(hs, hs', want, r, key);
      BestSizes(hs', hs, want, r', key');
      StringOrder(key, key', key);
      assert key == key';
      PartsOfPermutation(hs, hs', key);
      GroupMembers(hs, key);
      GroupIsCanonical(Group(hs, key), Group(hs', key), want, r, r');
    } else if r != [] {
      var key :| IsBestKey(hs, want, r, key);
      BestSizes(hs, hs', want, r, key);
    } else if r' != [] {
      var key' :| IsBestKey(hs', want, r', key');
      BestSizes(hs', hs, want, r', key');
    }
  }

  /** The best key's least count, in either arrangement. */
  lemma BestSizes(hs: seq<Holding>, hs': seq<Holding>, want: int, r: seq<Holding>, key: string)
    requires multiset(hs) == multiset(hs') && r != [] && IsBestKey(hs, want, r, key)
    ensures LeastCount(Group(hs', key), AmountOf, want, 1, |r|)
    ensures !Unreachable(Group(hs', key), AmountOf, want, 1)
  {
    hide SelectedFrom, Unreachable, LeastCount;
    GroupIsOptimal(Group(hs, key), want, r);
    PartsOfPermutation(hs, hs', key);
    ReachOfPermutation(Group(hs, key), Group(hs', key), want);
    LeastIsReachable(Group(hs', key), want, |r|);
  }
}
