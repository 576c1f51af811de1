/** Movements of a transaction, and merging the ones that share an asset. */
module Movements {
  import opened Wrappers
  import opened Selection
  import opened Sorting
  import opened Ordering

  datatype BalanceChange = BalanceChange(balance: int, address: string)

  const BalanceOf: BalanceChange -> int := (b: BalanceChange) => b.balance

  /** The native asset stands in for an empty contract. */
  function AssetIn(chain: string, contract: string): string {
    if contract == "" then chain else contract
  }

  class Movement {
    /** Set when the movement is made; nothing modelled here changes it afterwards. */
    const assetId: string
    var from: seq<BalanceChange>
    var to: seq<BalanceChange>
    var contractId: string
    var memo: string

    constructor (chain: string, contract: string)
      ensures assetId == AssetIn(chain, contract)
      ensures from == [] && to == [] && contractId == "" && memo == ""
    {
      assetId := AssetIn(chain, contract);
      from, to, contractId, memo := [], [], "", "";
    }

    method AddSource(address: string, balance: int)
      modifies this`from
      ensures from == old(from) + [BalanceChange(balance, address)]
    {
      from := from + [BalanceChange(balance, address)];
    }

    method AddDestination(address: string, balance: int)
      modifies this`to
      ensures to == old(to) + [BalanceChange(balance, address)]
    {
      to := to + [BalanceChange(balance, address)];
    }
  }

  // ----- what a list of movements says, read flat

  datatype Changes = Changes(from: seq<BalanceChange>, to: seq<BalanceChange>)

  const NO_CHANGES := Changes([], [])

  function Append(a: Changes, b: Changes): Changes {
    Changes(a.from + b.from, a.to + b.to)
  }

  /** Debits minus credits. */
  function NetOfChanges(c: Changes): int {
    Sum(c.from, BalanceOf) - Sum(c.to, BalanceOf)
  }

  lemma NetOfAppend(a: Changes, b: Changes)
    ensures NetOfChanges(Append(a, b)) == NetOfChanges(a) + NetOfChanges(b)
  {
    SumConcat(a.from, b.from, BalanceOf);
    SumConcat(a.to, b.to, BalanceOf);
  }

  lemma AppendAssociates(a: Changes, b: Changes, c: Changes)
    ensures Append(a, Append(b, c)) == Append(Append(a, b), c)
    ensures Append(NO_CHANGES, a) == a == Append(a, NO_CHANGES)
  {
  }

  function Held(m: Movement): Changes
    reads m
  {
    Changes(m.from, m.to)
  }

  /** The changes of a list of movements, one after the other. */
  function Flat(ms: seq<Movement>): Changes
    reads ms
  {
    if ms == [] then NO_CHANGES else Append(Held(ms[0]), Flat(ms[1..]))
  }

  /** The movements of one asset, in order. */
  function Of(ms: seq<Movement>, asset: string): (group: seq<Movement>)
    ensures forall m :: m in group ==> m in ms
  {
    if ms == [] then [] else (if ms[0].assetId == asset then [ms[0]] else []) + Of(ms[1..], asset)
  }

  /** Debits minus credits of one asset over a list of movements. */
  function Net(ms: seq<Movement>, asset: string): int
    reads ms
  {
    if ms == [] then 0
    else (if ms[0].assetId == asset then NetOfChanges(Held(ms[0])) else 0) + Net(ms[1..], asset)
  }

  ghost function Nets(ms: seq<Movement>): (nets: imap<string, int>)
    reads ms
    ensures forall asset :: asset in nets && nets[asset] == Net(ms, asset)
  {
    imap asset: string :: Net(ms, asset)
  }

  lemma {:induction false} OfConcat(a: seq<Movement>, b: seq<Movement>, asset: string)
    ensures Of(a + b, asset) == Of(a, asset) + Of(b, asset)
  {
    if a == [] {
      assert a + b == b;
    } else {
      OfConcat(a[1..], b, asset);
      assert (a + b)[0] == a[0] && (a + b)[1..] == a[1..] + b;
      ConcatAssociates(if a[0].assetId == asset then [a[0]] else [], Of(a[1..], asset), Of(b, asset));
    }
  }

  lemma OfOne(m: Movement, asset: string)
    ensures Of([m], asset) == if m.assetId == asset then [m] else []
  {
    assert [m][1..] == [];
  }

  lemma {:induction false} OfMembers(ms: seq<Movement>, asset: string)
    ensures forall m :: m in Of(ms, asset) <==> m in ms && m.assetId == asset
  {
    if ms != [] {
      OfMembers(ms[1..], asset);
      assert ms == [ms[0]] + ms[1..];
    }
  }

  lemma {:induction false} OfAbsent(ms: seq<Movement>, asset: string)
    requires forall m :: m in ms ==> m.assetId != asset
    ensures Of(ms, asset) == []
  {
    if ms != [] {
      OfAbsent(ms[1..], asset);
    }
  }

  lemma {:induction false} FlatConcat(a: seq<Movement>, b: seq<Movement>)
    ensures Flat(a + b) == Append(Flat(a), Flat(b))
  {
    hide Append;
    if a == [] {
      assert a + b == b;
      AppendAssociates(Flat(b), NO_CHANGES, NO_CHANGES);
    } else {
      FlatConcat(a[1..], b);
      assert (a + b)[0] == a[0] && (a + b)[1..] == a[1..] + b;
      AppendAssociates(Held(a[0]), Flat(a[1..]), Flat(b));
    }
  }

  lemma FlatOfOne(m: Movement)
    ensures Flat([m]) == Held(m)
  {
    AppendAssociates(Held(m), NO_CHANGES, NO_CHANGES);
    assert [m][1..] == [];
  }

  /** The net of an asset is what the changes in its movements add up to. */
  lemma {:induction false} NetIsFlatSum(ms: seq<Movement>, asset: string)
    ensures Net(ms, asset) == NetOfChanges(Flat(Of(ms, asset)))
  {
    if ms != [] {
      NetIsFlatSum(ms[1..], asset);
      var rest := Of(ms[1..], asset);
      if ms[0].assetId == asset {
        assert Of(ms, asset)[1..] == rest;
        NetOfAppend(Held(ms[0]), Flat(rest));
      } else {
        assert Of(ms, asset) == rest;
      }
    }
  }

  lemma {:induction false} NetConcat(a: seq<Movement>, b: seq<Movement>, asset: string)
    ensures Net(a + b, asset) == Net(a, asset) + Net(b, asset)
  {
    if a == [] {
      assert a + b == b;
    } else {
      NetConcat(a[1..], b, asset);
      assert (a + b)[1..] == a[1..] + b;
    }
  }

  lemma NetOfOne(m: Movement, asset: string)
    ensures Net([m], asset) == if m.assetId == asset then NetOfChanges(Held(m)) else 0
  {
    assert [m][1..] == [];
  }

  lemma {:induction false} NetOfAbsent(ms: seq<Movement>, asset: string)
    requires forall m :: m in ms ==> m.assetId != asset
    ensures Net(ms, asset) == 0
  {
    if ms != [] {
      NetOfAbsent(ms[1..], asset);
    }
  }

  // ----- merging one asset's movements into the first

  /**
   * The changes of the first of a group once the rest of it is merged in, one movement at a time. Where the
   * first occurs again, what it holds by then is appended to itself.
   */
  function Merged(group: seq<Movement>): Changes
    reads group
  {
    if group == [] then NO_CHANGES
    else if |group| == 1 then Held(group[0])
    else
      var soFar := Merged(group[..|group| - 1]);
      Append(soFar, if group[|group| - 1] == group[0] then soFar else Held(group[|group| - 1]))
  }

  /** The body of the loop over the assets: appends the changes of the rest to the first, in place. */
  method Merge(first: Movement, group: seq<Movement>)
    requires group != [] && first == group[0]
    modifies first`from, first`to
    ensures Held(first) == old(Merged(group))
  {
    for i := 1 to |group|
      invariant forall m :: m in group && m != first ==> m.from == old(m.from) && m.to == old(m.to)
      invariant Held(first) == old(Merged(group[..i]))
    {
      first.from := first.from + group[i].from;
      first.to := first.to + group[i].to;
      assert group[..i + 1][..i] == group[..i];
    }
    assert group[..|group|] == group;
  }

  /** Wherever the first of the group occurs again, nothing has been merged into it by then. */
  ghost predicate CountsOnce(group: seq<Movement>)
    reads group
  {
    forall i :: 1 <= i < |group| && group[i] == group[0] ==> Flat(group[1..i]) == NO_CHANGES
  }

  /** Exactly then merging collects every change of the group once, in order; otherwise it collects too many. */
  lemma {:induction false} MergedIsFlat(group: seq<Movement>)
    ensures Merged(group) == Flat(group) <==> CountsOnce(group)
    ensures Size(Merged(group)) >= Size(Flat(group))
    ensures Merged(group) != Flat(group) ==> Size(Merged(group)) > Size(Flat(group))
  {
    hide Append;
    if |group| == 1 {
      FlatOfOne(group[0]);
      assert group == [group[0]];
    } else if group != [] {
      var n := |group| - 1;
      var front, last := group[..n], group[n];
      MergedIsFlat(front);
      FlatConcat(front, [last]);
      FlatOfOne(last);
      assert group == front + [last];
      FlatFront(front);
      CountsOnceExtend(group);
      MergeLast(Merged(front), Flat(front), Held(group[0]), Flat(group[1..n]), Held(last), last == group[0]);
    }
  }

  /** How many changes there are. */
  function Size(c: Changes): nat {
    |c.from| + |c.to|
  }

  lemma FlatFront(group: seq<Movement>)
    requires group != []
    ensures Flat(group) == Append(Held(group[0]), Flat(group[1..]))
  {
  }

  lemma CountsOnceExtend(group: seq<Movement>)
    requires |group| > 1
    ensures var n := |group| - 1;
            CountsOnce(group) <==>
            CountsOnce(group[..n]) && (group[n] == group[0] ==> Flat(group[1..n]) == NO_CHANGES)
  {
    hide Flat;
    var n := |group| - 1;
    forall i | 1 <= i < n
      ensures group[..n][1..i] == group[1..i]
    {
    }
  }

  /** One merge step, with what has been collected, what should be, and what the last movement holds. */
  lemma MergeLast(merged: Changes, flat: Changes, first: Changes, rest: Changes, last: Changes, again: bool)
    requires flat == Append(first, rest) && (again ==> last == first)
    requires Size(merged) >= Size(flat) && (merged != flat ==> Size(merged) > Size(flat))
    ensures var m, f := Append(merged, if again then merged else last), Append(flat, last);
            && (m == f <==> merged == flat && (again ==> rest == NO_CHANGES))
            && Size(m) >= Size(f) && (m != f ==> Size(m) > Size(f))
  {
    var m, f := Append(merged, if again then merged else last), Append(flat, last);
    assert Size(m) == Size(merged) + if again then Size(merged) else Size(last);
    assert Size(f) == Size(first) + Size(rest) + Size(last);
    assert Size(rest) == 0 <==> rest == NO_CHANGES;
    if again && rest == NO_CHANGES {
      assert flat == first;
    }
  }

  /** The same pointer three times counts four times once merged, unless it holds nothing; twice is harmless. */
  lemma RepeatedPointer(m: Movement)
    ensures NetOfChanges(Merged([m, m, m])) == 4 * NetOfChanges(Held(m))
    ensures Net([m, m, m], m.assetId) == 3 * NetOfChanges(Held(m))
    ensures CountsOnce([m, m]) && (CountsOnce([m, m, m]) <==> Held(m) == NO_CHANGES)
  {
    hide Append, NetOfChanges;
    assert [m, m, m][..2] == [m, m] && [m, m][..1] == [m];
    assert Merged([m]) == Held(m);
    var twice := Append(Held(m), Held(m));
    assert Merged([m, m]) == twice;
    NetOfAppend(Held(m), Held(m));
    NetOfAppend(twice, twice);
    NetConcat([m, m], [m], m.assetId);
    NetConcat([m], [m], m.assetId);
    NetOfOne(m, m.assetId);
    assert [m, m, m] == [m, m] + [m] && [m, m] == [m] + [m];
    assert [m, m][1..1] == [] && [m, m, m][1..1] == [] && [m, m, m][1..2] == [m];
    FlatOfOne(m);
  }

  // ----- grouping by asset

  /** The map holds, for every asset that occurs, its movements in order. */
  ghost predicate ByAsset(entries: seq<(string, seq<Movement>)>, ms: seq<Movement>) {
    && Increasing(entries)
    && forall asset :: Lookup(entries, asset) == if Of(ms, asset) == [] then None else Some(Of(ms, asset))
  }

  method GroupByAsset(movements: seq<Movement>) returns (mapping: OrderedMap<seq<Movement>>)
    ensures fresh(mapping) && ByAsset(mapping.entries, movements)
  {
    mapping := new OrderedMap();
    for i := 0 to |movements|
      invariant fresh(mapping) && ByAsset(mapping.entries, movements[..i])
    {
      var m := movements[i];
      var arr := mapping.Get(m.assetId);
      var group := if arr.Some? then arr.value else [];
      ByAssetExtend(mapping.entries, movements[..i], m);
      mapping.Set(m.assetId, group + [m]);
      assert movements[..i + 1] == movements[..i] + [m];
    }
    assert movements[..|movements|] == movements;
  }

  lemma ByAssetExtend(entries: seq<(string, seq<Movement>)>, ms: seq<Movement>, m: Movement)
    requires ByAsset(entries, ms)
    ensures ByAsset(Update(entries, m.assetId, Of(ms, m.assetId) + [m]), ms + [m])
  {
    var after := Update(entries, m.assetId, Of(ms, m.assetId) + [m]);
    UpdateIncreasing(entries, m.assetId, Of(ms, m.assetId) + [m]);
    forall asset
      ensures Lookup(after, asset) == if Of(ms + [m], asset) == [] then None else Some(Of(ms + [m], asset))
    {
      LookupUpdate(entries, m.assetId, Of(ms, m.assetId) + [m], asset);
      OfConcat(ms, [m], asset);
      OfOne(m, asset);
      assert Of(ms, asset) + [] == Of(ms, asset);
    }
  }

  /** Entry n of the map: an asset's nonempty list of movements. */
  lemma EntryOf(entries: seq<(string, seq<Movement>)>, ms: seq<Movement>, n: nat)
    requires ByAsset(entries, ms) && n < |entries|
    ensures entries[n].1 != [] && entries[n].1 == Of(ms, entries[n].0)
    ensures forall m :: m in entries[n].1 ==> m in ms && m.assetId == entries[n].0
    ensures entries[n].1[0] in ms && entries[n].1[0].assetId == entries[n].0
  {
    EntryIsLookup(entries, n);
    OfMembers(ms, entries[n].0);
    assert entries[n].1[0] in entries[n].1;
  }

  // ----- merging every asset

  /** One movement per asset in strictly increasing order of assets: the first one of each. */
  ghost predicate FirstPerAsset(coalesced: seq<Movement>, ms: seq<Movement>) {
    && (forall i, j :: 0 <= i < j < |coalesced| ==> StringLess(coalesced[i].assetId, coalesced[j].assetId))
    && (forall i :: 0 <= i < |coalesced| ==> IsFirstOf(coalesced[i], ms))
    && forall m :: m in ms ==> exists i :: 0 <= i < |coalesced| && coalesced[i].assetId == m.assetId
  }

  ghost predicate IsFirstOf(c: Movement, ms: seq<Movement>) {
    Of(ms, c.assetId) != [] && c == Of(ms, c.assetId)[0]
  }

  ghost predicate Firsts(entries: seq<(string, seq<Movement>)>, coalesced: seq<Movement>)
  {
    && |coalesced| <= |entries|
    && forall i :: 0 <= i < |coalesced| ==> entries[i].1 != [] && coalesced[i] == entries[i].1[0]
  }

  lemma FirstsOfAll(entries: seq<(string, seq<Movement>)>, ms: seq<Movement>, coalesced: seq<Movement>)
    requires ByAsset(entries, ms) && Firsts(entries, coalesced) && |coalesced| == |entries|
    ensures FirstPerAsset(coalesced, ms)
  {
    forall i | 0 <= i < |coalesced|
      ensures coalesced[i].assetId == entries[i].0 && IsFirstOf(coalesced[i], ms)
    {
      EntryOf(entries, ms, i);
    }
    forall i, j | 0 <= i < j < |coalesced|
      ensures StringLess(coalesced[i].assetId, coalesced[j].assetId)
    {
      IncreasingPairs(entries, i, j);
    }
    forall m | m in ms
      ensures exists i :: 0 <= i < |coalesced| && coalesced[i].assetId == m.assetId
    {
      OfMembers(ms, m.assetId);
      assert m in Of(ms, m.assetId);
      var i := LookupIsEntry(entries, m.assetId);
      assert coalesced[i].assetId == m.assetId;
    }
  }

  /** No movement of entry n has been merged into while the entries before it were handled. */
  lemma NotYetMerged(entries: seq<(string, seq<Movement>)>, ms: seq<Movement>, coalesced: seq<Movement>)
    requires ByAsset(entries, ms) && Firsts(entries, coalesced) && |coalesced| < |entries|
    ensures forall m :: m in entries[|coalesced|].1 ==> m !in coalesced
  {
    var n := |coalesced|;
    EntryOf(entries, ms, n);
    forall i | 0 <= i < n
      ensures coalesced[i].assetId != entries[n].0
    {
      EntryOf(entries, ms, i);
      IncreasingPairs(entries, i, n);
    }
  }

  twostate lemma SameMerged(group: seq<Movement>)
    requires forall m :: m in group ==> m.from == old(m.from) && m.to == old(m.to)
    ensures Merged(group) == old(Merged(group))
  {
    if |group| > 1 {
      SameMerged(group[..|group| - 1]);
    }
  }

  /** Of each asset, the first movement occurs again at most where nothing has been merged into it. */
  ghost predicate AllCountOnce(ms: seq<Movement>)
    reads ms
  {
    forall asset :: CountsOnceFor(ms, asset)
  }

  ghost predicate CountsOnceFor(ms: seq<Movement>, asset: string)
    reads ms
  {
    var group := Of(ms, asset);
    assert forall i :: 0 <= i < |group| ==> group[i] in ms;
    CountsOnce(group)
  }

  function FlatFor(ms: seq<Movement>, asset: string): Changes
    reads ms
  {
    var group := Of(ms, asset);
    assert forall i :: 0 <= i < |group| ==> group[i] in ms;
    Flat(group)
  }

  lemma OneOfEach(coalesced: seq<Movement>, ms: seq<Movement>, i: nat)
    requires FirstPerAsset(coalesced, ms) && i < |coalesced|
    ensures forall m :: m in coalesced[..i] || m in coalesced[i + 1..] ==> m.assetId != coalesced[i].assetId
  {
  }

  /** The net of an asset over one movement per asset is that movement's. */
  lemma NetOfKept(coalesced: seq<Movement>, ms: seq<Movement>, i: nat)
    requires FirstPerAsset(coalesced, ms) && i < |coalesced|
    ensures Net(coalesced, coalesced[i].assetId) == NetOfChanges(Held(coalesced[i]))
  {
    hide NetOfChanges, Net, Of, Held, StringLess;
    var asset := coalesced[i].assetId;
    OneOfEach(coalesced, ms, i);
    hide FirstPerAsset;
    NetConcat(coalesced[..i], coalesced[i..], asset);
    NetConcat([coalesced[i]], coalesced[i + 1..], asset);
    assert coalesced == coalesced[..i] + coalesced[i..];
    assert coalesced[i..] == [coalesced[i]] + coalesced[i + 1..];
    NetOfAbsent(coalesced[..i], asset);
    NetOfAbsent(coalesced[i + 1..], asset);
    NetOfOne(coalesced[i], asset);
  }

  /** What each asset's group of movements collects when merged. */
  ghost function Collected(ms: seq<Movement>): (c: imap<string, Changes>)
    reads ms
    ensures forall asset :: asset in c
  {
    imap asset: string :: CollectedFor(ms, asset)
  }

  function CollectedFor(ms: seq<Movement>, asset: string): Changes
    reads ms
  {
    var group := Of(ms, asset);
    assert forall i :: 0 <= i < |group| ==> group[i] in ms;
    Merged(group)
  }

  lemma CollectedAt(ms: seq<Movement>)
    ensures forall asset :: Collected(ms)[asset] == Merged(Of(ms, asset))
    ensures forall asset | Of(ms, asset) == [] :: Collected(ms)[asset] == NO_CHANGES
  {
  }

  /** Before merging: each asset's group will collect its changes exactly once, under exactly that condition. */
  lemma NetsBefore(ms: seq<Movement>)
    ensures (forall asset :: Collected(ms)[asset] == FlatFor(ms, asset)) <==> AllCountOnce(ms)
    ensures forall asset :: Net(ms, asset) == NetOfChanges(FlatFor(ms, asset))
  {
    hide Merged, Flat, CountsOnce;
    CollectedAt(ms);
    forall asset
      ensures Merged(Of(ms, asset)) == FlatFor(ms, asset) <==> CountsOnceFor(ms, asset)
      ensures Net(ms, asset) == NetOfChanges(FlatFor(ms, asset))
    {
      NetIsFlatSum(ms, asset);
      MergedIsFlat(Of(ms, asset));
    }
  }

  /** After merging: the nets are those of the changes the kept movements hold. */
  lemma NetsAfter(coalesced: seq<Movement>, ms: seq<Movement>, collected: imap<string, Changes>)
    requires FirstPerAsset(coalesced, ms) && forall asset :: asset in collected
    requires forall asset | Of(ms, asset) == [] :: collected[asset] == NO_CHANGES
    requires forall c :: c in coalesced ==> Held(c) == collected[c.assetId]
    ensures forall asset :: Net(coalesced, asset) == NetOfChanges(collected[asset])
  {
    forall asset
      ensures Net(coalesced, asset) == NetOfChanges(collected[asset])
    {
      if i :| 0 <= i < |coalesced| && coalesced[i].assetId == asset {
        NetOfKept(coalesced, ms, i);
      } else {
        NetOfAbsent(coalesced, asset);
        OfAbsent(ms, asset);
      }
    }
  }

  /**
   * Merges movements of the same asset into the first one of each. The movements merged away keep their
   * changes; the kept ones hold what merging their asset's movements collects. That is every change of every
   * asset exactly once and in order if and only if AllCountOnce, and then every net is as before.
   */
  method Coalesce(movements: seq<Movement>) returns (coalesced: seq<Movement>)
    modifies movements
    ensures FirstPerAsset(coalesced, movements)
    ensures forall c :: c in coalesced ==> c in movements
    ensures forall c :: c in coalesced ==> Held(c) == old(Collected(movements))[c.assetId]
    ensures forall m :: m in movements && m !in coalesced ==> m.from == old(m.from) && m.to == old(m.to)
    ensures forall m :: m in movements ==> m.contractId == old(m.contractId) && m.memo == old(m.memo)
    ensures (forall asset :: old(Collected(movements))[asset] == old(FlatFor(movements, asset))) <==>
            old(AllCountOnce(movements))
    ensures old(AllCountOnce(movements)) ==> Nets(coalesced) == old(Nets(movements))
  {
    hide ByAsset, Merged, FlatFor, Net, FirstPerAsset, AllCountOnce, NetOfChanges, Collected, Of;
    ghost var collected := Collected(movements);
    ghost var nets := Nets(movements);
    CollectedAt(movements);
    ghost var once := AllCountOnce(movements);
    NetsBefore(movements);
    var mapping := GroupByAsset(movements);
    var entries := mapping.entries;
    coalesced := [];
    for n := 0 to |entries|
      invariant |coalesced| == n && Firsts(entries, coalesced)
      invariant forall c :: c in coalesced ==> c in movements
      invariant forall c :: c in coalesced ==> Held(c) == collected[c.assetId]
      invariant forall m :: m in movements && m !in coalesced ==> m.from == old(m.from) && m.to == old(m.to)
      invariant forall m :: m in movements ==> m.contractId == old(m.contractId) && m.memo == old(m.memo)
    {
      EntryOf(entries, movements, n);
      NotYetMerged(entries, movements, coalesced);
      var value := entries[n].1;
      if |value| > 0 {
        SameMerged(Of(movements, value[0].assetId));
        Merge(value[0], value);
        coalesced := coalesced + [value[0]];
      }
    }
    FirstsOfAll(entries, movements, coalesced);
    NetsAfter(coalesced, movements, collected);
    assert once ==> forall asset :: Nets(coalesced)[asset] == nets[asset];
  }
}
