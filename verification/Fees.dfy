/** Fees derived from the movements of a transaction. */
module Fees {
  import opened Wrappers
  import opened Selection
  import opened Sorting
  import opened Ordering
  import opened Movements

  /** The fees that nets call for: every asset whose net is not zero, with its net, in order of assets. */
  ghost predicate AreFees(fees: seq<(string, int)>, nets: imap<string, int>) {
    && Increasing(fees)
    && forall asset :: asset in nets ==> Lookup(fees, asset) == NonZero(nets[asset])
  }

  /** Nets determine the fees: movements with the same nets have the same fees. */
  lemma FeesAreUnique(a: seq<(string, int)>, b: seq<(string, int)>, nets: imap<string, int>)
    requires AreFees(a, nets) && AreFees(b, nets) && forall asset :: asset in nets
    ensures a == b
  {
    forall asset
      ensures Lookup(a, asset) == Lookup(b, asset)
    {
      assert asset in nets;
    }
    LookupsDetermine(a, b);
  }

  function NonZero(net: int): Option<int> {
    if net == 0 then None else Some(net)
  }

  /** The running map: an entry for every asset that occurs, with its net over done and, for one asset, more. */
  ghost predicate Tracks(entries: seq<(string, int)>, ms: seq<Movement>, done: seq<Movement>, asset: string, more: int)
    reads done
  {
    && Increasing(entries)
    && forall a :: Lookup(entries, a) ==
         if Of(ms, a) == [] then None else Some(Net(done, a) + if a == asset then more else 0)
  }

  lemma TracksAdd(entries: seq<(string, int)>, ms: seq<Movement>, done: seq<Movement>, m: Movement, more: int, x: int)
    requires Tracks(entries, ms, done, m.assetId, more) && m in ms
    ensures Increasing(entries) && Lookup(entries, m.assetId) == Some(Net(done, m.assetId) + more)
    ensures Tracks(Update(entries, m.assetId, Net(done, m.assetId) + more + x), ms, done, m.assetId, more + x)
  {
    hide Net, Update, Lookup;
    var value := Net(done, m.assetId) + more + x;
    OfMembers(ms, m.assetId);
    assert m in Of(ms, m.assetId);
    UpdateIncreasing(entries, m.assetId, value);
    forall a
      ensures Lookup(Update(entries, m.assetId, value), a) ==
        if Of(ms, a) == [] then None else Some(Net(done, a) + if a == m.assetId then more + x else 0)
    {
      LookupUpdate(entries, m.assetId, value, a);
    }
  }

  /** With nothing more to add, the asset does not matter. */
  lemma TracksSame(entries: seq<(string, int)>, ms: seq<Movement>, done: seq<Movement>, asset: string, other: string)
    requires Tracks(entries, ms, done, asset, 0)
    ensures Tracks(entries, ms, done, other, 0)
  {
  }

  lemma TracksNext(entries: seq<(string, int)>, ms: seq<Movement>, done: seq<Movement>, m: Movement)
    requires Tracks(entries, ms, done, m.assetId, NetOfChanges(Held(m)))
    ensures Tracks(entries, ms, done + [m], "", 0)
  {
    forall a
      ensures Net(done + [m], a) == Net(done, a) + if a == m.assetId then NetOfChanges(Held(m)) else 0
    {
      NetConcat(done, [m], a);
      NetOfOne(m, a);
    }
  }

  lemma TracksNothing()
    ensures Tracks([], [], [], "", 0)
  {
  }

  lemma TracksZero(entries: seq<(string, int)>, ms: seq<Movement>, m: Movement)
    requires Tracks(entries, ms, [], "", 0)
    ensures Tracks(Update(entries, m.assetId, 0), ms + [m], [], "", 0)
  {
    hide Update, Lookup, Of;
    UpdateIncreasing(entries, m.assetId, 0);
    forall a
      ensures Lookup(Update(entries, m.assetId, 0), a) == if Of(ms + [m], a) == [] then None else Some(0)
    {
      LookupUpdate(entries, m.assetId, 0, a);
      OfConcat(ms, [m], a);
      OfOne(m, a);
    }
  }

  lemma TracksIncreasing(entries: seq<(string, int)>, ms: seq<Movement>, done: seq<Movement>)
    requires Tracks(entries, ms, done, "", 0)
    ensures Increasing(entries)
  {
  }

  /** An entry at zero for every asset that occurs. */
  method ZeroBalances(movements: seq<Movement>) returns (netBalances: OrderedMap<int>)
    ensures fresh(netBalances) && Tracks(netBalances.entries, movements, [], "", 0)
  {
    hide Tracks, Update, Increasing;
    netBalances := new OrderedMap();
    TracksNothing();
    assert movements[..0] == [];
    for i := 0 to |movements|
      invariant fresh(netBalances) && Tracks(netBalances.entries, movements[..i], [], "", 0)
    {
      TracksIncreasing(netBalances.entries, movements[..i], []);
      TracksZero(netBalances.entries, movements[..i], movements[i]);
      netBalances.Set(movements[i].assetId, 0);
      assert movements[..i + 1] == movements[..i] + [movements[i]];
    }
    assert movements[..|movements|] == movements;
  }

  /** The body of the loop over the movements: adds the debits of m to its asset's entry, subtracts its credits. */
  method Accumulate(netBalances: OrderedMap<int>, m: Movement, ghost ms: seq<Movement>, ghost done: seq<Movement>)
    requires m in ms && Tracks(netBalances.entries, ms, done, m.assetId, 0)
    modifies netBalances
    ensures Tracks(netBalances.entries, ms, done, m.assetId, NetOfChanges(Held(m)))
  {
    hide Tracks, Sum;
    assert Sum(m.from[..0], BalanceOf) == 0 && Sum(m.to[..0], BalanceOf) == 0 by { SumOfNone(); }
    for i := 0 to |m.from|
      invariant Tracks(netBalances.entries, ms, done, m.assetId, Sum(m.from[..i], BalanceOf))
    {
      TracksAdd(netBalances.entries, ms, done, m, Sum(m.from[..i], BalanceOf), m.from[i].balance);
      SumExtend(m.from, i, BalanceOf);
      Add(netBalances, m.assetId, m.from[i].balance);
    }
    assert m.from[..|m.from|] == m.from;
    for i := 0 to |m.to|
      invariant Tracks(netBalances.entries, ms, done, m.assetId, Sum(m.from, BalanceOf) - Sum(m.to[..i], BalanceOf))
    {
      TracksAdd(netBalances.entries, ms, done, m, Sum(m.from, BalanceOf) - Sum(m.to[..i], BalanceOf), -m.to[i].balance);
      SumExtend(m.to, i, BalanceOf);
      Add(netBalances, m.assetId, -m.to[i].balance);
    }
    assert m.to[..|m.to|] == m.to;
  }

  lemma SumOfNone()
    ensures Sum([], BalanceOf) == 0
  {
  }

  /** Adds to the number an entry holds, in place. */
  method Add(netBalances: OrderedMap<int>, asset: string, amount: int)
    requires Increasing(netBalances.entries) && Lookup(netBalances.entries, asset).Some?
    modifies netBalances
    ensures netBalances.entries ==
            Update(old(netBalances.entries), asset, old(Lookup(netBalances.entries, asset)).value + amount)
  {
    var bal := netBalances.Get(asset);
    netBalances.Set(asset, bal.value + amount);
  }

  /** The entries that are not zero. */
  function Kept(entries: seq<(string, int)>): (kept: seq<(string, int)>)
    ensures kept != [] ==> entries != []
  {
    if entries == [] then []
    else (if entries[0].1 != 0 then [entries[0]] else []) + Kept(entries[1..])
  }

  lemma {:induction false} KeptHead(entries: seq<(string, int)>, bound: string)
    requires Increasing(entries) && entries != [] && StringLess(bound, entries[0].0) && Kept(entries) != []
    ensures StringLess(bound, Kept(entries)[0].0)
  {
    if entries[0].1 == 0 {
      StringLessTransitive(bound, entries[0].0, entries[1].0);
      KeptHead(entries[1..], bound);
    }
  }

  lemma {:induction false} KeptEntries(entries: seq<(string, int)>)
    requires Increasing(entries)
    ensures Increasing(Kept(entries))
    ensures forall a :: Lookup(Kept(entries), a) ==
                        if Lookup(entries, a) == Some(0) then None else Lookup(entries, a)
  {
    if entries != [] {
      KeptEntries(entries[1..]);
      LookupBelowTail(entries);
      var rest := Kept(entries[1..]);
      if entries[0].1 != 0 {
        assert Kept(entries)[1..] == rest;
        if rest != [] {
          KeptHead(entries[1..], entries[0].0);
        }
      } else {
        assert Kept(entries) == rest;
      }
    }
  }

  /** Fees are read off the movements, whichever way these were merged. */
  method CalculateFees(movements: seq<Movement>) returns (balances: seq<(string, int)>)
    ensures AreFees(balances, Nets(movements))
  {
    hide Tracks, Net, Increasing, Kept;
    var netBalances := ZeroBalances(movements);
    for i := 0 to |movements|
      invariant fresh(netBalances) && Tracks(netBalances.entries, movements, movements[..i], "", 0)
    {
      var m := movements[i];
      TracksSame(netBalances.entries, movements, movements[..i], "", m.assetId);
      Accumulate(netBalances, m, movements, movements[..i]);
      TracksNext(netBalances.entries, movements, movements[..i], m);
      assert movements[..i + 1] == movements[..i] + [m];
    }
    assert movements[..|movements|] == movements;
    balances := NonZeroEntries(netBalances.entries);
    KeptAreFees(netBalances.entries, movements);
  }

  method NonZeroEntries(entries: seq<(string, int)>) returns (balances: seq<(string, int)>)
    ensures balances == Kept(entries)
  {
    hide Kept;
    balances := [];
    assert entries[0..] == entries;
    for i := 0 to |entries|
      invariant balances + Kept(entries[i..]) == Kept(entries)
    {
      KeptNext(entries, i);
      if entries[i].1 != 0 {
        ConcatAssociates(balances, [entries[i]], Kept(entries[i + 1..]));
        balances := balances + [entries[i]];
      }
    }
    KeptNone(entries);
  }

  lemma KeptNext(entries: seq<(string, int)>, i: nat)
    requires i < |entries|
    ensures Kept(entries[i..]) == if entries[i].1 != 0 then [entries[i]] + Kept(entries[i + 1..]) else Kept(entries[i + 1..])
  {
    assert entries[i..][1..] == entries[i + 1..];
  }

  lemma KeptNone(entries: seq<(string, int)>)
    ensures Kept(entries[|entries|..]) == []
  {
  }

  lemma KeptAreFees(entries: seq<(string, int)>, ms: seq<Movement>)
    requires Tracks(entries, ms, ms, "", 0)
    ensures AreFees(Kept(entries), Nets(ms))
  {
    KeptEntries(entries);
    forall asset
      ensures Lookup(Kept(entries), asset) == NonZero(Net(ms, asset))
    {
      OfMembers(ms, asset);
      if Of(ms, asset) == [] {
        assert forall m :: m in ms && m.assetId == asset ==> m in Of(ms, asset);
        NetOfAbsent(ms, asset);
      }
    }
  }
}
