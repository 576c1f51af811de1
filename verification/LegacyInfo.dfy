/** Transaction information: its movements, and the mapping from the legacy form. */
module LegacyInfo {
  import opened Wrappers
  import opened Selection
  import opened Ordering
  import opened Movements
  import opened Fees

  method TransferMovement(chain: string, contract: string, from: string, to: string, balance: int, memo: string)
    returns (tf: Movement)
    ensures fresh(tf) && tf.assetId == AssetIn(chain, contract) && tf.memo == memo && tf.contractId == ""
    ensures Held(tf) == Changes([BalanceChange(balance, from)], [BalanceChange(balance, to)])
  {
    tf := new Movement(chain, contract);
    tf.memo := memo;
    tf.AddSource(from, balance);
    tf.AddDestination(to, balance);
  }

  method FeeMovement(chain: string, contract: string, from: string, balance: int) returns (tf: Movement)
    ensures fresh(tf) && tf.assetId == AssetIn(chain, contract)
    ensures Held(tf) == Changes([BalanceChange(balance, from)], [])
  {
    tf := new Movement(chain, contract);
    tf.AddSource(from, balance);
  }

  lemma NetOfTransfer(balance: int, from: string, to: string)
    ensures NetOfChanges(Changes([BalanceChange(balance, from)], [BalanceChange(balance, to)])) == 0
    ensures NetOfChanges(Changes([BalanceChange(balance, from)], [])) == balance
  {
    assert [BalanceChange(balance, from)][1..] == [] && [BalanceChange(balance, to)][1..] == [];
  }

  lemma NetsAdd(ms: seq<Movement>, tf: Movement)
    ensures forall asset :: Nets(ms + [tf])[asset] ==
                            Nets(ms)[asset] + if asset == tf.assetId then NetOfChanges(Held(tf)) else 0
  {
    forall asset
      ensures Net(ms + [tf], asset) == Net(ms, asset) + if asset == tf.assetId then NetOfChanges(Held(tf)) else 0
    {
      NetConcat(ms, [tf], asset);
      NetOfOne(tf, asset);
    }
  }

  class TxInfo {
    const chain: string
    var movements: seq<Movement>
    var fees: seq<(string, int)>

    constructor (chain: string)
      ensures this.chain == chain && movements == [] && fees == []
    {
      this.chain := chain;
      movements, fees := [], [];
    }

    /** A simple transfer never adds a fee. */
    method AddSimpleTransfer(from: string, to: string, contract: string, balance: int, memo: string)
      returns (tf: Movement)
      modifies this`movements
      ensures fresh(tf) && movements == old(movements) + [tf]
      ensures tf.assetId == (if contract == "" then chain else contract) && tf.memo == memo && tf.contractId == ""
      ensures tf.from == [BalanceChange(balance, from)] && tf.to == [BalanceChange(balance, to)]
      ensures Nets(movements) == old(Nets(movements))
    {
      hide Net;
      tf := TransferMovement(chain, contract, from, to, balance, memo);
      NetsAdd(movements, tf);
      NetOfTransfer(balance, from, to);
      assert forall asset :: Nets(movements + [tf])[asset] == Nets(movements)[asset];
      assert Nets(movements + [tf]) == Nets(movements);
      movements := movements + [tf];
    }

    /** A fee adds itself to the net of its asset and to no other. */
    method AddFee(from: string, contract: string, balance: int)
      modifies this`movements
      ensures |movements| == |old(movements)| + 1 && movements[..|old(movements)|] == old(movements)
      ensures var fee := movements[|old(movements)|];
              && fresh(fee) && fee.assetId == (if contract == "" then chain else contract)
              && fee.from == [BalanceChange(balance, from)] && fee.to == []
      ensures forall asset :: Nets(movements)[asset] ==
                              old(Nets(movements))[asset] + if asset == AssetIn(chain, contract) then balance else 0
    {
      hide Net;
      var tf := FeeMovement(chain, contract, from, balance);
      NetsAdd(movements, tf);
      NetOfTransfer(balance, from, from);
      movements := movements + [tf];
    }

    method AddMovement(transfer: Movement)
      modifies this`movements
      ensures movements == old(movements) + [transfer]
    {
      movements := movements + [transfer];
    }

    /** Coalescing leaves the fees as they are. */
    method Coalesce()
      modifies this`movements, movements
      ensures FirstPerAsset(movements, old(movements))
      ensures old(AllCountOnce(movements)) ==> Nets(movements) == old(Nets(movements))
    {
      movements := Movements.Coalesce(movements);
    }
  }

  // ----- the legacy form

  datatype Endpoint = Endpoint(address: string, contract: string, amount: int, contractId: string, memo: string)

  datatype Legacy = Legacy(
    from: string, contract: string, fee: int, feePayer: string, feeContract: string,
    sources: seq<Endpoint>, destinations: seq<Endpoint>)

  datatype Mapping = Utxo | Account

  /** The balance changes among endpoints that are in one asset. */
  function ChangesIn(endpoints: seq<Endpoint>, chain: string, asset: string): seq<BalanceChange> {
    if endpoints == [] then []
    else
      var e := endpoints[|endpoints| - 1];
      ChangesIn(endpoints[..|endpoints| - 1], chain, asset)
      + if AssetIn(chain, e.contract) == asset then [BalanceChange(e.amount, e.address)] else []
  }

  /** All changes of one asset in the legacy form: its sources are debits, its destinations credits. */
  function LegacyChanges(sources: seq<Endpoint>, destinations: seq<Endpoint>, chain: string, asset: string): Changes {
    Changes(ChangesIn(sources, chain, asset), ChangesIn(destinations, chain, asset))
  }

  /** What endpoints move in one asset, where no contract means the chain's own asset. */
  function AmountIn(endpoints: seq<Endpoint>, chain: string, asset: string): int {
    if endpoints == [] then 0
    else
      var e := endpoints[0];
      (if (if e.contract == "" then chain else e.contract) == asset then e.amount else 0)
      + AmountIn(endpoints[1..], chain, asset)
  }

  /** Each endpoint in the asset, in order, gives its amount and address, and together they move that amount. */
  lemma {:induction false} ChangesInIs(endpoints: seq<Endpoint>, chain: string, asset: string)
    ensures endpoints == [] ==> ChangesIn(endpoints, chain, asset) == []
    ensures endpoints != [] ==>
              var e := endpoints[0];
              ChangesIn(endpoints, chain, asset)
              == (if (if e.contract == "" then chain else e.contract) == asset then [BalanceChange(e.amount, e.address)] else [])
                 + ChangesIn(endpoints[1..], chain, asset)
    ensures Sum(ChangesIn(endpoints, chain, asset), BalanceOf) == AmountIn(endpoints, chain, asset)
  {
    if endpoints != [] {
      var e, n := endpoints[0], |endpoints| - 1;
      ChangesInFirst(endpoints, chain, asset);
      ChangesInIs(endpoints[1..], chain, asset);
      var first := if AssetIn(chain, e.contract) == asset then [BalanceChange(e.amount, e.address)] else [];
      SumConcat(first, ChangesIn(endpoints[1..], chain, asset), BalanceOf);
    }
  }

  lemma {:induction false} ChangesInFirst(endpoints: seq<Endpoint>, chain: string, asset: string)
    requires endpoints != []
    ensures ChangesIn(endpoints, chain, asset) ==
            (if AssetIn(chain, endpoints[0].contract) == asset
             then [BalanceChange(endpoints[0].amount, endpoints[0].address)] else [])
            + ChangesIn(endpoints[1..], chain, asset)
  {
    var n := |endpoints| - 1;
    if n > 0 {
      ChangesInFirst(endpoints[..n], chain, asset);
      assert endpoints[..n][1..] == endpoints[1..][..n - 1];
    }
  }

  /** The payer named, else the sender, else the last source in the transaction's contract or the native asset. */
  function FeePayer(legacy: Legacy, chain: string): string {
    if legacy.feePayer != "" then legacy.feePayer
    else if legacy.from != "" then legacy.from
    else LastPaying(legacy, chain, |legacy.sources|)
  }

  function LastPaying(legacy: Legacy, chain: string, n: nat): string
    requires n <= |legacy.sources|
  {
    if n == 0 then ""
    else
      var source := legacy.sources[n - 1];
      if source.contract == legacy.contract || source.contract == chain then source.address
      else LastPaying(legacy, chain, n - 1)
  }

  method InferFeePayer(legacy: Legacy, chain: string) returns (feePayer: string)
    ensures feePayer == FeePayer(legacy, chain)
  {
    feePayer := legacy.feePayer;
    if feePayer == "" {
      feePayer := legacy.from;
    }
    if feePayer == "" {
      for i := 0 to |legacy.sources|
        invariant feePayer == LastPaying(legacy, chain, i)
      {
        var source := legacy.sources[i];
        if source.contract == legacy.contract || source.contract == chain {
          feePayer := source.address;
        }
      }
    }
  }

  /**
   * The payer named wins over the sender, and the sender over the sources; of these the last one counts that is in
   * the transaction's contract or in the native asset, and without any nobody pays.
   */
  lemma FeePayerIs(legacy: Legacy, chain: string)
    ensures legacy.feePayer != "" ==> FeePayer(legacy, chain) == legacy.feePayer
    ensures legacy.feePayer == "" && legacy.from != "" ==> FeePayer(legacy, chain) == legacy.from
    ensures legacy.feePayer == "" && legacy.from == "" ==>
              || ((forall i :: 0 <= i < |legacy.sources| ==> legacy.sources[i].contract !in {legacy.contract, chain})
                  && FeePayer(legacy, chain) == "")
              || exists k :: 0 <= k < |legacy.sources| && legacy.sources[k].contract in {legacy.contract, chain}
                             && (forall i :: k < i < |legacy.sources| ==> legacy.sources[i].contract !in {legacy.contract, chain})
                             && FeePayer(legacy, chain) == legacy.sources[k].address
  {
    LastPayingIs(legacy, chain, |legacy.sources|);
  }

  lemma {:induction false} LastPayingIs(legacy: Legacy, chain: string, n: nat)
    requires n <= |legacy.sources|
    ensures || ((forall i :: 0 <= i < n ==> legacy.sources[i].contract !in {legacy.contract, chain})
                && LastPaying(legacy, chain, n) == "")
            || exists k :: 0 <= k < n && legacy.sources[k].contract in {legacy.contract, chain}
                           && (forall i :: k < i < n ==> legacy.sources[i].contract !in {legacy.contract, chain})
                           && LastPaying(legacy, chain, n) == legacy.sources[k].address
  {
    if n > 0 {
      LastPayingIs(legacy, chain, n - 1);
      if legacy.sources[n - 1].contract in {legacy.contract, chain} {
        assert LastPaying(legacy, chain, n) == legacy.sources[n - 1].address;
      } else {
        assert LastPaying(legacy, chain, n) == LastPaying(legacy, chain, n - 1);
      }
    }
  }

  // ----- UTXO mapping

  ghost predicate Distinct(ms: seq<Movement>) {
    forall i, j :: 0 <= i < j < |ms| ==> ms[i] != ms[j]
  }

  lemma {:induction false} DistinctFirst(ms: seq<Movement>, asset: string)
    requires Distinct(ms)
    ensures Of(ms, asset) != [] ==> Of(ms, asset)[0] !in Of(ms, asset)[1..]
  {
    if ms != [] {
      DistinctFirst(ms[1..], asset);
      assert ms[0] !in ms[1..];
      if ms[0].assetId == asset {
        assert Of(ms, asset)[1..] == Of(ms[1..], asset);
      } else {
        assert Of(ms, asset) == Of(ms[1..], asset);
      }
    }
  }

  /** One movement for each endpoint so far, holding that endpoint's change. */
  ghost predicate Mapped(tfs: seq<Movement>, sources: seq<Endpoint>, destinations: seq<Endpoint>, chain: string)
    reads tfs
  {
    Distinct(tfs) && forall asset :: FlatFor(tfs, asset) == LegacyChanges(sources, destinations, chain, asset)
  }

  method SourceMovement(source: Endpoint, chain: string) returns (tf: Movement)
    ensures fresh(tf) && tf.assetId == AssetIn(chain, source.contract) && tf.contractId == source.contractId
    ensures Held(tf) == Changes([BalanceChange(source.amount, source.address)], [])
  {
    tf := new Movement(chain, source.contract);
    tf.contractId := source.contractId;
    tf.AddSource(source.address, source.amount);
  }

  method DestinationMovement(dest: Endpoint, chain: string) returns (tf: Movement)
    ensures fresh(tf) && tf.assetId == AssetIn(chain, dest.contract) && tf.contractId == dest.contractId
    ensures Held(tf) == Changes([], [BalanceChange(dest.amount, dest.address)])
  {
    tf := new Movement(chain, dest.contract);
    tf.contractId := dest.contractId;
    tf.AddDestination(dest.address, dest.amount);
  }

  lemma FlatForExtend(tfs: seq<Movement>, tf: Movement, asset: string)
    ensures FlatFor(tfs + [tf], asset) ==
            Append(FlatFor(tfs, asset), if tf.assetId == asset then Held(tf) else NO_CHANGES)
  {
    OfConcat(tfs, [tf], asset);
    OfOne(tf, asset);
    FlatConcat(Of(tfs, asset), Of([tf], asset));
    FlatOfOne(tf);
  }

  lemma MappedSource(tfs: seq<Movement>, tf: Movement, sources: seq<Endpoint>, i: nat, chain: string)
    requires i < |sources| && Mapped(tfs, sources[..i], [], chain) && tf !in tfs
    requires tf.assetId == AssetIn(chain, sources[i].contract)
    requires Held(tf) == Changes([BalanceChange(sources[i].amount, sources[i].address)], [])
    ensures Mapped(tfs + [tf], sources[..i + 1], [], chain)
  {
    hide FlatFor;
    assert sources[..i + 1][..i] == sources[..i];
    forall asset
      ensures FlatFor(tfs + [tf], asset) == LegacyChanges(sources[..i + 1], [], chain, asset)
    {
      FlatForExtend(tfs, tf, asset);
    }
  }

  lemma MappedDestination(tfs: seq<Movement>, tf: Movement, sources: seq<Endpoint>, destinations: seq<Endpoint>,
                          i: nat, chain: string)
    requires i < |destinations| && Mapped(tfs, sources, destinations[..i], chain) && tf !in tfs
    requires tf.assetId == AssetIn(chain, destinations[i].contract)
    requires Held(tf) == Changes([], [BalanceChange(destinations[i].amount, destinations[i].address)])
    ensures Mapped(tfs + [tf], sources, destinations[..i + 1], chain)
  {
    hide FlatFor;
    assert destinations[..i + 1][..i] == destinations[..i];
    forall asset
      ensures FlatFor(tfs + [tf], asset) == LegacyChanges(sources, destinations[..i + 1], chain, asset)
    {
      FlatForExtend(tfs, tf, asset);
    }
  }

  /** One movement per endpoint: sources debit, destinations credit. */
  method MapEndpoints(legacy: Legacy, chain: string) returns (tfs: seq<Movement>)
    ensures fresh(tfs)
    ensures Mapped(tfs, legacy.sources, legacy.destinations, chain)
  {
    hide Mapped;
    tfs := [];
    MappedNone(legacy, chain);
    for i := 0 to |legacy.sources|
      invariant fresh(tfs)
      invariant Mapped(tfs, legacy.sources[..i], [], chain)
    {
      var tf := SourceMovement(legacy.sources[i], chain);
      MappedSource(tfs, tf, legacy.sources, i, chain);
      tfs := tfs + [tf];
    }
    assert legacy.sources[..|legacy.sources|] == legacy.sources;
    for i := 0 to |legacy.destinations|
      invariant fresh(tfs)
      invariant Mapped(tfs, legacy.sources, legacy.destinations[..i], chain)
    {
      var tf := DestinationMovement(legacy.destinations[i], chain);
      MappedDestination(tfs, tf, legacy.sources, legacy.destinations, i, chain);
      tfs := tfs + [tf];
    }
    assert legacy.destinations[..|legacy.destinations|] == legacy.destinations;
  }

  lemma MappedNone(legacy: Legacy, chain: string)
    ensures Mapped([], legacy.sources[..0], [], chain)
    ensures legacy.destinations[..0] == []
  {
  }

  /** Nets under the UTXO mapping are sources less destinations, per asset. */
  lemma MappedNets(tfs: seq<Movement>, sources: seq<Endpoint>, destinations: seq<Endpoint>, chain: string)
    requires Mapped(tfs, sources, destinations, chain)
    ensures AllCountOnce(tfs)
    ensures forall asset :: Nets(tfs)[asset] == NetOfChanges(LegacyChanges(sources, destinations, chain, asset))
  {
    forall asset
      ensures CountsOnceFor(tfs, asset)
      ensures Net(tfs, asset) == NetOfChanges(LegacyChanges(sources, destinations, chain, asset))
    {
      DistinctFirst(tfs, asset);
      NetIsFlatSum(tfs, asset);
      assert FlatFor(tfs, asset) == LegacyChanges(sources, destinations, chain, asset);
    }
  }

  /** One movement per asset in increasing order, holding the asset's sources and destinations, with those nets. */
  ghost predicate IsUtxoMapping(ms: seq<Movement>, legacy: Legacy, chain: string)
    reads ms
  {
    && (forall i, j :: 0 <= i < j < |ms| ==> StringLess(ms[i].assetId, ms[j].assetId))
    && (forall m :: m in ms ==> Held(m) == LegacyChanges(legacy.sources, legacy.destinations, chain, m.assetId))
    && forall asset ::
         Nets(ms)[asset] == NetOfChanges(LegacyChanges(legacy.sources, legacy.destinations, chain, asset))
  }

  method CoalesceEndpoints(legacy: Legacy, chain: string) returns (coalesced: seq<Movement>)
    ensures fresh(coalesced) && IsUtxoMapping(coalesced, legacy, chain)
  {
    hide Net, LegacyChanges, NetOfChanges, Of, AllCountOnce;
    var tfs := MapEndpoints(legacy, chain);
    MappedNets(tfs, legacy.sources, legacy.destinations, chain);
    ghost var nets, collected := Nets(tfs), Collected(tfs);
    assert forall asset :: FlatFor(tfs, asset) == LegacyChanges(legacy.sources, legacy.destinations, chain, asset);
    hide Mapped, FlatFor, Collected;
    coalesced := Movements.Coalesce(tfs);
  }

  method MapUtxo(info: TxInfo, legacy: Legacy)
    requires info.movements == []
    modifies info`movements
    ensures fresh(info.movements) && IsUtxoMapping(info.movements, legacy, info.chain)
  {
    hide IsUtxoMapping;
    var coalesced := CoalesceEndpoints(legacy, info.chain);
    for i := 0 to |coalesced|
      invariant info.movements == coalesced[..i] && IsUtxoMapping(coalesced, legacy, info.chain)
    {
      info.AddMovement(coalesced[i]);
    }
    assert coalesced[..|coalesced|] == coalesced;
  }

  // ----- account mapping

  function SourceAddress(legacy: Legacy, i: nat): string {
    if i < |legacy.sources| then legacy.sources[i].address else legacy.from
  }

  /** Movement m carries destination i from the source beside it, or from the sender when there is none. */
  ghost predicate Carries(m: Movement, legacy: Legacy, i: nat, chain: string)
    requires i < |legacy.destinations|
    reads m
  {
    var dest := legacy.destinations[i];
    && m.assetId == AssetIn(chain, dest.contract) && m.contractId == dest.contractId && m.memo == dest.memo
    && Held(m) == Changes([BalanceChange(dest.amount, SourceAddress(legacy, i))], [BalanceChange(dest.amount, dest.address)])
  }

  ghost predicate IsAccountMapping(ms: seq<Movement>, legacy: Legacy, chain: string)
    reads ms
  {
    && |ms| == |legacy.destinations|
    && forall i :: 0 <= i < |ms| ==> Carries(ms[i], legacy, i, chain)
  }

  method MapAccount(info: TxInfo, legacy: Legacy)
    requires info.movements == []
    modifies info`movements
    ensures fresh(info.movements) && IsAccountMapping(info.movements, legacy, info.chain)
    ensures |info.movements| == |legacy.destinations|
    ensures forall i :: 0 <= i < |info.movements| ==>
              var dest := legacy.destinations[i];
              var from := if i < |legacy.sources| then legacy.sources[i].address else legacy.from;
              && info.movements[i].assetId == (if dest.contract == "" then info.chain else dest.contract)
              && info.movements[i].from == [BalanceChange(dest.amount, from)]
              && info.movements[i].to == [BalanceChange(dest.amount, dest.address)]
              && info.movements[i].contractId == dest.contractId && info.movements[i].memo == dest.memo
    ensures forall asset :: Nets(info.movements)[asset] == 0
  {
    for i := 0 to |legacy.destinations|
      invariant |info.movements| == i && fresh(info.movements)
      invariant forall k :: 0 <= k < i ==> Carries(info.movements[k], legacy, k, info.chain)
    {
      var dest := legacy.destinations[i];
      var fromAddr := legacy.from;
      if i < |legacy.sources| {
        fromAddr := legacy.sources[i].address;
      }
      var movement := info.AddSimpleTransfer(fromAddr, dest.address, dest.contract, dest.amount, dest.memo);
      movement.contractId := dest.contractId;
    }
    CarriedNets(info.movements, legacy, info.chain);
  }

  lemma CarriedNets(ms: seq<Movement>, legacy: Legacy, chain: string)
    requires IsAccountMapping(ms, legacy, chain)
    ensures forall asset :: Nets(ms)[asset] == 0
  {
    forall i | 0 <= i < |ms|
      ensures NetOfChanges(Held(ms[i])) == 0
    {
      var dest := legacy.destinations[i];
      NetOfTransfer(dest.amount, SourceAddress(legacy, i), dest.address);
    }
    forall asset
      ensures Net(ms, asset) == 0
    {
      BalancedNet(ms, asset);
    }
  }

  lemma {:induction false} BalancedNet(ms: seq<Movement>, asset: string)
    requires forall i :: 0 <= i < |ms| ==> NetOfChanges(Held(ms[i])) == 0
    ensures Net(ms, asset) == 0
  {
    if ms != [] {
      BalancedNet(ms[1..], asset);
    }
  }

  // ----- fees of the mapped transaction

  /** What the legacy form says the net of an asset is, apart from the fee. */
  function LegacyNet(legacy: Legacy, mapping: Mapping, chain: string, asset: string): int {
    if mapping.Account? then 0 else NetOfChanges(LegacyChanges(legacy.sources, legacy.destinations, chain, asset))
  }

  lemma LegacyNetIs(legacy: Legacy, mapping: Mapping, chain: string, asset: string)
    ensures LegacyNet(legacy, mapping, chain, asset) ==
            if mapping.Utxo? then AmountIn(legacy.sources, chain, asset) - AmountIn(legacy.destinations, chain, asset)
            else 0
  {
    ChangesInIs(legacy.sources, chain, asset);
    ChangesInIs(legacy.destinations, chain, asset);
  }

  /** The endpoints as mapped, then a movement for the fee unless it is zero. */
  ghost predicate IsLegacyMapping(ms: seq<Movement>, legacy: Legacy, mapping: Mapping, chain: string)
    reads ms
  {
    var n := |ms| - if legacy.fee == 0 then 0 else 1;
    && 0 <= n
    && (legacy.fee != 0 ==> IsFee(ms[n], legacy, chain))
    && if mapping.Utxo? then IsUtxoMapping(ms[..n], legacy, chain) else IsAccountMapping(ms[..n], legacy, chain)
  }

  ghost predicate IsFee(m: Movement, legacy: Legacy, chain: string)
    reads m
  {
    && m.assetId == AssetIn(chain, legacy.feeContract)
    && Held(m) == Changes([BalanceChange(legacy.fee, FeePayer(legacy, chain))], [])
  }

  /**
   * Under account mapping the fees are exactly the legacy fee. Under UTXO mapping they are sources less
   * destinations, plus the fee in its asset, with zero entries dropped.
   */
  method FromLegacy(chain: string, legacy: Legacy, mapping: Mapping) returns (info: TxInfo)
    ensures fresh(info) && info.chain == chain
    ensures IsLegacyMapping(info.movements, legacy, mapping, chain)
    ensures Increasing(info.fees)
    ensures mapping.Utxo? ==>
              forall i :: 0 <= i < |info.movements| - (if legacy.fee == 0 then 0 else 1) ==>
                && info.movements[i].from == ChangesIn(legacy.sources, chain, info.movements[i].assetId)
                && info.movements[i].to == ChangesIn(legacy.destinations, chain, info.movements[i].assetId)
    ensures legacy.fee != 0 ==>
              && info.movements != []
              && var fee := info.movements[|info.movements| - 1];
                 && fee.assetId == (if legacy.feeContract == "" then chain else legacy.feeContract)
                 && fee.from == [BalanceChange(legacy.fee, FeePayer(legacy, chain))] && fee.to == []
    ensures forall asset :: Lookup(info.fees, asset) ==
              NonZero((if mapping.Account? then 0
                       else AmountIn(legacy.sources, chain, asset) - AmountIn(legacy.destinations, chain, asset))
                      + if asset == (if legacy.feeContract == "" then chain else legacy.feeContract) then legacy.fee else 0)
    ensures mapping.Account? ==>
              info.fees == if legacy.fee == 0 then [] else [(AssetIn(chain, legacy.feeContract), legacy.fee)]
  {
    hide *;
    info := new TxInfo(chain);
    MapMovements(info, legacy, mapping);
    AddLegacyFee(info, legacy, mapping);
    info.fees := CalculateFees(info.movements);
    LegacyFees(info.fees, Nets(info.movements), legacy, mapping, chain);
    MappedMovements(info.movements, legacy, mapping, chain);
  }

  lemma MappedMovements(ms: seq<Movement>, legacy: Legacy, mapping: Mapping, chain: string)
    requires IsLegacyMapping(ms, legacy, mapping, chain)
    ensures mapping.Utxo? ==>
              forall i :: 0 <= i < |ms| - (if legacy.fee == 0 then 0 else 1) ==>
                && ms[i].from == ChangesIn(legacy.sources, chain, ms[i].assetId)
                && ms[i].to == ChangesIn(legacy.destinations, chain, ms[i].assetId)
    ensures legacy.fee != 0 ==>
              && ms != []
              && var fee := ms[|ms| - 1];
                 && fee.assetId == (if legacy.feeContract == "" then chain else legacy.feeContract)
                 && fee.from == [BalanceChange(legacy.fee, FeePayer(legacy, chain))] && fee.to == []
  {
    hide ChangesIn, FeePayer, Nets, NetOfChanges;
    var n := |ms| - if legacy.fee == 0 then 0 else 1;
    if mapping.Utxo? {
      forall i | 0 <= i < n
        ensures Held(ms[i]) == LegacyChanges(legacy.sources, legacy.destinations, chain, ms[i].assetId)
      {
        assert ms[..n][i] in ms[..n];
      }
    }
  }

  /** The fee's own movement, unless it is zero. */
  method AddLegacyFee(info: TxInfo, legacy: Legacy, ghost mapping: Mapping)
    requires if mapping.Utxo? then IsUtxoMapping(info.movements, legacy, info.chain)
             else IsAccountMapping(info.movements, legacy, info.chain)
    requires forall asset :: Nets(info.movements)[asset] == LegacyNet(legacy, mapping, info.chain, asset)
    modifies info`movements
    ensures IsLegacyMapping(info.movements, legacy, mapping, info.chain)
    ensures forall asset :: Nets(info.movements)[asset] ==
              LegacyNet(legacy, mapping, info.chain, asset)
              + if asset == AssetIn(info.chain, legacy.feeContract) then legacy.fee else 0
  {
    hide LegacyNet, FeePayer, Net, IsUtxoMapping, IsAccountMapping;
    ghost var mapped := info.movements;
    if legacy.fee != 0 {
      var feePayer := InferFeePayer(legacy, info.chain);
      info.AddFee(feePayer, legacy.feeContract, legacy.fee);
    }
    assert mapped == if legacy.fee == 0 then info.movements[..|info.movements|] else info.movements[..|info.movements| - 1];
  }

  method MapMovements(info: TxInfo, legacy: Legacy, mapping: Mapping)
    requires info.movements == []
    modifies info`movements
    ensures fresh(info.movements)
    ensures mapping.Utxo? ==> IsUtxoMapping(info.movements, legacy, info.chain)
    ensures mapping.Account? ==> IsAccountMapping(info.movements, legacy, info.chain)
    ensures forall asset :: Nets(info.movements)[asset] == LegacyNet(legacy, mapping, info.chain, asset)
  {
    hide NetOfChanges, LegacyChanges, Net, IsAccountMapping;
    if mapping.Utxo? {
      MapUtxo(info, legacy);
    } else {
      MapAccount(info, legacy);
    }
  }

  lemma LegacyFees(fees: seq<(string, int)>, nets: imap<string, int>, legacy: Legacy, mapping: Mapping, chain: string)
    requires AreFees(fees, nets) && forall asset :: asset in nets
    requires forall asset :: nets[asset] == LegacyNet(legacy, mapping, chain, asset)
                                            + if asset == AssetIn(chain, legacy.feeContract) then legacy.fee else 0
    ensures Increasing(fees)
    ensures forall asset :: Lookup(fees, asset) ==
              NonZero((if mapping.Account? then 0
                       else AmountIn(legacy.sources, chain, asset) - AmountIn(legacy.destinations, chain, asset))
                      + if asset == (if legacy.feeContract == "" then chain else legacy.feeContract) then legacy.fee else 0)
    ensures mapping.Account? ==>
              fees == if legacy.fee == 0 then [] else [(AssetIn(chain, legacy.feeContract), legacy.fee)]
  {
    hide LegacyNet, LegacyChanges, NetOfChanges, Lookup;
    forall asset
      ensures Lookup(fees, asset) ==
              NonZero((if mapping.Account? then 0
                       else AmountIn(legacy.sources, chain, asset) - AmountIn(legacy.destinations, chain, asset))
                      + if asset == (if legacy.feeContract == "" then chain else legacy.feeContract) then legacy.fee else 0)
    {
      assert asset in nets;
      LegacyNetIs(legacy, mapping, chain, asset);
    }
    if mapping.Account? {
      OnlyFee(fees, AssetIn(chain, legacy.feeContract), legacy.fee);
    }
  }

  lemma OnlyFee(fees: seq<(string, int)>, feeAsset: string, fee: int)
    requires Increasing(fees)
    requires forall asset :: Lookup(fees, asset) == NonZero(0 + if asset == feeAsset then fee else 0)
    ensures fees == if fee == 0 then [] else [(feeAsset, fee)]
  {
    var expected := if fee == 0 then [] else [(feeAsset, fee)];
    assert fee != 0 ==> expected[1..] == [];
    LookupsDetermine(fees, expected);
  }
}
