/** Executing the programs the transfer builder emits. */
module SuiExecution {
  import opened Bytes
  import opened Wrappers
  import opened SuiProgram
  import opened SuiInput
  import opened SuiTransfer

  function SlotOf(c: CoinObject): Slot {
    Coin(c.balance, c.coinType)
  }

  /** The chain holds the gas coin and the coins to spend as the input describes them. */
  ghost predicate Holds(world: World, v: InputView) {
    && v.gasCoin.id in world && world[v.gasCoin.id] == SlotOf(v.gasCoin)
    && forall i :: 0 <= i < |v.coins| ==> v.coins[i].id in world && world[v.coins[i].id] == SlotOf(v.coins[i])
  }

  ghost predicate OneType(coins: seq<CoinObject>) {
    forall i :: 0 <= i < |coins| ==> coins[i].coinType == coins[0].coinType
  }

  /** An input a base transaction has been prepared from, describing distinct coins of one type. */
  ghost predicate Ready(world: World, v: InputView) {
    && Holds(world, v) && OneType(v.coins) && DistinctIds(v.coins)
    && (forall i :: 0 <= i < |v.coins| ==> v.coins[i].id != v.gasCoin.id)
    && v.gasBudget <= v.gasCoin.balance
    && v.gasCoin.balance + Balances(Used(v.coins)) < 0x1_0000_0000_0000_0000
  }

  /** What the program can gather: the gas coin above the budget where it is split or used, and the used coins. */
  function Available(v: InputView, ownGas: bool): int {
    (if SplitsGas(v, ownGas) || v.coins == [] then v.gasCoin.balance - v.gasBudget else 0) + Balances(Used(v.coins))
  }

  function SpentType(v: InputView): string {
    if v.coins == [] then v.gasCoin.coinType else v.coins[0].coinType
  }

  // ----- gathering

  /** Taking consecutive inputs collects their balances and leaves everything else alone. */
  lemma {:induction false} TakeInputs(st: State, from: nat, coins: seq<CoinObject>, t: string)
    requires from + |coins| <= |st.inputs|
    requires forall i :: 0 <= i < |coins| ==> st.inputs[from + i] == SlotOf(coins[i]) && coins[i].coinType == t
    ensures var r := TakeCoins(st, Inputs(from, |coins|), t);
            && r.Some? && r.value.1 == Balances(coins)
            && r.value.0 == st.(inputs := r.value.0.inputs)
            && |r.value.0.inputs| == |st.inputs|
            && forall j :: 0 <= j < |st.inputs| && !(from <= j < from + |coins|) ==> r.value.0.inputs[j] == st.inputs[j]
    decreases |coins|
  {
    var args := Inputs(from, |coins|);
    if coins == [] {
      assert args == [];
    } else {
      assert args[0] == Input(from) && args[1..] == Inputs(from + 1, |coins| - 1);
      assert Read(st, args[0]) == SlotOf(coins[0]);
      var st' := Write(st, Input(from), Gone);
      forall i | 0 <= i < |coins[1..]|
        ensures st'.inputs[from + 1 + i] == SlotOf(coins[1..][i]) && coins[1..][i].coinType == t
      {
        assert st.inputs[from + (i + 1)] == SlotOf(coins[i + 1]) && coins[i + 1].coinType == t;
      }
      TakeInputs(st', from + 1, coins[1..], t);
    }
  }

  /** The state in front of the final split: everything available sits in the primary coin. */
  ghost predicate Gathered(st: State, st': State, v: InputView, ownGas: bool, g: Spending) {
    && v.gasBudget <= v.gasCoin.balance
    && Read(st', g.primary) == Coin(Available(v, ownGas), SpentType(v))
    && st'.delivered == st.delivered && st'.staked == st.staked && st'.withdrawn == st.withdrawn && st'.kept == st.kept
    && |st'.results| == |g.program.commands|
    && |st'.inputs| == |st.inputs|
    && (forall j :: |g.program.inputs| <= j < |st.inputs| ==> st'.inputs[j] == st.inputs[j])
    && (v.coins != [] ==> st'.gas == Coin(if SplitsGas(v, ownGas) then 0 else v.gasCoin.balance - v.gasBudget, v.gasCoin.coinType))
  }

  /** A start state whose leading inputs are those the gathering commands expect. */
  ghost predicate Loaded(st: State, v: InputView, ownGas: bool) {
    var first := if SplitsGas(v, ownGas) then 1 else 0;
    && v.gasBudget <= v.gasCoin.balance
    && st.gas == Coin(v.gasCoin.balance - v.gasBudget, v.gasCoin.coinType)
    && st.results == []
    && first + |Used(v.coins)| <= |st.inputs|
    && (SplitsGas(v, ownGas) ==> st.inputs[0] == Number(v.gasCoin.balance - v.gasBudget))
    && forall i :: 0 <= i < |Used(v.coins)| ==> st.inputs[first + i] == SlotOf(Used(v.coins)[i])
  }

  lemma GatherExecutes(world: World, st: State, v: InputView, ownGas: bool)
    requires Ready(world, v) && Gather(v, ownGas).Some? && Loaded(st, v, ownGas)
    ensures var g := Gather(v, ownGas).value;
            && Execute(st, g.program.commands).Some?
            && Gathered(st, Execute(st, g.program.commands).value, v, ownGas, g)
  {
    var g := Gather(v, ownGas).value;
    if v.coins == [] {
      assert Used(v.coins) == [] && Balances([]) == 0;
    } else if SplitsGas(v, ownGas) {
      GatherWithGas(world, st, v);
    } else {
      GatherCoinsOnly(world, st, v, ownGas);
    }
  }

  lemma GatherWithGas(world: World, st: State, v: InputView)
    requires Ready(world, v) && SplitsGas(v, true) && Loaded(st, v, true)
    ensures var g := Gather(v, true).value;
            && Execute(st, g.program.commands).Some?
            && Gathered(st, Execute(st, g.program.commands).value, v, true, g)
  {
    hide Balances, Holds, DistinctIds, Step, Inputs;
    var g, used := Gather(v, true).value, Used(v.coins);
    var split := SplitCoins(GasCoin, [Input(0)]);
    var merge := MergeCoins(Input(1), [Result(0)] + Inputs(2, |used| - 1));
    assert g.program.commands == [split, merge];
    SplitGas(st, v);
    var st1 := AfterSplit(st, v);
    MergeIntoFirst(st1, v);
    var st2 := Step(st1, merge).value;
    assert [split, merge][1..] == [merge] && [merge][1..] == [];
    assert Execute(st1, [merge]) == Execute(st2, []) == Some(st2);
    assert Execute(st, [split, merge]) == Execute(st1, [merge]);
  }

  /** The gas coin above the budget is the first result. */
  function AfterSplit(st: State, v: InputView): State
    requires v.gasBudget <= v.gasCoin.balance
  {
    AddResult(st.(gas := Coin(0, v.gasCoin.coinType)), Coin(v.gasCoin.balance - v.gasBudget, v.gasCoin.coinType))
  }

  lemma SplitGas(st: State, v: InputView)
    requires SplitsGas(v, true) && Loaded(st, v, true)
    ensures Step(st, SplitCoins(GasCoin, [Input(0)])) == Some(AfterSplit(st, v))
  {
  }

  /** Merging that result and the other used coins puts all of it into the first coin. */
  lemma MergeIntoFirst(st: State, v: InputView)
    requires SplitsGas(v, true) && OneType(v.coins) && v.gasBudget <= v.gasCoin.balance
    requires |st.results| == 1 && st.results[0] == Coin(v.gasCoin.balance - v.gasBudget, v.gasCoin.coinType)
    requires v.gasCoin.balance + Balances(Used(v.coins)) < 0x1_0000_0000_0000_0000
    requires 1 + |Used(v.coins)| <= |st.inputs|
    requires forall i :: 0 <= i < |Used(v.coins)| ==> st.inputs[1 + i] == SlotOf(Used(v.coins)[i])
    ensures var used := Used(v.coins);
            var r := Step(st, MergeCoins(Input(1), [Result(0)] + Inputs(2, |used| - 1)));
            && r.Some? && |r.value.inputs| == |st.inputs| && |r.value.results| == 2
            && r.value.inputs[1] == Coin(v.gasCoin.balance - v.gasBudget + Balances(used), v.coins[0].coinType)
            && r.value.gas == st.gas && r.value.delivered == st.delivered && r.value.staked == st.staked
            && r.value.withdrawn == st.withdrawn && r.value.kept == st.kept
            && forall j :: |used| < j < |st.inputs| ==> r.value.inputs[j] == st.inputs[j]
  {
    hide Balances, Inputs;
    var used, t := Used(v.coins), v.coins[0].coinType;
    var sources := [Result(0)] + Inputs(2, |used| - 1);
    assert sources[0] == Result(0) && sources[1..] == Inputs(2, |used| - 1);
    var taken := Write(st, Result(0), Gone);
    TakeInputs(taken, 2, used[1..], t);
    HeadAndTail(used);
  }

  /** Without the gas coin the other used coins go into the first. */
  lemma MergeOthers(st: State, v: InputView, ownGas: bool)
    requires v.coins != [] && OneType(v.coins) && !SplitsGas(v, ownGas) && Loaded(st, v, ownGas) && |Used(v.coins)| > 1
    requires Balances(Used(v.coins)) < 0x1_0000_0000_0000_0000
    ensures var used := Used(v.coins);
            var r := Step(st, MergeCoins(Input(0), Inputs(1, |used| - 1)));
            && r.Some? && |r.value.inputs| == |st.inputs| && |r.value.results| == 1
            && r.value.inputs[0] == Coin(Balances(used), v.coins[0].coinType)
            && r.value.gas == st.gas && r.value.delivered == st.delivered && r.value.staked == st.staked
            && r.value.withdrawn == st.withdrawn && r.value.kept == st.kept
            && forall j :: |used| <= j < |st.inputs| ==> r.value.inputs[j] == st.inputs[j]
  {
    hide Balances, Inputs;
    var used := Used(v.coins);
    HeadAndTail(used);
    TakeInputs(st, 1, used[1..], v.coins[0].coinType);
  }

  lemma GatherCoinsOnly(world: World, st: State, v: InputView, ownGas: bool)
    requires Ready(world, v) && v.coins != [] && !SplitsGas(v, ownGas) && Loaded(st, v, ownGas)
    ensures var g := Gather(v, ownGas).value;
            && Execute(st, g.program.commands).Some?
            && Gathered(st, Execute(st, g.program.commands).value, v, ownGas, g)
  {
    hide Balances, Holds, DistinctIds, Step;
    var g, used := Gather(v, ownGas).value, Used(v.coins);
    if |used| == 1 {
      assert g.program.commands == [] && used[1..] == [];
      HeadAndTail(used);
      NoBalance(used[1..]);
    } else {
      var merge := MergeCoins(Input(0), Inputs(1, |used| - 1));
      assert g.program.commands == [merge] by {
        assert [] + Inputs(1, |used| - 1) == Inputs(1, |used| - 1);
      }
      MergeOthers(st, v, ownGas);
      assert Execute(st, [merge]) == Execute(Step(st, merge).value, []);
    }
  }

  lemma HeadAndTail(coins: seq<CoinObject>)
    requires coins != []
    ensures Balances(coins) == coins[0].balance + Balances(coins[1..])
  {
  }

  lemma NoBalance(coins: seq<CoinObject>)
    requires coins == []
    ensures Balances(coins) == 0
  {
  }

  // ----- the whole transfer

  /** The last two commands succeed exactly when the primary coin covers the amount. */
  lemma FinishTransfer(st: State, primary: Argument, n: nat, k: nat, amount: u64, to: string, balance: nat, t: string)
    requires Read(st, primary) == Coin(balance, t) && k == |st.results|
    requires |st.inputs| == n + 2 && st.inputs[n] == Number(amount) && st.inputs[n + 1] == Address(to)
    requires primary.GasCoin? || (primary.Input? && primary.index < n)
    ensures var r := Execute(st, [SplitCoins(primary, [Input(n)]), TransferObjects([Result(k)], Input(n + 1))]);
            && (r.Some? <==> amount <= balance)
            && (r.Some? ==>
                  && Read(r.value, primary) == Coin(balance - amount, t)
                  && r.value.delivered == st.delivered + [Delivery(to, amount, t)]
                  && r.value.staked == st.staked && r.value.withdrawn == st.withdrawn && r.value.kept == st.kept
                  && (!primary.GasCoin? ==> r.value.gas == st.gas))
  {
    var split, send := SplitCoins(primary, [Input(n)]), TransferObjects([Result(k)], Input(n + 1));
    assert [split, send][1..] == [send] && [send][1..] == [];
    if amount <= balance {
      var st1 := AddResult(Write(st, primary, Coin(balance - amount, t)), Coin(amount, t));
      assert Step(st, split) == Some(st1);
      assert Read(st1, Result(k)) == Coin(amount, t) && Read(st1, Input(n + 1)) == Address(to);
      var taken := Write(st1, Result(k), Gone);
      var st2 := taken.(delivered := taken.delivered + [Delivery(to, amount, t)]);
      assert [Result(k)][1..] == [];
      assert Deliver(st2, [], to) == Some(st2);
      assert Deliver(st1, [Result(k)], to) == Some(st2);
      var st3 := AddResult(st2, Gone);
      assert Step(st1, send) == Some(st3);
      assert Execute(st1, [send]) == Execute(st3, []) == Some(st3);
      assert Execute(st, [split, send]) == Execute(st1, [send]);
    }
  }

  /** The start state of a transfer: what Gather expects in front, then the amount and the address. */
  lemma StartsLoaded(world: World, v: InputView, ownGas: bool, amount: u64, to: string)
    requires Ready(world, v) && Gather(v, ownGas).Some?
    ensures var g := Gather(v, ownGas).value;
            var n := |g.program.inputs|;
            var st := Start(world, v.gasCoin.id, v.gasBudget, TransferProgram(g, amount, to).inputs);
            && st.Some? && Loaded(st.value, v, ownGas)
            && |st.value.inputs| == n + 2 && st.value.inputs[n] == Number(amount) && st.value.inputs[n + 1] == Address(to)
            && st.value.delivered == [] && st.value.staked == [] && st.value.withdrawn == [] && st.value.kept == []
  {
    hide Balances, Gather, Ready, Loaded, NamedOnce, Loadable, Start;
    var g := Gather(v, ownGas).value;
    InputsLoad(world, v, ownGas, amount, to);
    StartLoads(world, v, ownGas, g, TransferProgram(g, amount, to).inputs);
  }

  /** Any program that gathers first starts as Gather expects, with its further inputs as given. */
  lemma StartLoads(world: World, v: InputView, ownGas: bool, g: Spending, inputs: seq<CallArg>)
    requires Ready(world, v) && Gather(v, ownGas) == Some(g)
    requires |g.program.inputs| <= |inputs| && inputs[..|g.program.inputs|] == g.program.inputs
    requires NamedOnce(v.gasCoin.id, inputs) && Loadable(world, inputs)
    ensures var st := Start(world, v.gasCoin.id, v.gasBudget, inputs);
            && st.Some? && Loaded(st.value, v, ownGas) && |st.value.inputs| == |inputs|
            && (forall i :: 0 <= i < |inputs| ==> Some(st.value.inputs[i]) == Load(world, inputs[i]))
            && st.value.delivered == [] && st.value.staked == [] && st.value.withdrawn == [] && st.value.kept == []
  {
    hide Balances, NamedOnce, Gather, Loaded, Ready, Loadable, Start, Load;
    StartHolds(world, v, inputs);
    LeadingLoaded(world, v, ownGas, g, inputs, Start(world, v.gasCoin.id, v.gasBudget, inputs).value);
  }

  lemma StartHolds(world: World, v: InputView, inputs: seq<CallArg>)
    requires Ready(world, v) && NamedOnce(v.gasCoin.id, inputs) && Loadable(world, inputs)
    ensures var st := Start(world, v.gasCoin.id, v.gasBudget, inputs);
            && st.Some? && |st.value.inputs| == |inputs| && v.gasBudget <= v.gasCoin.balance
            && st.value.gas == Coin(v.gasCoin.balance - v.gasBudget, v.gasCoin.coinType) && st.value.results == []
            && (forall i :: 0 <= i < |inputs| ==> Some(st.value.inputs[i]) == Load(world, inputs[i]))
            && st.value.delivered == [] && st.value.staked == [] && st.value.withdrawn == [] && st.value.kept == []
  {
    hide Balances, NamedOnce, Load, OneType, DistinctIds;
  }

  lemma LeadingLoaded(world: World, v: InputView, ownGas: bool, g: Spending, inputs: seq<CallArg>, st: State)
    requires Ready(world, v) && Gather(v, ownGas) == Some(g)
    requires |g.program.inputs| <= |inputs| && inputs[..|g.program.inputs|] == g.program.inputs
    requires |st.inputs| == |inputs| && v.gasBudget <= v.gasCoin.balance
    requires st.gas == Coin(v.gasCoin.balance - v.gasBudget, v.gasCoin.coinType) && st.results == []
    requires forall i :: 0 <= i < |inputs| ==> Some(st.inputs[i]) == Load(world, inputs[i])
    ensures Loaded(st, v, ownGas)
  {
    hide Balances, Gather, OneType, DistinctIds, Used;
    var first := if SplitsGas(v, ownGas) then 1 else 0;
    GatheredInputs(v, ownGas, g);
    forall i | 0 <= i < |Used(v.coins)|
      ensures st.inputs[first + i] == SlotOf(Used(v.coins)[i])
    {
      assert Used(v.coins)[i] == v.coins[i];
      assert inputs[first + i] == g.program.inputs[first + i];
      assert Load(world, inputs[first + i]) == Some(world[v.coins[i].id]);
    }
    if SplitsGas(v, ownGas) {
      assert inputs[0] == g.program.inputs[0];
    }
  }

  lemma GatheredInputs(v: InputView, ownGas: bool, g: Spending)
    requires Gather(v, ownGas) == Some(g) && v.gasBudget <= v.gasCoin.balance
    ensures var first := if SplitsGas(v, ownGas) then 1 else 0;
            && |g.program.inputs| == first + |Used(v.coins)|
            && (SplitsGas(v, ownGas) ==> g.program.inputs[0] == PureU64(v.gasCoin.balance - v.gasBudget))
            && forall i :: 0 <= i < |Used(v.coins)| ==> g.program.inputs[first + i] == OwnedObject(v.coins[i].id)
  {
  }

  /** The owned objects of the program are the used coins, at their places. */
  lemma InputsOwned(v: InputView, ownGas: bool, amount: u64, to: string)
    requires Gather(v, ownGas).Some?
    ensures var inputs := TransferProgram(Gather(v, ownGas).value, amount, to).inputs;
            var first := if SplitsGas(v, ownGas) then 1 else 0;
            && |inputs| == first + |Used(v.coins)| + 2
            && (forall i :: 0 <= i < |inputs| && inputs[i].OwnedObject? ==>
                  first <= i < first + |Used(v.coins)| && inputs[i].id == v.coins[i - first].id)
  {
  }

  lemma InputsLoad(world: World, v: InputView, ownGas: bool, amount: u64, to: string)
    requires Ready(world, v) && Gather(v, ownGas).Some?
    ensures var inputs := TransferProgram(Gather(v, ownGas).value, amount, to).inputs;
            NamedOnce(v.gasCoin.id, inputs) && Loadable(world, inputs)
  {
    hide Balances, Gather;
    InputsOwned(v, ownGas, amount, to);
    var inputs := TransferProgram(Gather(v, ownGas).value, amount, to).inputs;
    forall i | 0 <= i < |inputs|
      ensures Load(world, inputs[i]).Some?
    {
      if inputs[i].OwnedObject? {
        var first := if SplitsGas(v, ownGas) then 1 else 0;
        assert v.coins[i - first].id in world;
      }
    }
  }

  /**
   * Exactly when an emitted transfer executes, for any number of coins, native or token, own or sponsored
   * gas: it delivers precisely the amount, leaves the rest in the primary coin, and never touches the budget.
   */
  lemma TransferExecutes(world: World, v: InputView, ownGas: bool, amount: u64, to: string)
    requires Ready(world, v) && Gather(v, ownGas).Some?
    ensures var g := Gather(v, ownGas).value;
            var r := Run(world, v.gasCoin.id, v.gasBudget, TransferProgram(g, amount, to));
            && (r.Some? <==> amount <= Available(v, ownGas))
            && (r.Some? ==>
                  && Read(r.value, g.primary) == Coin(Available(v, ownGas) - amount, SpentType(v))
                  && r.value.delivered == [Delivery(to, amount, SpentType(v))]
                  && r.value.staked == [] && r.value.withdrawn == [] && r.value.kept == []
                  && (v.coins != [] ==> r.value.gas == Coin(if SplitsGas(v, ownGas) then 0 else v.gasCoin.balance - v.gasBudget,
                                                             v.gasCoin.coinType)))
  {
    hide Available, Gather, Step, Start, Loaded, Ready;
    var g := Gather(v, ownGas).value;
    var n, k := |g.program.inputs|, |g.program.commands|;
    StartsLoaded(world, v, ownGas, amount, to);
    var st := Start(world, v.gasCoin.id, v.gasBudget, TransferProgram(g, amount, to).inputs).value;
    GatherExecutes(world, st, v, ownGas);
    var st1 := Execute(st, g.program.commands).value;
    var last := [SplitCoins(g.primary, [Input(n)]), TransferObjects([Result(k)], Input(n + 1))];
    ExecuteConcat(st, g.program.commands, last);
    PrimaryPlace(v, ownGas);
    FinishTransfer(st1, g.primary, n, k, amount, to, Available(v, ownGas), SpentType(v));
  }

  lemma PrimaryPlace(v: InputView, ownGas: bool)
    requires Gather(v, ownGas).Some?
    ensures var g := Gather(v, ownGas).value;
            if v.coins == [] then g.primary == GasCoin else g.primary.Input? && g.primary.index < |g.program.inputs|
  {
  }

  // ----- from the caller's input to the effects

  /** A caller's input: distinct coins of one type, described as the chain holds them. */
  ghost predicate Describes(world: World, v: InputView) {
    && DistinctIds(v.coins) && OneType(Excluded(v).coins)
    && Holds(world, v)
    && v.gasCoin.balance + Balances(Excluded(v).coins) < 0x1_0000_0000_0000_0000
  }

  lemma PreparedReady(world: World, v: InputView, amount: u64)
    requires Describes(world, v) && Affordable(Excluded(v), amount)
    ensures Ready(world, Prepared(v, amount))
  {
    hide Budget, Balances;
    ExcludeRemoves(v.coins, v.gasCoin.id);
    var x := Excluded(v);
    forall i | 0 <= i < |x.coins|
      ensures x.coins[i].id in world && world[x.coins[i].id] == SlotOf(x.coins[i]) && x.coins[i].id != v.gasCoin.id
    {
      assert x.coins[i] in x.coins;
    }
    UsedAtMost(x.coins);
    BudgetBounds(x, amount);
  }

  lemma BudgetBounds(v: InputView, amount: u64)
    requires Affordable(v, amount)
    ensures Budget(v, amount) <= v.gasBudget && Budget(v, amount) <= v.gasCoin.balance
    ensures Native(v) ==> Budget(v, amount) <= Uint64(Total(v)) - amount
    ensures || Budget(v, amount) == v.gasBudget || Budget(v, amount) == v.gasCoin.balance
            || (Native(v) && Budget(v, amount) == Uint64(Total(v)) - amount)
  {
  }

  /** Of coins of several types the first says whether a transfer is native, and the last whether the gas coin counts. */
  lemma MixedCoins(v: InputView, own: CoinObject, token: CoinObject)
    requires own.coinType == v.gasCoin.coinType != token.coinType && token.coinType != ""
    ensures Native(v.(coins := [own, token])) && Total(v.(coins := [own, token])) == own.balance + token.balance
    ensures !Native(v.(coins := [token, own]))
    ensures Total(v.(coins := [token, own])) == own.balance + token.balance + v.gasCoin.balance
  {
    var first, second := [own, token], [token, own];
    assert Balances(first) == own.balance + Balances(first[1..]) && Balances(second) == token.balance + Balances(second[1..]);
    assert Balances([token]) == token.balance + Balances([]) && Balances([own]) == own.balance + Balances([]);
  }

  lemma UsedAtMost(coins: seq<CoinObject>)
    ensures Balances(Used(coins)) <= Balances(coins)
  {
    PrefixBalances(coins, |Used(coins)|);
  }

  lemma {:induction false} PrefixBalances(coins: seq<CoinObject>, n: nat)
    requires n <= |coins|
    ensures Balances(coins[..n]) <= Balances(coins)
  {
    if n > 0 {
      PrefixBalances(coins[1..], n - 1);
      assert coins[..n][1..] == coins[1..][..n - 1];
    }
  }

  /**
   * What becomes of a transfer, for any fee payer, native or token, and any number of coins: it is built
   * exactly when the balance check passes and there is something to split, and executes exactly when what it
   * gathers covers the amount. It then delivers exactly the amount.
   */
  lemma TransferOutcome(world: World, v: InputView, feePayer: string, from: string, to: string, amount: u64)
    requires Describes(world, v)
    ensures var r, own := Transfer(v, feePayer, from, to, amount), feePayer == from;
            && (r.Ok? <==> Affordable(Excluded(v), amount) && (own || Excluded(v).coins != []))
            && (r.Err? ==> r.error == if Affordable(Excluded(v), amount) then NoCoins else NotEnoughFunds)
            && (r.Ok? ==>
                  var p, done := Prepared(v, amount), Run(world, r.value.gasId, r.value.budget, r.value.program);
                  && (done.Some? <==> amount <= Available(p, own))
                  && (done.Some? ==> done.value.delivered == [Delivery(to, amount, SpentType(p))]))
  {
    hide Available, Run, TransferProgram, Describes, Affordable;
    var r, own := Transfer(v, feePayer, from, to, amount), feePayer == from;
    if r.Ok? {
      PreparedReady(world, v, amount);
      TransferExecutes(world, Prepared(v, amount), own, amount, to);
    }
  }

  /**
   * The amount asked for is any integer, of which the builder keeps the low 64 bits of the absolute value: what
   * is delivered is the amount exactly when it is neither negative nor too large.
   */
  lemma RequestedIsDelivered(world: World, v: InputView, feePayer: string, from: string, to: string, amount: int)
    requires Describes(world, v)
    ensures var r := Transfer(v, feePayer, from, to, Uint64(amount));
            r.Ok? ==>
              var done := Run(world, r.value.gasId, r.value.budget, r.value.program);
              done.Some? ==> && |done.value.delivered| == 1
                             && (done.value.delivered[0].balance == amount <==> 0 <= amount < 0x1_0000_0000_0000_0000)
  {
    hide Run, Transfer, Describes;
    TransferOutcome(world, v, feePayer, from, to, Uint64(amount));
  }

  /** From a gas coin of 100, -50 are asked for and 50 delivered. */
  lemma NegativeAmountIsDelivered(from: string, to: string, sui: string)
    ensures var v, world := InputView(5, 1, CoinObject("gas", 1, "", 100, sui), [], 0), map["gas" := Coin(100, sui)];
            var r := Transfer(v, from, from, to, Uint64(-50));
            && Describes(world, v) && r.Ok?
            && var done := Run(world, r.value.gasId, r.value.budget, r.value.program);
               done.Some? && done.value.delivered == [Delivery(to, 50, sui)]
  {
    hide Run, Transfer;
    var v, world := InputView(5, 1, CoinObject("gas", 1, "", 100, sui), [], 0), map["gas" := Coin(100, sui)];
    assert Uint64(-50) == 50;
    NativeTransferDelivers(world, v, from, to, 50);
  }

  /**
   * A native transfer paying its own gas executes exactly when the coins beyond the merge cut-off, which the
   * balance check counts but the program does not gather, hold no more than the transfer leaves over.
   */
  lemma UngatheredCoins(v: InputView, amount: u64)
    requires v.gasCoin.balance + Balances(Excluded(v).coins) < 0x1_0000_0000_0000_0000
    requires OneType(Excluded(v).coins) && Native(Excluded(v)) && Affordable(Excluded(v), amount)
    ensures var x, p := Excluded(v), Prepared(v, amount);
            var total := v.gasCoin.balance + Balances(x.coins);
            amount <= Available(p, true) <==>
            Balances(x.coins) - Balances(Used(x.coins)) <= total - amount - p.gasBudget
  {
    hide Balances, Budget;
    if Excluded(v).coins == [] {
      NoBalance(Excluded(v).coins);
    }
  }

  /** Otherwise it aborts: here 53 coins of 10 and a gas coin of 100 are asked for 625, but 52 are gathered. */
  lemma ManyCoinsMayAbort(from: string, to: string, sui: string)
    requires sui != ""
    ensures var v, world := ManyCoins(sui), ManyCoinsWorld(sui);
            var r := Transfer(v, from, from, to, 625);
            Describes(world, v) && r.Ok? && Run(world, r.value.gasId, r.value.budget, r.value.program).None?
  {
    var v, world := ManyCoins(sui), ManyCoinsWorld(sui);
    ManyCoinsDescribed(sui);
    hide Describes, Transfer, Run, Available, ManyCoins, ManyCoinsWorld;
    TransferOutcome(world, v, from, from, to, 625);
    ManyCoinsGathered(sui);
  }

  function TenCoins(n: nat, sui: string): (coins: seq<CoinObject>)
    ensures |coins| == n
  {
    seq(n, i requires 0 <= i < n => CoinObject(NthId(i), 1, "", 10, sui))
  }

  function NthId(n: nat): (id: string)
    ensures |id| == n
  {
    seq(n, _ => 'a')
  }

  function ManyCoins(sui: string): InputView {
    InputView(5, 1, CoinObject("gas", 1, "", 100, sui), TenCoins(53, sui), 0)
  }

  function ManyCoinsWorld(sui: string): World {
    map["gas" := Coin(100, sui)] + map i: int | 0 <= i < 53 :: NthId(i) := Coin(10, sui)
  }

  lemma {:induction false} TenCoinsBalance(n: nat, sui: string)
    ensures Balances(TenCoins(n, sui)) == 10 * n
  {
    if n > 0 {
      TenCoinsBalance(n - 1, sui);
      BalancesExtend(TenCoins(n, sui), n - 1);
      assert TenCoins(n, sui)[..n - 1] == TenCoins(n - 1, sui) && TenCoins(n, sui)[..n] == TenCoins(n, sui);
    }
  }

  lemma {:induction false} NothingExcluded(coins: seq<CoinObject>, id: string)
    requires forall i :: 0 <= i < |coins| ==> coins[i].id != id
    ensures Exclude(coins, id) == coins
  {
    if coins != [] {
      NothingExcluded(coins[1..], id);
      assert coins == [coins[0]] + coins[1..];
    }
  }

  lemma GasIdDiffers(n: nat)
    ensures NthId(n) != "gas"
  {
    if n == 3 {
      assert NthId(n)[0] == 'a';
    }
  }

  lemma ManyCoinsExcluded(sui: string)
    ensures Excluded(ManyCoins(sui)) == ManyCoins(sui)
    ensures forall i :: 0 <= i < 53 ==> NthId(i) != "gas"
  {
    forall i: nat | i < 53
      ensures NthId(i) != "gas"
    {
      GasIdDiffers(i);
    }
    NothingExcluded(TenCoins(53, sui), "gas");
  }

  lemma ManyCoinsDescribed(sui: string)
    ensures Describes(ManyCoinsWorld(sui), ManyCoins(sui))
  {
    hide Exclude, Balances;
    ManyCoinsExcluded(sui);
    TenCoinsBalance(53, sui);
    forall i: nat, j: nat | i < j < 53
      ensures NthId(i) != NthId(j)
    {
      assert |NthId(i)| != |NthId(j)|;
    }
  }

  lemma ManyCoinsGathered(sui: string)
    requires sui != ""
    ensures Affordable(Excluded(ManyCoins(sui)), 625) && Available(Prepared(ManyCoins(sui), 625), true) == 615
  {
    hide Exclude, Balances;
    ManyCoinsExcluded(sui);
    TenCoinsBalance(53, sui);
    TenCoinsBalance(52, sui);
    assert Used(TenCoins(53, sui)) == TenCoins(52, sui);
  }

  lemma NativeTotal(x: InputView)
    requires OneType(x.coins) && Native(x) && x.gasCoin.balance + Balances(x.coins) < 0x1_0000_0000_0000_0000
    ensures Total(x) == x.gasCoin.balance + Balances(x.coins) == Uint64(Total(x))
  {
    hide Balances;
    if x.coins != [] {
      assert x.coins[|x.coins| - 1].coinType == x.coins[0].coinType;
    }
  }

  /**
   * A native transfer with the sender's own gas coin and no more coins than the merge cut-off: whenever the
   * balance covers the amount, the transfer is built, executes without a failing split, delivers exactly the
   * amount, and leaves the gas coin worth the withheld budget plus the balance stated.
   */
  lemma NativeTransferDelivers(world: World, v: InputView, from: string, to: string, amount: u64)
    requires Describes(world, v) && Native(Excluded(v))
    requires |Excluded(v).coins| <= MAX_COIN_OBJECTS + 2
    requires amount <= v.gasCoin.balance + Balances(Excluded(v).coins)
    ensures var r := Transfer(v, from, from, to, amount);
            && r.Ok?
            && var tx := r.value;
               var done := Run(world, tx.gasId, tx.budget, tx.program);
               && done.Some?
               && done.value.delivered == [Delivery(to, amount, v.gasCoin.coinType)]
               && done.value.gas == Coin(if Excluded(v).coins != [] then 0 else v.gasCoin.balance - tx.budget - amount,
                                         v.gasCoin.coinType)
               && tx.budget <= v.gasBudget && tx.budget <= v.gasCoin.balance
               && tx.budget + amount <= v.gasCoin.balance + Balances(Excluded(v).coins)
  {
    hide Balances, Run, TransferProgram, Ready;
    var x, p := Excluded(v), Prepared(v, amount);
    NativeTotal(x);
    NoBalance([]);
    PreparedReady(world, v, amount);
    BudgetBounds(x, amount);
    TransferExecutes(world, p, true, amount, to);
  }

  /**
   * With another fee payer the balance check still counts the gas coin, so a transfer can be built that does
   * not execute: here 50 is asked of a single coin of 10.
   */
  lemma SponsoredTransferMayAbort(from: string, to: string, feePayer: string, sui: string)
    requires feePayer != from
    ensures var v := InputView(5, 1, CoinObject("gas", 1, "", 100, sui), [CoinObject("coin", 1, "", 10, sui)], 0);
            var r := Transfer(v, feePayer, from, to, 50);
            var world := map["gas" := Coin(100, sui), "coin" := Coin(10, sui)];
            Describes(world, v) && r.Ok? && Run(world, r.value.gasId, r.value.budget, r.value.program).None?
  {
    var v := InputView(5, 1, CoinObject("gas", 1, "", 100, sui), [CoinObject("coin", 1, "", 10, sui)], 0);
    var world := map["gas" := Coin(100, sui), "coin" := Coin(10, sui)];
    var coins := [CoinObject("coin", 1, "", 10, sui)];
    assert coins[0].id != "gas";
    assert Exclude(coins, "gas") == coins;
    assert Balances(coins) == 10 + Balances([]) == 10;
    PreparedReady(world, v, 50);
    TransferExecutes(world, Prepared(v, 50), false, 50, to);
  }
}
