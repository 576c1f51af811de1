/** The Sui transfer builder, and what the programs it emits do when executed. */
module SuiTransfer {
  import opened Bytes
  import opened Numbers
  import opened Wrappers
  import opened SuiProgram
  import opened SuiInput

  const MAX_COIN_OBJECTS := 50

  datatype SuiError = NoPublicKey | NotEnoughFunds | NoCoins

  /** Go's conversion to uint16. */
  function U16(n: nat): nat {
    n % 0x1_0000
  }

  // ----- the gas budget

  /** What the gas coin may pay: never more than the budget asked for, the gas coin, or what the transfer leaves. */
  function Budget(v: InputView, amount: u64): u64
    requires Native(v) ==> amount <= Uint64(Total(v))
  {
    var remainder := if Native(v) then Uint64(Total(v)) - amount else v.gasCoin.balance;
    Min(Min(v.gasBudget, v.gasCoin.balance), remainder)
  }

  function Excluded(v: InputView): InputView {
    v.(coins := Exclude(v.coins, v.gasCoin.id))
  }

  predicate Affordable(v: InputView, amount: u64) {
    Native(v) ==> amount <= Uint64(Total(v))
  }

  /** The input as the base transaction leaves it; an error keeps the budget but has already dropped the gas coin. */
  function Prepared(v: InputView, amount: u64): InputView {
    var x := Excluded(v);
    if Affordable(x, amount) then x.(gasBudget := Budget(x, amount)) else x
  }

  /** Computes the budget and rewrites the input's coins and budget in place. */
  method NewTransactionBase(input: TxInput, amount: int) returns (ok: bool)
    modifies input`gasBudget, input`coins
    ensures input.View() == Prepared(old(input.View()), Uint64(amount))
    ensures ok <==> Affordable(Excluded(old(input.View())), Uint64(amount))
  {
    input.ExcludeGasCoin();
    var normalBudget := input.gasBudget;
    var gasCoinBalance := input.gasCoin.balance;
    var totalRemainder := gasCoinBalance;
    if input.IsNativeTransfer() {
      var total := input.TotalBalance();
      if Uint64(total) < Uint64(amount) {
        return false;
      }
      totalRemainder := Uint64(total) - Uint64(amount);
    }
    var budget := normalBudget;
    if gasCoinBalance < budget {
      budget := gasCoinBalance;
    }
    if totalRemainder < budget {
      budget := totalRemainder;
    }
    input.gasBudget := budget;
    return true;
  }

  // ----- gas split and merge

  /** The coins that fit under the merge cut-off: the first and at most 51 more. */
  function Used(coins: seq<CoinObject>): (u: seq<CoinObject>)
    ensures |u| <= |coins| && u == coins[..|u|]
    ensures |u| == if |coins| <= MAX_COIN_OBJECTS + 2 then |coins| else MAX_COIN_OBJECTS + 2
  {
    if |coins| <= MAX_COIN_OBJECTS + 2 then coins else coins[..MAX_COIN_OBJECTS + 2]
  }

  const CoinId: CoinObject -> string := (c: CoinObject) => c.id

  function Inputs(from: nat, n: nat): (a: seq<Argument>)
    ensures |a| == n
  {
    seq(n, i requires 0 <= i < n => Input(from + i))
  }

  datatype Spending = Spending(primary: Argument, program: Program)

  /** Whether the gas coin is split, which puts one input and one command in front. */
  predicate SplitsGas(v: InputView, ownGas: bool) {
    ownGas && Native(v) && v.coins != []
  }

  /** The commands that gather everything to spend in one coin, and where that coin is. */
  function Gather(v: InputView, ownGas: bool): Option<Spending> {
    if v.coins == [] then (if ownGas then Some(Spending(GasCoin, Program([], []))) else None)
    else
      var split := SplitsGas(v, ownGas);
      var first := if split then 1 else 0;
      var used := Used(v.coins);
      var sources := (if split then [Result(0)] else []) + Inputs(first + 1, |used| - 1);
      var remainder := (v.gasCoin.balance - v.gasBudget) % 0x1_0000_0000_0000_0000;
      Some(Spending(
        Input(first),
        Program(
          (if split then [PureU64(remainder)] else []) + OwnedObjects(used, CoinId),
          (if split then [SplitCoins(GasCoin, [Input(0)])] else [])
          + (if sources == [] then [] else [MergeCoins(Input(first), sources)]))))
  }

  /** The loop over the coins after the first, up to the cut-off. */
  method AppendCoins(coins: seq<CoinObject>, cmdInputs: seq<CallArg>, mergeInputs: seq<Argument>)
    returns (cmdInputs': seq<CallArg>, mergeInputs': seq<Argument>)
    requires coins != [] && |cmdInputs| <= 2
    ensures cmdInputs' == cmdInputs + OwnedObjects(Used(coins)[1..], CoinId)
    ensures mergeInputs' == mergeInputs + Inputs(|cmdInputs|, |Used(coins)| - 1)
  {
    cmdInputs', mergeInputs' := cmdInputs, mergeInputs;
    var rest := coins[1..];
    var i := 0;
    while i < |rest| && i <= MAX_COIN_OBJECTS
      invariant 0 <= i <= |rest| && i <= MAX_COIN_OBJECTS + 1
      invariant mergeInputs' == mergeInputs + Inputs(|cmdInputs|, i)
      invariant cmdInputs' == cmdInputs + OwnedObjects(rest[..i], CoinId)
    {
      mergeInputs' := mergeInputs' + [Input(U16(|cmdInputs'|))];
      cmdInputs' := cmdInputs' + [OwnedObject(rest[i].id)];
      i := i + 1;
    }
    assert rest[..i] == Used(coins)[1..];
  }

  method PrepareGasSplitAndMergeCommands(feePayer: string, from: string, input: TxInput) returns (r: Option<Spending>)
    ensures r == Gather(input.View(), feePayer == from)
  {
    var v := input.View();
    var cmdInputs: seq<CallArg> := [];
    var commands: seq<Command> := [];
    var mergeInputs: seq<Argument> := [];
    if feePayer == from && Native(v) && |v.coins| > 0 {
      var remainder := (v.gasCoin.balance - v.gasBudget) % 0x1_0000_0000_0000_0000;
      cmdInputs := cmdInputs + [PureU64(remainder)];
      commands := commands + [SplitCoins(GasCoin, [Input(U16(0))])];
      mergeInputs := mergeInputs + [Result(U16(|commands| - 1))];
    }
    if |v.coins| > 0 {
      var primary := Input(U16(|cmdInputs|));
      cmdInputs := cmdInputs + [OwnedObject(v.coins[0].id)];
      ghost var before := cmdInputs;
      cmdInputs, mergeInputs := AppendCoins(v.coins, cmdInputs, mergeInputs);
      var used := Used(v.coins);
      assert OwnedObjects(used, CoinId) == [OwnedObject(used[0].id)] + OwnedObjects(used[1..], CoinId);
      if |mergeInputs| > 0 {
        commands := commands + [MergeCoins(primary, mergeInputs)];
      }
      ghost var expected := Gather(v, feePayer == from).value;
      ghost var split := SplitsGas(v, feePayer == from);
      assert cmdInputs == expected.program.inputs;
      assert mergeInputs == (if split then [Result(0)] else []) + Inputs(if split then 2 else 1, |used| - 1);
      assert commands + [] == commands;
      assert commands == expected.program.commands;
      return Some(Spending(primary, Program(cmdInputs, commands)));
    }
    if feePayer == from {
      return Some(Spending(GasCoin, Program(cmdInputs, commands)));
    }
    return None;
  }

  // ----- the transfer

  datatype Tx = Tx(sender: string, feePayer: string, gasId: string, gasPrice: u64, budget: u64, epoch: u64, program: Program)

  function TransferProgram(g: Spending, amount: u64, to: string): Program {
    var n, k := |g.program.inputs|, |g.program.commands|;
    Program(
      g.program.inputs + [PureU64(amount), PureAddress(to)],
      g.program.commands + [SplitCoins(g.primary, [Input(n)]), TransferObjects([Result(k)], Input(n + 1))])
  }

  /** What building a transfer returns, as a function of the input it is given. */
  function Transfer(v: InputView, feePayer: string, from: string, to: string, amount: u64): Wrappers.Result<Tx, SuiError> {
    if !Affordable(Excluded(v), amount) then Err(NotEnoughFunds)
    else
      var p := Prepared(v, amount);
      match Gather(p, feePayer == from)
      case None => Err(NoCoins)
      case Some(g) =>
        Ok(Tx(from, feePayer, p.gasCoin.id, p.gasPrice, p.gasBudget, p.currentEpoch, TransferProgram(g, amount, to)))
  }

  method NewTransfer(feePayer: string, fromPubKey: seq<int>, from: string, to: string, amount: int, input: TxInput)
    returns (r: Wrappers.Result<Tx, SuiError>)
    modifies input`gasBudget, input`coins
    ensures |fromPubKey| == 0 ==> r == Err(NoPublicKey) && input.View() == old(input.View())
    ensures |fromPubKey| > 0 ==>
              && r == Transfer(old(input.View()), feePayer, from, to, Uint64(amount))
              && input.View() == Prepared(old(input.View()), Uint64(amount))
    ensures r.Ok? ==>
              && r.value.sender == from && r.value.feePayer == feePayer && r.value.gasId == old(input.gasCoin.id)
              && r.value.gasPrice == old(input.gasPrice) && r.value.epoch == old(input.currentEpoch)
              && r.value.budget == input.gasBudget
  {
    hide Gather, Prepared, Excluded, Affordable, Uint64;
    if |fromPubKey| == 0 {
      return Err(NoPublicKey);
    }
    var ok := NewTransactionBase(input, amount);
    if !ok {
      return Err(NotEnoughFunds);
    }
    var g := PrepareGasSplitAndMergeCommands(feePayer, from, input);
    if g.None? {
      return Err(NoCoins);
    }
    var Spending(primary, Program(cmdInputs, commands)) := g.value;
    GatherIsShort(input.View(), feePayer == from);
    commands := commands + [SplitCoins(primary, [Input(U16(|cmdInputs|))])];
    cmdInputs := cmdInputs + [PureU64(Uint64(amount))];
    commands := commands + [TransferObjects([Result(U16(|commands| - 1))], Input(U16(|cmdInputs|)))];
    cmdInputs := cmdInputs + [PureAddress(to)];
    ghost var expected := TransferProgram(g.value, Uint64(amount), to);
    assert cmdInputs == expected.inputs && commands == expected.commands;
    return Ok(Tx(from, feePayer, input.gasCoin.id, input.gasPrice, input.gasBudget, input.currentEpoch,
                 Program(cmdInputs, commands)));
  }

  lemma GatherIsShort(v: InputView, ownGas: bool)
    requires Gather(v, ownGas).Some?
    ensures |Gather(v, ownGas).value.program.inputs| <= MAX_COIN_OBJECTS + 3
    ensures |Gather(v, ownGas).value.program.commands| <= 2
  {
  }

  /** Preparing an input twice changes nothing the second time. */
  lemma PreparedTwice(v: InputView, amount: u64)
    requires DistinctIds(v.coins)
    ensures Affordable(Excluded(Prepared(v, amount)), amount) == Affordable(Excluded(v), amount)
    ensures Prepared(Prepared(v, amount), amount) == Prepared(v, amount)
  {
    ExcludeRemoves(v.coins, v.gasCoin.id);
    var x, p := Excluded(v), Prepared(v, amount);
    assert Excluded(p).coins == x.coins && p.gasCoin == x.gasCoin;
    assert Native(Excluded(p)) == Native(x) && Total(Excluded(p)) == Total(x);
  }

  /** Building again from the input a build has left behind gives the same transaction and changes nothing. */
  lemma RebuildIsSame(v: InputView, feePayer: string, from: string, to: string, amount: u64)
    requires DistinctIds(v.coins)
    ensures Prepared(Prepared(v, amount), amount) == Prepared(v, amount)
    ensures Transfer(Prepared(v, amount), feePayer, from, to, amount) == Transfer(v, feePayer, from, to, amount)
  {
    hide Prepared, Excluded, Affordable, Gather;
    PreparedTwice(v, amount);
  }

  // ----- positional references

  lemma GatherWellFormed(v: InputView, ownGas: bool)
    requires Gather(v, ownGas).Some?
    ensures WellFormed(Gather(v, ownGas).value.program)
    ensures ArgumentInRange(Gather(v, ownGas).value.primary, |Gather(v, ownGas).value.program.inputs|, 0)
  {
  }

  /** Appending inputs and well-placed commands keeps a program well formed. */
  lemma ExtendWellFormed(p: Program, inputs: seq<CallArg>, commands: seq<Command>)
    requires WellFormed(p)
    requires forall j, k :: 0 <= j < |commands| && 0 <= k < |Arguments(commands[j])| ==>
               ArgumentInRange(Arguments(commands[j])[k], |p.inputs| + |inputs|, |p.commands| + j)
    ensures WellFormed(Program(p.inputs + inputs, p.commands + commands))
  {
    hide Arguments;
    var q := Program(p.inputs + inputs, p.commands + commands);
    forall j, k | 0 <= j < |q.commands| && 0 <= k < |Arguments(q.commands[j])|
      ensures ArgumentInRange(Arguments(q.commands[j])[k], |q.inputs|, j)
    {
      if j < |p.commands| {
        assert ArgumentInRange(Arguments(p.commands[j])[k], |p.inputs|, j);
      } else {
        assert q.commands[j] == commands[j - |p.commands|];
      }
    }
  }

  lemma TransferWellFormed(v: InputView, feePayer: string, from: string, to: string, amount: u64)
    requires Transfer(v, feePayer, from, to, amount).Ok?
    ensures WellFormed(Transfer(v, feePayer, from, to, amount).value.program)
  {
    hide Gather, WellFormed, Prepared;
    var g := Gather(Prepared(v, amount), feePayer == from).value;
    GatherWellFormed(Prepared(v, amount), feePayer == from);
    var n, k := |g.program.inputs|, |g.program.commands|;
    ExtendWellFormed(g.program, [PureU64(amount), PureAddress(to)],
                     [SplitCoins(g.primary, [Input(n)]), TransferObjects([Result(k)], Input(n + 1))]);
  }
}
