/** The Sui staking builders: emitted calls, their references and their effects. */
module SuiStaking {
  import opened Bytes
  import opened Wrappers
  import opened SuiProgram
  import opened SuiInput
  import opened SuiTransfer
  import opened SuiExecution

  const SYSTEM_STATE := "0x5"

  // ----- stake

  function StakeProgram(g: Spending, amount: u64, validator: string): Program {
    var n, k := |g.program.inputs|, |g.program.commands|;
    Program(
      g.program.inputs + [PureU64(amount), SharedObject(SYSTEM_STATE), PureAddress(validator)],
      g.program.commands + [SplitCoins(g.primary, [Input(n)]),
                            MoveCall(RequestAddStake, [Input(n + 1), Result(k), Input(n + 2)])])
  }

  /** What building a stake returns, as a function of the input it is given. */
  function StakeTx(v: InputView, feePayer: string, from: string, validator: string, amount: u64): Wrappers.Result<Tx, SuiError> {
    if !Affordable(Excluded(v), amount) then Err(NotEnoughFunds)
    else
      var p := Prepared(v, amount);
      match Gather(p, feePayer == from)
      case None => Err(NoCoins)
      case Some(g) =>
        Ok(Tx(from, feePayer, p.gasCoin.id, p.gasPrice, p.gasBudget, p.currentEpoch, StakeProgram(g, amount, validator)))
  }

  method Stake(feePayer: string, from: string, validator: string, amount: int, input: TxInput)
    returns (r: Wrappers.Result<Tx, SuiError>)
    modifies input`gasBudget, input`coins
    ensures r == StakeTx(old(input.View()), feePayer, from, validator, Uint64(amount))
    ensures input.View() == Prepared(old(input.View()), Uint64(amount))
    ensures r.Ok? ==>
              && r.value.sender == from && r.value.feePayer == feePayer && r.value.gasId == old(input.gasCoin.id)
              && r.value.gasPrice == old(input.gasPrice) && r.value.epoch == old(input.currentEpoch)
              && r.value.budget == input.gasBudget
  {
    hide Gather, Prepared, Excluded, Affordable, Uint64;
    var ok := NewTransactionBase(input, amount);
    if !ok {
      return Err(NotEnoughFunds);
    }
    var g := PrepareGasSplitAndMergeCommands(feePayer, from, input);
    if g.None? {
      return Err(NoCoins);
    }
    var Spending(primary, Program(cmdInputs, commands)) := g.value;
    GatherIsShort(input.View(), feePayer == from);
    var coinSplitResult := Result(U16(|commands|));
    commands := commands + [SplitCoins(primary, [Input(U16(|cmdInputs|))])];
    cmdInputs := cmdInputs + [PureU64(Uint64(amount))];
    var systemStateArg := Input(U16(|cmdInputs|));
    cmdInputs := cmdInputs + [SharedObject(SYSTEM_STATE)];
    var validatorArg := Input(U16(|cmdInputs|));
    cmdInputs := cmdInputs + [PureAddress(validator)];
    commands := commands + [MoveCall(RequestAddStake, [systemStateArg, coinSplitResult, validatorArg])];
    ghost var expected := StakeProgram(g.value, Uint64(amount), validator);
    assert cmdInputs == expected.inputs && commands == expected.commands;
    return Ok(Tx(from, feePayer, input.gasCoin.id, input.gasPrice, input.gasBudget, input.currentEpoch,
                 Program(cmdInputs, commands)));
  }

  lemma StakeWellFormed(v: InputView, feePayer: string, from: string, validator: string, amount: u64)
    requires StakeTx(v, feePayer, from, validator, amount).Ok?
    ensures WellFormed(StakeTx(v, feePayer, from, validator, amount).value.program)
  {
    hide Gather, WellFormed, Prepared;
    var g := Gather(Prepared(v, amount), feePayer == from).value;
    GatherWellFormed(Prepared(v, amount), feePayer == from);
    var n, k := |g.program.inputs|, |g.program.commands|;
    ExtendWellFormed(g.program, [PureU64(amount), SharedObject(SYSTEM_STATE), PureAddress(validator)],
                     [SplitCoins(g.primary, [Input(n)]),
                      MoveCall(RequestAddStake, [Input(n + 1), Result(k), Input(n + 2)])]);
  }

  lemma FinishStake(st: State, primary: Argument, n: nat, k: nat, amount: u64, validator: string, balance: nat, t: string)
    requires Read(st, primary) == Coin(balance, t) && k == |st.results|
    requires |st.inputs| == n + 3 && st.inputs[n] == Number(amount)
    requires st.inputs[n + 1] == Shared(SYSTEM_STATE) && st.inputs[n + 2] == Address(validator)
    requires primary.GasCoin? || (primary.Input? && primary.index < n)
    ensures var r := Execute(st, [SplitCoins(primary, [Input(n)]),
                                  MoveCall(RequestAddStake, [Input(n + 1), Result(k), Input(n + 2)])]);
            && (r.Some? <==> amount <= balance)
            && (r.Some? ==>
                  && Read(r.value, primary) == Coin(balance - amount, t)
                  && r.value.staked == st.staked + [StakeMade(validator, amount, t)]
                  && r.value.delivered == st.delivered && r.value.withdrawn == st.withdrawn && r.value.kept == st.kept)
  {
    var split, call := SplitCoins(primary, [Input(n)]), MoveCall(RequestAddStake, [Input(n + 1), Result(k), Input(n + 2)]);
    assert [split, call][1..] == [call] && [call][1..] == [];
    if amount <= balance {
      var st1 := AddResult(Write(st, primary, Coin(balance - amount, t)), Coin(amount, t));
      assert Step(st, split) == Some(st1);
      assert Read(st1, Result(k)) == Coin(amount, t);
      var taken := Write(st1, Result(k), Gone);
      var st2 := AddResult(taken.(staked := taken.staked + [StakeMade(validator, amount, t)]), Gone);
      assert Step(st1, call) == Some(st2);
      assert Execute(st1, [call]) == Execute(st2, []) == Some(st2);
      assert Execute(st, [split, call]) == Execute(st1, [call]);
    }
  }

  lemma StakeStartsLoaded(world: World, v: InputView, ownGas: bool, amount: u64, validator: string)
    requires Ready(world, v) && Gather(v, ownGas).Some?
    ensures var g := Gather(v, ownGas).value;
            var n := |g.program.inputs|;
            var st := Start(world, v.gasCoin.id, v.gasBudget, StakeProgram(g, amount, validator).inputs);
            && st.Some? && Loaded(st.value, v, ownGas)
            && |st.value.inputs| == n + 3 && st.value.inputs[n] == Number(amount)
            && st.value.inputs[n + 1] == Shared(SYSTEM_STATE) && st.value.inputs[n + 2] == Address(validator)
            && st.value.delivered == [] && st.value.staked == [] && st.value.withdrawn == [] && st.value.kept == []
  {
    hide Balances, Gather, Ready, Loaded, NamedOnce, Loadable, Start;
    var g := Gather(v, ownGas).value;
    StakeInputsLoad(world, v, ownGas, amount, validator);
    StartLoads(world, v, ownGas, g, StakeProgram(g, amount, validator).inputs);
  }

  lemma StakeInputsLoad(world: World, v: InputView, ownGas: bool, amount: u64, validator: string)
    requires Ready(world, v) && Gather(v, ownGas).Some?
    ensures var inputs := StakeProgram(Gather(v, ownGas).value, amount, validator).inputs;
            NamedOnce(v.gasCoin.id, inputs) && Loadable(world, inputs)
  {
    hide Ready, Gather;
    var g := Gather(v, ownGas).value;
    InputsLoad(world, v, ownGas, amount, validator);
    var inputs, others := StakeProgram(g, amount, validator).inputs, TransferProgram(g, amount, validator).inputs;
    assert forall i :: 0 <= i <= |g.program.inputs| ==> inputs[i] == others[i];
  }

  /** A stake executes exactly when what it gathers covers the amount; it then stakes that amount with the validator. */
  lemma StakeExecutes(world: World, v: InputView, ownGas: bool, amount: u64, validator: string)
    requires Ready(world, v) && Gather(v, ownGas).Some?
    ensures var g := Gather(v, ownGas).value;
            var r := Run(world, v.gasCoin.id, v.gasBudget, StakeProgram(g, amount, validator));
            && (r.Some? <==> amount <= Available(v, ownGas))
            && (r.Some? ==>
                  && r.value.staked == [StakeMade(validator, amount, SpentType(v))]
                  && Read(r.value, g.primary) == Coin(Available(v, ownGas) - amount, SpentType(v))
                  && r.value.delivered == [] && r.value.withdrawn == [] && r.value.kept == [])
  {
    hide Available, Gather, Step, Start, Loaded, Ready;
    var g := Gather(v, ownGas).value;
    var n, k := |g.program.inputs|, |g.program.commands|;
    StakeStartsLoaded(world, v, ownGas, amount, validator);
    var st := Start(world, v.gasCoin.id, v.gasBudget, StakeProgram(g, amount, validator).inputs).value;
    GatherExecutes(world, st, v, ownGas);
    var st1 := Execute(st, g.program.commands).value;
    ExecuteConcat(st, g.program.commands,
                  [SplitCoins(g.primary, [Input(n)]),
                   MoveCall(RequestAddStake, [Input(n + 1), Result(k), Input(n + 2)])]);
    PrimaryPlace(v, ownGas);
    FinishStake(st1, g.primary, n, k, amount, validator, Available(v, ownGas), SpentType(v));
  }

  /**
   * What becomes of a stake, for any fee payer, native or token, and any number of coins: it is built exactly when
   * the balance check passes and there is something to split, and executes exactly when what it gathers covers the
   * amount. It then stakes exactly the amount, with the validator asked for, and does nothing else.
   */
  lemma StakeOutcome(world: World, v: InputView, feePayer: string, from: string, validator: string, amount: u64)
    requires Describes(world, v)
    ensures var r, own := StakeTx(v, feePayer, from, validator, amount), feePayer == from;
            && (r.Ok? <==> Affordable(Excluded(v), amount) && (own || Excluded(v).coins != []))
            && (r.Err? ==> r.error == if Affordable(Excluded(v), amount) then NoCoins else NotEnoughFunds)
            && (r.Ok? ==>
                  var p, done := Prepared(v, amount), Run(world, r.value.gasId, r.value.budget, r.value.program);
                  && (done.Some? <==> amount <= Available(p, own))
                  && (done.Some? ==>
                        && done.value.staked == [StakeMade(validator, amount, SpentType(p))]
                        && done.value.delivered == [] && done.value.withdrawn == [] && done.value.kept == []))
  {
    hide Available, Run, StakeProgram, Describes, Affordable;
    var r, own := StakeTx(v, feePayer, from, validator, amount), feePayer == from;
    if r.Ok? {
      PreparedReady(world, v, amount);
      StakeExecutes(world, Prepared(v, amount), own, amount, validator);
    }
  }

  /** Of an amount asked for that is any integer, what is staked is that amount exactly when 64 bits hold it. */
  lemma RequestedIsStaked(world: World, v: InputView, ownGas: bool, amount: int, validator: string)
    requires Ready(world, v) && Gather(v, ownGas).Some?
    ensures var r := Run(world, v.gasCoin.id, v.gasBudget, StakeProgram(Gather(v, ownGas).value, Uint64(amount), validator));
            r.Some? ==> && |r.value.staked| == 1
                        && (r.value.staked[0].balance == amount <==> 0 <= amount < 0x1_0000_0000_0000_0000)
  {
    hide Run, Gather, Ready, StakeProgram;
    StakeExecutes(world, v, ownGas, Uint64(amount), validator);
  }

  // ----- unstake

  datatype StakeObject = StakeObject(id: string, principal: int, rewards: int, validator: string) {
    function Balance(): int { principal + rewards }
  }

  datatype UnstakeError = BaseError | InvalidStake | MissingSplitAmount | AmountMismatch

  /** A filter that is set must match the stake. */
  function ValidateStakeObject(stake: StakeObject, validator: string, account: string): bool {
    (validator == "" || stake.validator == validator) && (account == "" || stake.id == account)
  }

  const StakeId: StakeObject -> string := (s: StakeObject) => s.id

  function Withdrawals(n: nat): (c: seq<Command>)
    ensures |c| == n
  {
    seq(n, i requires 0 <= i < n => MoveCall(RequestWithdrawStake, [Input(0), Input(U16(i + 1))]))
  }

  function TotalStake(stakes: seq<StakeObject>): int {
    if stakes == [] then 0 else stakes[0].Balance() + TotalStake(stakes[1..])
  }

  lemma {:induction false} TotalStakeExtend(stakes: seq<StakeObject>, i: nat)
    requires i < |stakes|
    ensures TotalStake(stakes[..i + 1]) == TotalStake(stakes[..i]) + stakes[i].Balance()
  {
    if i == 0 {
      assert stakes[..1][1..] == [];
    } else {
      TotalStakeExtend(stakes[1..], i - 1);
      assert stakes[..i + 1][1..] == stakes[1..][..i] && stakes[..i][1..] == stakes[1..][..i - 1];
    }
  }

  /**
   * One withdrawal per closed stake, then, for a stake to split, the split and a withdrawal of what stays on
   * it. Positions are cut to 16 bits, whatever the number of stakes.
   */
  function UnstakeProgram(stakes: seq<StakeObject>, split: StakeObject, splitAmount: int): Program {
    var n := |stakes|;
    var inputs := [SharedObject(SYSTEM_STATE)] + OwnedObjects(stakes, StakeId);
    if Uint64(split.Balance()) == 0 then Program(inputs, Withdrawals(n))
    else
      Program(
        inputs + [OwnedObject(split.id), PureU64(Uint64(splitAmount))],
        Withdrawals(n) + SplitCommands(n))
  }

  function SplitCommands(n: nat): seq<Command> {
    [MoveCall(SplitStakedSui, [Input(U16(n + 1)), Input(U16(n + 2))]),
     MoveCall(RequestWithdrawStake, [Input(0), Input(U16(n + 1))])]
  }

  /** The checks of the two branches; the loop checks the stake to split once for every stake it closes. */
  function UnstakeCheck(stakes: seq<StakeObject>, split: StakeObject, splitAmount: int, validator: string,
                        account: string, amount: int): Option<UnstakeError> {
    if stakes != [] && !ValidateStakeObject(split, validator, account) then Some(InvalidStake)
    else if Uint64(split.Balance()) == 0 then None
    else if !ValidateStakeObject(split, validator, account) then Some(InvalidStake)
    else if splitAmount == 0 then Some(MissingSplitAmount)
    else if TotalStake(stakes) + split.Balance() - splitAmount != amount then Some(AmountMismatch)
    else None
  }

  lemma FirstPosition()
    ensures U16(0) == 0
  {
  }

  /**
   * The filters look at the stake to split, never at the stakes to close: without a split, an unstake passes
   * exactly when there is nothing to close or that other stake matches. A matching stake is refused beside
   * an empty one.
   */
  lemma FiltersIgnoreClosedStakes(stakes: seq<StakeObject>, split: StakeObject, validator: string, account: string, amount: int)
    requires Uint64(split.Balance()) == 0
    ensures UnstakeCheck(stakes, split, 0, validator, account, amount) == None <==>
            stakes == [] || ValidateStakeObject(split, validator, account)
    ensures var closed, none := StakeObject("stake", 10, 0, "validator"), StakeObject("", 0, 0, "");
            && ValidateStakeObject(closed, "validator", "stake")
            && UnstakeCheck([closed], none, 0, "validator", "stake", 10) == Some(InvalidStake)
  {
  }

  /** What building an unstake returns, as a function of the input it is given. */
  function UnstakeTx(v: InputView, feePayer: string, from: string, validator: string, account: string, amount: int,
                     stakes: seq<StakeObject>, split: StakeObject, splitAmount: int): Wrappers.Result<Tx, UnstakeError> {
    if !Affordable(Excluded(v), Uint64(amount)) then Err(BaseError)
    else
      match UnstakeCheck(stakes, split, splitAmount, validator, account, amount)
      case Some(e) => Err(e)
      case None =>
        var p := Prepared(v, Uint64(amount));
        Ok(Tx(from, feePayer, p.gasCoin.id, p.gasPrice, p.gasBudget, p.currentEpoch, UnstakeProgram(stakes, split, splitAmount)))
  }

  method Unstake(feePayer: string, from: string, validator: string, account: string, amount: int, input: TxInput,
                 stakes: seq<StakeObject>, split: StakeObject, splitAmount: int)
    returns (r: Wrappers.Result<Tx, UnstakeError>)
    modifies input`gasBudget, input`coins
    ensures r == UnstakeTx(old(input.View()), feePayer, from, validator, account, amount, stakes, split, splitAmount)
    ensures input.View() == Prepared(old(input.View()), Uint64(amount))
    ensures r.Ok? ==>
              && r.value.sender == from && r.value.feePayer == feePayer && r.value.gasId == old(input.gasCoin.id)
              && r.value.gasPrice == old(input.gasPrice) && r.value.epoch == old(input.currentEpoch)
              && r.value.budget == input.gasBudget
  {
    hide Prepared, Excluded, Affordable, Uint64, U16;
    FirstPosition();
    var ok := NewTransactionBase(input, amount);
    if !ok {
      return Err(BaseError);
    }
    var commands := [];
    var cmdInputs := [SharedObject(SYSTEM_STATE)];
    var systemStateInput := Input(U16(0));
    var unstakedAmount := 0;
    ghost var prepared := input.View();
    for i := 0 to |stakes|
      invariant input.View() == prepared
      invariant |cmdInputs| == i + 1
      invariant cmdInputs == [SharedObject(SYSTEM_STATE)] + OwnedObjects(stakes[..i], StakeId) && commands == Withdrawals(i)
      invariant unstakedAmount == TotalStake(stakes[..i])
      invariant i > 0 ==> ValidateStakeObject(split, validator, account)
    {
      if !ValidateStakeObject(split, validator, account) {
        return Err(InvalidStake);
      }
      TotalStakeExtend(stakes, i);
      var stakeIdInput := Input(U16(|cmdInputs|));
      cmdInputs := cmdInputs + [OwnedObject(stakes[i].id)];
      commands := commands + [MoveCall(RequestWithdrawStake, [systemStateInput, stakeIdInput])];
      unstakedAmount := unstakedAmount + stakes[i].Balance();
    }
    assert stakes[..|stakes|] == stakes;
    if Uint64(split.Balance()) != 0 {
      if !ValidateStakeObject(split, validator, account) {
        return Err(InvalidStake);
      }
      if splitAmount == 0 {
        return Err(MissingSplitAmount);
      }
      unstakedAmount := unstakedAmount + (split.Balance() - splitAmount);
      if unstakedAmount != amount {
        return Err(AmountMismatch);
      }
      var mainStakeIdInput := Input(U16(|cmdInputs|));
      cmdInputs := cmdInputs + [OwnedObject(split.id)];
      var toSplitOffArg := Input(U16(|cmdInputs|));
      cmdInputs := cmdInputs + [PureU64(Uint64(splitAmount))];
      commands := commands + [MoveCall(SplitStakedSui, [mainStakeIdInput, toSplitOffArg])];
      commands := commands + [MoveCall(RequestWithdrawStake, [systemStateInput, mainStakeIdInput])];
    }
    ghost var expected := UnstakeProgram(stakes, split, splitAmount);
    assert cmdInputs == expected.inputs && commands == expected.commands;
    return Ok(Tx(from, feePayer, input.gasCoin.id, input.gasPrice, input.gasBudget, input.currentEpoch,
                 Program(cmdInputs, commands)));
  }

  lemma UnstakeWellFormed(stakes: seq<StakeObject>, split: StakeObject, splitAmount: int)
    ensures WellFormed(UnstakeProgram(stakes, split, splitAmount))
  {
    hide WellFormed, Withdrawals, SplitCommands;
    var n, inputs := |stakes|, [SharedObject(SYSTEM_STATE)] + OwnedObjects(stakes, StakeId);
    WithdrawalsWellFormed(inputs, n);
    if Uint64(split.Balance()) != 0 {
      SplitInRange(n);
      ExtendWellFormed(Program(inputs, Withdrawals(n)), [OwnedObject(split.id), PureU64(Uint64(splitAmount))], SplitCommands(n));
    }
  }

  lemma WithdrawalsWellFormed(inputs: seq<CallArg>, n: nat)
    requires n < |inputs|
    ensures WellFormed(Program(inputs, Withdrawals(n)))
  {
  }

  lemma SplitInRange(n: nat)
    ensures |SplitCommands(n)| == 2
    ensures forall j, k :: 0 <= j < 2 && 0 <= k < |Arguments(SplitCommands(n)[j])| ==>
              ArgumentInRange(Arguments(SplitCommands(n)[j])[k], n + 3, n + j)
  {
  }

  function Principals(stakes: seq<StakeObject>): (p: seq<nat>)
    requires forall i :: 0 <= i < |stakes| ==> stakes[i].principal >= 0
    ensures |p| == |stakes|
  {
    seq(|stakes|, i requires 0 <= i < |stakes| => stakes[i].principal)
  }

  /** The last position that 16 bits can name. */
  const MAX_POSITION := 0xffff

  /** The withdrawal loop's commands take each stake once, in order. */
  lemma {:induction false} WithdrawalsExecute(st: State, stakes: seq<StakeObject>, k: nat)
    requires k <= |stakes| < |st.inputs| && k <= MAX_POSITION && st.inputs[0] == Shared(SYSTEM_STATE)
    requires forall i :: 0 <= i < |stakes| ==> stakes[i].principal >= 0 && st.inputs[i + 1] == SuiProgram.Stake(stakes[i].principal)
    ensures var r := Execute(st, Withdrawals(k));
            && r.Some? && r.value.withdrawn == st.withdrawn + Principals(stakes)[..k]
            && r.value.kept == st.kept && r.value.delivered == st.delivered && r.value.staked == st.staked
            && |r.value.inputs| == |st.inputs| && r.value.inputs[0] == st.inputs[0]
            && forall j :: k < j < |st.inputs| ==> r.value.inputs[j] == st.inputs[j]
  {
    hide Withdrawals, Step;
    if k == 0 {
      NoWithdrawals();
      assert st.withdrawn + [] == st.withdrawn;
    } else {
      WithdrawalsExecute(st, stakes, k - 1);
      var st1 := Execute(st, Withdrawals(k - 1)).value;
      LastWithdrawal(k);
      var call := MoveCall(RequestWithdrawStake, [Input(0), Input(k)]);
      ExecuteConcat(st, Withdrawals(k - 1), [call]);
      OneWithdrawal(st1, k, stakes[k - 1].principal);
      assert [call][1..] == [];
      var st2 := Step(st1, call).value;
      assert Execute(st1, [call]) == Execute(st2, []) == Some(st2);
      assert Principals(stakes)[..k] == Principals(stakes)[..k - 1] + [stakes[k - 1].principal];
    }
  }

  lemma NoWithdrawals()
    ensures Withdrawals(0) == []
  {
  }

  lemma LastWithdrawal(k: nat)
    requires 0 < k <= MAX_POSITION
    ensures Withdrawals(k) == Withdrawals(k - 1) + [MoveCall(RequestWithdrawStake, [Input(0), Input(k)])]
  {
  }

  lemma OneWithdrawal(st: State, k: nat, principal: nat)
    requires 0 < k < |st.inputs| && st.inputs[0] == Shared(SYSTEM_STATE) && st.inputs[k] == SuiProgram.Stake(principal)
    ensures var r := Step(st, MoveCall(RequestWithdrawStake, [Input(0), Input(k)]));
            && r.Some? && r.value.withdrawn == st.withdrawn + [principal]
            && r.value.kept == st.kept && r.value.delivered == st.delivered && r.value.staked == st.staked
            && |r.value.inputs| == |st.inputs|
            && forall j :: 0 <= j < |st.inputs| && j != k ==> r.value.inputs[j] == st.inputs[j]
  {
  }

  ghost predicate HoldsStakes(world: World, gasId: string, budget: u64, stakes: seq<StakeObject>) {
    && gasId in world && world[gasId].Coin? && world[gasId].balance >= budget
    && (forall i :: 0 <= i < |stakes| ==>
          && stakes[i].principal >= 0 && stakes[i].id != gasId
          && stakes[i].id in world && world[stakes[i].id] == SuiProgram.Stake(stakes[i].principal))
    && forall i, j :: 0 <= i < j < |stakes| ==> stakes[i].id != stakes[j].id
  }

  /** Past the last position the system state is named in place of a stake, and execution aborts. */
  lemma TooManyWithdrawals(st: State, stakes: seq<StakeObject>, more: seq<Command>)
    requires MAX_POSITION < |stakes| < |st.inputs| && st.inputs[0] == Shared(SYSTEM_STATE)
    requires forall i :: 0 <= i < |stakes| ==> stakes[i].principal >= 0 && st.inputs[i + 1] == SuiProgram.Stake(stakes[i].principal)
    ensures Execute(st, Withdrawals(|stakes|) + more) == None
  {
    var n := MAX_POSITION;
    var fitting, rest := Withdrawals(n), (Withdrawals(|stakes|) + more)[n..];
    WithdrawalsExecute(st, stakes, n);
    var st1 := Execute(st, fitting).value;
    ExecuteConcat(st, fitting, rest);
    assert fitting + rest == Withdrawals(|stakes|) + more;
    assert rest[0] == MoveCall(RequestWithdrawStake, [Input(0), Input(0)]);
    assert Read(st1, Input(0)).Shared?;
    assert Step(st1, rest[0]) == None;
  }

  /**
   * Without a split the program executes exactly when its positions fit 16 bits; it then withdraws exactly
   * the listed stakes and nothing else.
   */
  lemma UnstakeAllExecutes(world: World, gasId: string, budget: u64, stakes: seq<StakeObject>, split: StakeObject, splitAmount: int)
    requires HoldsStakes(world, gasId, budget, stakes) && Uint64(split.Balance()) == 0
    ensures var r := Run(world, gasId, budget, UnstakeProgram(stakes, split, splitAmount));
            && (r.Some? <==> |stakes| <= MAX_POSITION)
            && (r.Some? ==> r.value.withdrawn == Principals(stakes)
                            && r.value.kept == [] && r.value.delivered == [] && r.value.staked == [])
  {
    hide Step, Execute, Withdrawals;
    var p := UnstakeProgram(stakes, split, splitAmount);
    assert NamedOnce(gasId, p.inputs) && Loadable(world, p.inputs);
    var st := Start(world, gasId, budget, p.inputs).value;
    if |stakes| <= MAX_POSITION {
      WithdrawalsExecute(st, stakes, |stakes|);
      assert Principals(stakes)[..|stakes|] == Principals(stakes);
    } else {
      TooManyWithdrawals(st, stakes, []);
      assert Withdrawals(|stakes|) + [] == Withdrawals(|stakes|);
    }
  }

  /**
   * With a split the program executes exactly when its positions fit 16 bits and the split amount is within
   * the stake's principal; it then withdraws the listed stakes and what stays on the split one, and keeps the
   * split amount staked.
   */
  lemma UnstakeSplitExecutes(world: World, gasId: string, budget: u64, stakes: seq<StakeObject>, split: StakeObject, splitAmount: u64)
    requires HoldsStakes(world, gasId, budget, stakes + [split]) && Uint64(split.Balance()) != 0
    ensures var r := Run(world, gasId, budget, UnstakeProgram(stakes, split, splitAmount));
            && (r.Some? <==> |stakes| + 2 <= MAX_POSITION && splitAmount <= split.principal)
            && (r.Some? ==>
                  && (forall i :: 0 <= i < |stakes| ==> stakes[i].principal >= 0)
                  && r.value.withdrawn == Principals(stakes) + [split.principal - splitAmount]
                  && r.value.kept == [splitAmount] && r.value.delivered == [] && r.value.staked == [])
  {
    hide Step, HoldsStakes, Execute, Withdrawals, SplitCommands;
    var n := |stakes|;
    UnstakeSplitStarts(world, gasId, budget, stakes, split, splitAmount);
    var st := Start(world, gasId, budget, UnstakeProgram(stakes, split, splitAmount).inputs).value;
    if n <= MAX_POSITION {
      WithdrawalsExecute(st, stakes, n);
      assert Principals(stakes)[..n] == Principals(stakes);
      ExecuteConcat(st, Withdrawals(n), SplitCommands(n));
      FinishUnstake(Execute(st, Withdrawals(n)).value, n, split.principal, splitAmount);
    } else {
      TooManyWithdrawals(st, stakes, SplitCommands(n));
    }
  }

  lemma UnstakeSplitStarts(world: World, gasId: string, budget: u64, stakes: seq<StakeObject>, split: StakeObject, splitAmount: u64)
    requires HoldsStakes(world, gasId, budget, stakes + [split]) && Uint64(split.Balance()) != 0
    ensures var n := |stakes|;
            var st := Start(world, gasId, budget, UnstakeProgram(stakes, split, splitAmount).inputs);
            && st.Some? && |st.value.inputs| == n + 3 && st.value.inputs[0] == Shared(SYSTEM_STATE)
            && split.principal >= 0 && st.value.inputs[n + 1] == SuiProgram.Stake(split.principal)
            && st.value.inputs[n + 2] == Number(splitAmount)
            && (forall i :: 0 <= i < n ==> stakes[i].principal >= 0 && st.value.inputs[i + 1] == SuiProgram.Stake(stakes[i].principal))
            && st.value.withdrawn == [] && st.value.kept == [] && st.value.delivered == [] && st.value.staked == []
  {
    var n, all := |stakes|, stakes + [split];
    var p := UnstakeProgram(stakes, split, splitAmount);
    UnstakeSplitInputs(stakes, split, splitAmount);
    assert forall i :: 0 <= i < n ==> stakes[i] == all[i];
    assert all[n] == split;
    assert NamedOnce(gasId, p.inputs);
    assert Loadable(world, p.inputs);
  }

  /** The owned objects of the program are the stakes, at their places. */
  lemma UnstakeSplitInputs(stakes: seq<StakeObject>, split: StakeObject, splitAmount: u64)
    requires Uint64(split.Balance()) != 0
    ensures var n, inputs := |stakes|, UnstakeProgram(stakes, split, splitAmount).inputs;
            && |inputs| == n + 3 && inputs[0] == SharedObject(SYSTEM_STATE) && inputs[n + 2] == PureU64(splitAmount)
            && (forall i :: 1 <= i <= n + 1 ==> inputs[i] == OwnedObject((stakes + [split])[i - 1].id))
  {
  }

  lemma FinishUnstake(st: State, n: nat, principal: nat, splitAmount: u64)
    requires n <= MAX_POSITION && |st.inputs| == n + 3 && st.inputs[0] == Shared(SYSTEM_STATE)
    requires st.inputs[n + 1] == SuiProgram.Stake(principal) && st.inputs[n + 2] == Number(splitAmount)
    ensures var r := Execute(st, SplitCommands(n));
            && (r.Some? <==> n + 2 <= MAX_POSITION && splitAmount <= principal)
            && (r.Some? ==>
                  && r.value.withdrawn == st.withdrawn + [principal - splitAmount] && r.value.kept == st.kept + [splitAmount]
                  && r.value.delivered == st.delivered && r.value.staked == st.staked)
  {
    hide Step, U16;
    SplitPositions(n);
    var at, number := U16(n + 1), U16(n + 2);
    var cut, take := MoveCall(SplitStakedSui, [Input(at), Input(number)]), MoveCall(RequestWithdrawStake, [Input(0), Input(at)]);
    assert [cut, take][1..] == [take] && [take][1..] == [];
    if n + 2 > MAX_POSITION {
      NoSplit(st, at, number);
    } else {
      CutStake(st, at, number, principal, splitAmount);
      if splitAmount <= principal {
        var st2 := Step(st, cut).value;
        OneWithdrawal(st2, at, principal - splitAmount);
        var st3 := Step(st2, take).value;
        assert Execute(st2, [take]) == Execute(st3, []) == Some(st3);
        assert Execute(st, [cut, take]) == Execute(st2, [take]);
      }
    }
  }

  lemma SplitPositions(n: nat)
    requires n <= MAX_POSITION
    ensures n + 2 <= MAX_POSITION ==> U16(n + 1) == n + 1 && U16(n + 2) == n + 2
    ensures n + 2 > MAX_POSITION ==> U16(n + 1) == 0 || U16(n + 2) == 0
  {
  }

  lemma NoSplit(st: State, at: nat, number: nat)
    requires st.inputs != [] && st.inputs[0] == Shared(SYSTEM_STATE) && (at == 0 || number == 0)
    ensures Step(st, MoveCall(SplitStakedSui, [Input(at), Input(number)])) == None
  {
  }

  lemma CutStake(st: State, at: nat, number: nat, principal: nat, splitAmount: u64)
    requires at < |st.inputs| && number < |st.inputs|
    requires st.inputs[at] == SuiProgram.Stake(principal) && st.inputs[number] == Number(splitAmount)
    ensures var r := Step(st, MoveCall(SplitStakedSui, [Input(at), Input(number)]));
            && (r.Some? <==> splitAmount <= principal)
            && (r.Some? ==>
                  && r.value.inputs == st.inputs[at := SuiProgram.Stake(principal - splitAmount)]
                  && r.value.kept == st.kept + [splitAmount] && r.value.withdrawn == st.withdrawn
                  && r.value.delivered == st.delivered && r.value.staked == st.staked)
  {
  }

  // ----- what an unstake withdraws and what was asked for

  function TotalRewards(stakes: seq<StakeObject>): int {
    if stakes == [] then 0 else stakes[0].rewards + TotalRewards(stakes[1..])
  }

  function TotalOf(principals: seq<nat>): nat {
    if principals == [] then 0 else TotalOf(principals[..|principals| - 1]) + principals[|principals| - 1]
  }

  lemma {:induction false} PrincipalsTotal(stakes: seq<StakeObject>, n: nat)
    requires n <= |stakes| && forall i :: 0 <= i < |stakes| ==> stakes[i].principal >= 0
    ensures TotalOf(Principals(stakes)[..n]) == TotalStake(stakes[..n]) - TotalRewards(stakes[..n])
  {
    if n > 0 {
      PrincipalsTotal(stakes, n - 1);
      TotalStakeExtend(stakes, n - 1);
      TotalRewardsExtend(stakes, n - 1);
      assert Principals(stakes)[..n][..n - 1] == Principals(stakes)[..n - 1];
    }
  }

  lemma {:induction false} TotalRewardsExtend(stakes: seq<StakeObject>, i: nat)
    requires i < |stakes|
    ensures TotalRewards(stakes[..i + 1]) == TotalRewards(stakes[..i]) + stakes[i].rewards
  {
    if i == 0 {
      assert stakes[..1][1..] == [];
    } else {
      TotalRewardsExtend(stakes[1..], i - 1);
      assert stakes[..i + 1][1..] == stakes[1..][..i] && stakes[..i][1..] == stakes[1..][..i - 1];
    }
  }

  /**
   * A split unstake compares the amount with balances, which include rewards: the principals it withdraws
   * fall short of the amount by exactly the rewards, and equal it only where there are none.
   */
  lemma {:induction false} SplitUnstakePays(world: World, gasId: string, budget: u64, stakes: seq<StakeObject>,
                                            split: StakeObject, splitAmount: u64, validator: string, account: string, amount: int)
    requires HoldsStakes(world, gasId, budget, stakes + [split]) && Uint64(split.Balance()) != 0
    requires UnstakeCheck(stakes, split, splitAmount, validator, account, amount) == None
    ensures var r := Run(world, gasId, budget, UnstakeProgram(stakes, split, splitAmount));
            var rewards := TotalRewards(stakes) + split.rewards;
            && (r.Some? ==> TotalOf(r.value.withdrawn) == amount - rewards)
            && (r.Some? ==> (TotalOf(r.value.withdrawn) == amount <==> rewards == 0))
  {
    hide Run, HoldsStakes, UnstakeProgram, TotalStake, TotalRewards;
    UnstakeSplitExecutes(world, gasId, budget, stakes, split, splitAmount);
    var r := Run(world, gasId, budget, UnstakeProgram(stakes, split, splitAmount));
    if r.Some? {
      PrincipalsTotal(stakes, |stakes|);
      assert stakes[..|stakes|] == stakes && Principals(stakes)[..|stakes|] == Principals(stakes);
      assert r.value.withdrawn[..|stakes|] == Principals(stakes);
    }
  }

  /**
   * An unstake of whole stakes is never compared with the amount: whatever the amount, the same program is
   * emitted, and it withdraws the stakes' balances less their rewards.
   */
  lemma {:induction false} WholeUnstakeIgnoresAmount(world: World, gasId: string, budget: u64,
                                                     stakes: seq<StakeObject>, split: StakeObject,
                                                     splitAmount: int, validator: string, account: string,
                                                     amount: int, other: int)
    requires HoldsStakes(world, gasId, budget, stakes) && Uint64(split.Balance()) == 0 && |stakes| <= MAX_POSITION
    ensures UnstakeCheck(stakes, split, splitAmount, validator, account, amount) ==
            UnstakeCheck(stakes, split, splitAmount, validator, account, other)
    ensures var r := Run(world, gasId, budget, UnstakeProgram(stakes, split, splitAmount));
            r.Some? && TotalOf(r.value.withdrawn) == TotalStake(stakes) - TotalRewards(stakes)
  {
    UnstakeAllExecutes(world, gasId, budget, stakes, split, splitAmount);
    PrincipalsTotal(stakes, |stakes|);
    assert stakes[..|stakes|] == stakes && Principals(stakes)[..|stakes|] == Principals(stakes);
  }

  /** The stakes an unstake touches: those it closes, and the one to split where that has a balance. */
  function Touched(stakes: seq<StakeObject>, split: StakeObject): seq<StakeObject> {
    stakes + if Uint64(split.Balance()) != 0 then [split] else []
  }

  /**
   * What becomes of an unstake. It is built exactly when the gas coin check passes, the stake to split matches the
   * filters or is neither needed nor there, and a split is of an amount that is not zero and leaves what is asked
   * for. It executes exactly when its positions fit 16 bits and the split is within the principal, and then
   * withdraws the principals of the closed stakes and what stays on the split one.
   */
  lemma UnstakeOutcome(world: World, v: InputView, feePayer: string, from: string, validator: string, account: string,
                       amount: int, stakes: seq<StakeObject>, split: StakeObject, splitAmount: int)
    requires HoldsStakes(world, v.gasCoin.id, v.gasCoin.balance, Touched(stakes, split))
    ensures var r, splits := UnstakeTx(v, feePayer, from, validator, account, amount, stakes, split, splitAmount),
                             Uint64(split.principal + split.rewards) != 0;
            var matches := (validator == "" || split.validator == validator) && (account == "" || split.id == account);
            var left := TotalStake(stakes) + split.principal + split.rewards - splitAmount;
            && (r.Ok? <==> && Affordable(Excluded(v), Uint64(amount)) && (matches || (stakes == [] && !splits))
                           && (splits ==> splitAmount != 0 && left == amount))
            && (r.Err? ==>
                  r.error == if !Affordable(Excluded(v), Uint64(amount)) then BaseError else if !matches then InvalidStake
                             else if splitAmount == 0 then MissingSplitAmount else AmountMismatch)
            && (r.Ok? ==>
                  var done := Run(world, r.value.gasId, r.value.budget, r.value.program);
                  && (done.Some? <==> && |stakes| + (if splits then 2 else 0) <= 0xffff
                                      && (splits ==> Uint64(splitAmount) <= split.principal))
                  && (done.Some? ==>
                        && |done.value.withdrawn| == |stakes| + (if splits then 1 else 0)
                        && (forall i :: 0 <= i < |stakes| ==> done.value.withdrawn[i] == stakes[i].principal)
                        && (splits ==> done.value.withdrawn[|stakes|] == split.principal - Uint64(splitAmount))
                        && done.value.kept == (if splits then [Uint64(splitAmount)] else [])
                        && done.value.delivered == [] && done.value.staked == []))
  {
    hide Run, UnstakeProgram, Affordable, Excluded, Prepared;
    var r := UnstakeTx(v, feePayer, from, validator, account, amount, stakes, split, splitAmount);
    if r.Ok? {
      BudgetWithin(v, Uint64(amount));
      var budget := Prepared(v, Uint64(amount)).gasBudget;
      HeldForLess(world, v.gasCoin.id, v.gasCoin.balance, budget, Touched(stakes, split));
      if Uint64(split.Balance()) != 0 {
        CutTwice(stakes, split, splitAmount);
        UnstakeSplitExecutes(world, v.gasCoin.id, budget, stakes, split, Uint64(splitAmount));
      } else {
        assert Touched(stakes, split) == stakes;
        UnstakeAllExecutes(world, v.gasCoin.id, budget, stakes, split, splitAmount);
      }
    }
  }

  lemma BudgetWithin(v: InputView, amount: u64)
    requires Affordable(Excluded(v), amount)
    ensures Prepared(v, amount).gasCoin == v.gasCoin && Prepared(v, amount).gasBudget <= v.gasCoin.balance
  {
    hide Affordable, Budget;
    BudgetBounds(Excluded(v), amount);
  }

  lemma HeldForLess(world: World, gasId: string, budget: u64, less: u64, stakes: seq<StakeObject>)
    requires HoldsStakes(world, gasId, budget, stakes) && less <= budget
    ensures HoldsStakes(world, gasId, less, stakes)
  {
  }

  lemma CutTwice(stakes: seq<StakeObject>, split: StakeObject, splitAmount: int)
    ensures UnstakeProgram(stakes, split, Uint64(splitAmount)) == UnstakeProgram(stakes, split, splitAmount)
  {
    hide Withdrawals, SplitCommands, OwnedObjects;
  }

  /** A gas coin of 100 alone, and the chain that holds it beside one stake. */
  function GasOnly(sui: string): InputView {
    InputView(5, 1, CoinObject("gas", 1, "", 100, sui), [], 0)
  }

  function OneStakeWorld(sui: string, principal: nat): World {
    map["gas" := Coin(100, sui), "stake" := SuiProgram.Stake(principal)]
  }

  lemma OneStakeHeld(sui: string, stake: StakeObject)
    requires stake.id == "stake" && stake.principal >= 0
    ensures HoldsStakes(OneStakeWorld(sui, stake.principal), "gas", 5, [stake])
    ensures Principals([stake]) == [stake.principal]
  {
  }

  lemma GasOnlyPrepared(sui: string, amount: u64)
    requires amount <= 95
    ensures var v := GasOnly(sui);
            Affordable(Excluded(v), amount) && Prepared(v, amount) == v
  {
    assert Excluded(GasOnly(sui)) == GasOnly(sui);
  }

  /** Of a stake of 10 with rewards of 2, 8 are asked for and 4 split off: accepted, and 6 are withdrawn. */
  lemma SplitUnstakeMayFallShort(from: string, feePayer: string, sui: string)
    ensures var r := UnstakeTx(GasOnly(sui), feePayer, from, "", "", 8, [], StakeObject("stake", 10, 2, "validator"), 4);
            && r.Ok?
            && var done := Run(OneStakeWorld(sui, 10), r.value.gasId, r.value.budget, r.value.program);
               done.Some? && done.value.withdrawn == [6]
  {
    hide Run, UnstakeProgram, Prepared, Affordable, HoldsStakes, OneStakeWorld, Excluded;
    var split, none, principals := StakeObject("stake", 10, 2, "validator"), [], [];
    GasOnlyPrepared(sui, 8);
    assert UnstakeCheck(none, split, 4, "", "", 8) == None;
    assert none + [split] == [split];
    OneStakeHeld(sui, split);
    UnstakeSplitExecutes(OneStakeWorld(sui, 10), "gas", 5, none, split, 4);
    assert Principals(none) == principals && principals + [6] == [6];
  }

  /** A stake is asked to give some other amount, say 7 of 10: accepted, and all of it is withdrawn. */
  lemma WholeUnstakeMayExceed(from: string, feePayer: string, sui: string, amount: u64, stake: StakeObject, none: StakeObject)
    requires stake.id == "stake" && stake.principal >= 0 && none.principal == 0 && none.rewards == 0
    requires amount <= 95
    ensures var r := UnstakeTx(GasOnly(sui), feePayer, from, "", "", amount, [stake], none, 0);
            && r.Ok?
            && var done := Run(OneStakeWorld(sui, stake.principal), r.value.gasId, r.value.budget, r.value.program);
               done.Some? && done.value.withdrawn == [stake.principal]
  {
    assert 1 <= MAX_POSITION;
    hide *;
    AnyAmountPasses(from, feePayer, sui, amount, [stake], none);
    OneStakeHeld(sui, stake);
    UnstakeAllExecutes(OneStakeWorld(sui, stake.principal), "gas", 5, [stake], none, 0);
  }

  lemma AnyAmountPasses(from: string, feePayer: string, sui: string, amount: u64, stakes: seq<StakeObject>, none: StakeObject)
    requires amount <= 95 && none.principal == 0 && none.rewards == 0
    ensures UnstakeTx(GasOnly(sui), feePayer, from, "", "", amount, stakes, none, 0) ==
            Ok(Tx(from, feePayer, "gas", 1, 5, 0, UnstakeProgram(stakes, none, 0)))
    ensures Uint64(none.Balance()) == 0
  {
    hide UnstakeProgram, Prepared, Affordable, Excluded, TotalStake;
    GasOnlyPrepared(sui, amount);
  }
}
