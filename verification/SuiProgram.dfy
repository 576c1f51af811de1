/** Sui programmable transactions: commands with positional arguments, and their execution. */
module SuiProgram {
  import opened Bytes
  import opened Wrappers

  datatype Argument = GasCoin | Input(index: nat) | Result(index: nat)

  datatype CallArg =
    | PureU64(n: u64)
    | PureAddress(address: string)
    | OwnedObject(id: string)
    | SharedObject(id: string)

  datatype Call = RequestAddStake | RequestWithdrawStake | SplitStakedSui

  datatype Command =
    | SplitCoins(coin: Argument, amounts: seq<Argument>)
    | MergeCoins(target: Argument, sources: seq<Argument>)
    | TransferObjects(objects: seq<Argument>, to: Argument)
    | MoveCall(call: Call, arguments: seq<Argument>)

  datatype Program = Program(inputs: seq<CallArg>, commands: seq<Command>)

  /** Objects of one's own, in order, each named by its id. */
  function OwnedObjects<T>(things: seq<T>, id: T -> string): (o: seq<CallArg>)
    ensures |o| == |things|
  {
    seq(|things|, i requires 0 <= i < |things| => OwnedObject(id(things[i])))
  }

  // ----- execution

  /** What an argument position holds; Gone once the object has been used by value. */
  datatype Slot =
    | Coin(balance: nat, coinType: string)
    | Stake(principal: nat)
    | Number(n: nat)
    | Address(a: string)
    | Shared(id: string)
    | Gone

  datatype Delivery = Delivery(to: string, balance: nat, coinType: string)
  datatype StakeMade = StakeMade(validator: string, balance: nat, coinType: string)

  /**
   * gas is the gas coin without the withheld budget; delivered, staked, withdrawn and kept are the effects:
   * coins sent, coins staked, principals of withdrawn stakes, and principals split off into new stakes.
   */
  datatype State = State(gas: Slot, inputs: seq<Slot>, results: seq<Slot>,
                         delivered: seq<Delivery>, staked: seq<StakeMade>, withdrawn: seq<nat>, kept: seq<nat>)

  function Read(st: State, arg: Argument): Slot {
    match arg
    case GasCoin => st.gas
    case Input(i) => if i < |st.inputs| then st.inputs[i] else Gone
    case Result(i) => if i < |st.results| then st.results[i] else Gone
  }

  function Write(st: State, arg: Argument, slot: Slot): State {
    match arg
    case GasCoin => st.(gas := slot)
    case Input(i) => if i < |st.inputs| then st.(inputs := st.inputs[i := slot]) else st
    case Result(i) => if i < |st.results| then st.(results := st.results[i := slot]) else st
  }

  /** Takes coins of one type by value, adding up their balances; the gas coin cannot be taken. */
  function TakeCoins(st: State, args: seq<Argument>, coinType: string): Option<(State, nat)>
    decreases |args|
  {
    if args == [] then Some((st, 0))
    else
      var slot := Read(st, args[0]);
      if args[0].GasCoin? || !slot.Coin? || slot.coinType != coinType then None
      else
        match TakeCoins(Write(st, args[0], Gone), args[1..], coinType)
        case None => None
        case Some((st', total)) => Some((st', slot.balance + total))
  }

  /** Takes coins by value and hands each to an address. */
  function Deliver(st: State, args: seq<Argument>, to: string): Option<State>
    decreases |args|
  {
    if args == [] then Some(st)
    else
      var slot := Read(st, args[0]);
      if args[0].GasCoin? || !slot.Coin? then None
      else
        var taken := Write(st, args[0], Gone);
        Deliver(taken.(delivered := taken.delivered + [Delivery(to, slot.balance, slot.coinType)]), args[1..], to)
  }

  function AddResult(st: State, slot: Slot): State {
    st.(results := st.results + [slot])
  }

  /** The system state object, which staking and withdrawing take first. */
  const SUI_SYSTEM := "0x5"

  /**
   * One command. None is an aborted transaction. Splits into several coins and calls with other argument
   * shapes, which no builder here emits, are given no meaning.
   */
  function Step(st: State, c: Command): Option<State> {
    match c
    case SplitCoins(coin, amounts) =>
      if |amounts| != 1 then None
      else
        var source, amount := Read(st, coin), Read(st, amounts[0]);
        if !source.Coin? || !amount.Number? || source.balance < amount.n then None
        else Some(AddResult(Write(st, coin, source.(balance := source.balance - amount.n)), Coin(amount.n, source.coinType)))
    case MergeCoins(target, sources) =>
      if !Read(st, target).Coin? then None
      else
        (match TakeCoins(st, sources, Read(st, target).coinType)
         case None => None
         case Some((st', total)) =>
           var t := Read(st', target);
           if !t.Coin? || t.balance + total >= 0x1_0000_0000_0000_0000 then None
           else Some(AddResult(Write(st', target, t.(balance := t.balance + total)), Gone)))
    case TransferObjects(objects, to) =>
      if !Read(st, to).Address? then None
      else
        (match Deliver(st, objects, Read(st, to).a)
         case None => None
         case Some(st') => Some(AddResult(st', Gone)))
    case MoveCall(RequestAddStake, args) =>
      if |args| != 3 || Read(st, args[0]) != Shared(SUI_SYSTEM) || !Read(st, args[1]).Coin? || args[1].GasCoin?
         || !Read(st, args[2]).Address? then None
      else
        var coin := Read(st, args[1]);
        var st' := Write(st, args[1], Gone);
        Some(AddResult(st'.(staked := st'.staked + [StakeMade(Read(st, args[2]).a, coin.balance, coin.coinType)]), Gone))
    case MoveCall(RequestWithdrawStake, args) =>
      if |args| != 2 || Read(st, args[0]) != Shared(SUI_SYSTEM) || !Read(st, args[1]).Stake? then None
      else
        var st' := Write(st, args[1], Gone);
        Some(AddResult(st'.(withdrawn := st'.withdrawn + [Read(st, args[1]).principal]), Gone))
    case MoveCall(SplitStakedSui, args) =>
      if |args| != 2 || !Read(st, args[0]).Stake? || !Read(st, args[1]).Number? || Read(st, args[0]).principal < Read(st, args[1]).n then None
      else
        var n := Read(st, args[1]).n;
        var st' := Write(st, args[0], Stake(Read(st, args[0]).principal - n));
        Some(AddResult(st'.(kept := st'.kept + [n]), Gone))
  }

  function Execute(st: State, commands: seq<Command>): Option<State>
    decreases |commands|
  {
    if commands == [] then Some(st)
    else
      match Step(st, commands[0])
      case None => None
      case Some(st') => Execute(st', commands[1..])
  }

  lemma {:induction false} ExecuteConcat(st: State, c: seq<Command>, d: seq<Command>)
    ensures Execute(st, c + d) == match Execute(st, c) case None => None case Some(st') => Execute(st', d)
    decreases |c|
  {
    hide Step;
    if c == [] {
      assert c + d == d;
    } else {
      assert (c + d)[0] == c[0] && (c + d)[1..] == c[1..] + d;
      match Step(st, c[0])
      case None =>
      case Some(st') => ExecuteConcat(st', c[1..], d);
    }
  }

  /** What the chain holds: each owned object by id. */
  type World = map<string, Slot>

  function Load(world: World, arg: CallArg): Option<Slot> {
    match arg
    case PureU64(n) => Some(Number(n))
    case PureAddress(a) => Some(Address(a))
    case SharedObject(id) => Some(Shared(id))
    case OwnedObject(id) => if id in world then Some(world[id]) else None
  }

  /** No owned object is named twice, the gas coin included. */
  predicate NamedOnce(gasId: string, inputs: seq<CallArg>) {
    && (forall i :: 0 <= i < |inputs| && inputs[i].OwnedObject? ==> inputs[i].id != gasId)
    && (forall i, j :: 0 <= i < j < |inputs| && inputs[i].OwnedObject? && inputs[j].OwnedObject? ==> inputs[i].id != inputs[j].id)
  }

  predicate Loadable(world: World, inputs: seq<CallArg>) {
    forall i :: 0 <= i < |inputs| ==> Load(world, inputs[i]).Some?
  }

  /** The state a transaction starts from: the budget is withheld from the gas coin. */
  function Start(world: World, gasId: string, budget: u64, inputs: seq<CallArg>): Option<State> {
    if NamedOnce(gasId, inputs) && Loadable(world, inputs)
       && gasId in world && world[gasId].Coin? && world[gasId].balance >= budget
    then
      Some(State(Coin(world[gasId].balance - budget, world[gasId].coinType),
                 seq(|inputs|, i requires 0 <= i < |inputs| => Load(world, inputs[i]).value), [], [], [], [], []))
    else None
  }

  /** Runs a program; None means that the transaction is refused or aborts. */
  function Run(world: World, gasId: string, budget: u64, p: Program): Option<State> {
    match Start(world, gasId, budget, p.inputs)
    case None => None
    case Some(st) => Execute(st, p.commands)
  }

  // ----- execution creates and destroys no coin value

  function Worth(slot: Slot, coinType: string): nat {
    if slot.Coin? && slot.coinType == coinType then slot.balance else 0
  }

  function SlotsWorth(s: seq<Slot>, coinType: string): nat {
    if s == [] then 0 else Worth(s[0], coinType) + SlotsWorth(s[1..], coinType)
  }

  function DeliveredWorth(d: seq<Delivery>, coinType: string): nat {
    if d == [] then 0
    else (if d[|d| - 1].coinType == coinType then d[|d| - 1].balance else 0) + DeliveredWorth(d[..|d| - 1], coinType)
  }

  function StakedWorth(d: seq<StakeMade>, coinType: string): nat {
    if d == [] then 0
    else (if d[|d| - 1].coinType == coinType then d[|d| - 1].balance else 0) + StakedWorth(d[..|d| - 1], coinType)
  }

  function StateWorth(st: State, coinType: string): nat {
    Worth(st.gas, coinType) + SlotsWorth(st.inputs, coinType) + SlotsWorth(st.results, coinType)
    + DeliveredWorth(st.delivered, coinType) + StakedWorth(st.staked, coinType)
  }

  lemma {:induction false} UpdateWorth(s: seq<Slot>, i: nat, slot: Slot, coinType: string)
    requires i < |s|
    ensures SlotsWorth(s[i := slot], coinType) == SlotsWorth(s, coinType) - Worth(s[i], coinType) + Worth(slot, coinType)
  {
    if i == 0 {
      assert s[0 := slot][1..] == s[1..];
    } else {
      UpdateWorth(s[1..], i - 1, slot, coinType);
      assert s[i := slot][1..] == s[1..][i - 1 := slot];
    }
  }

  lemma {:induction false} AppendWorth(s: seq<Slot>, slot: Slot, coinType: string)
    ensures SlotsWorth(s + [slot], coinType) == SlotsWorth(s, coinType) + Worth(slot, coinType)
  {
    if s == [] {
      assert s + [slot] == [slot];
      assert SlotsWorth([slot], coinType) == Worth(slot, coinType) + SlotsWorth([], coinType);
    } else {
      AppendWorth(s[1..], slot, coinType);
      assert (s + [slot])[1..] == s[1..] + [slot];
    }
  }

  lemma WriteWorth(st: State, arg: Argument, slot: Slot, coinType: string)
    requires !Read(st, arg).Gone?
    ensures StateWorth(Write(st, arg, slot), coinType)
            == StateWorth(st, coinType) - Worth(Read(st, arg), coinType) + Worth(slot, coinType)
  {
    match arg
    case GasCoin =>
    case Input(i) => UpdateWorth(st.inputs, i, slot, coinType);
    case Result(i) => UpdateWorth(st.results, i, slot, coinType);
  }

  lemma {:induction false} TakeCoinsWorth(st: State, args: seq<Argument>, t: string, coinType: string)
    requires TakeCoins(st, args, t).Some?
    ensures var (st', total) := TakeCoins(st, args, t).value;
            StateWorth(st', coinType) + (if t == coinType then total else 0) == StateWorth(st, coinType)
    decreases |args|
  {
    if args != [] {
      WriteWorth(st, args[0], Gone, coinType);
      TakeCoinsWorth(Write(st, args[0], Gone), args[1..], t, coinType);
    }
  }

  lemma HandOverWorth(st: State, d: Delivery, coinType: string)
    ensures StateWorth(st.(delivered := st.delivered + [d]), coinType)
            == StateWorth(st, coinType) + (if d.coinType == coinType then d.balance else 0)
  {
    assert (st.delivered + [d])[..|st.delivered|] == st.delivered;
  }

  lemma {:induction false} DeliverWorth(st: State, args: seq<Argument>, to: string, coinType: string)
    requires Deliver(st, args, to).Some?
    ensures StateWorth(Deliver(st, args, to).value, coinType) == StateWorth(st, coinType)
    decreases |args|
  {
    hide StateWorth, Read, Write;
    if args != [] {
      var slot, taken := Read(st, args[0]), Write(st, args[0], Gone);
      WriteWorth(st, args[0], Gone, coinType);
      var d := Delivery(to, slot.balance, slot.coinType);
      HandOverWorth(taken, d, coinType);
      DeliverWorth(taken.(delivered := taken.delivered + [d]), args[1..], to, coinType);
    }
  }

  lemma AddResultWorth(st: State, slot: Slot, coinType: string)
    ensures StateWorth(AddResult(st, slot), coinType) == StateWorth(st, coinType) + Worth(slot, coinType)
  {
    AppendWorth(st.results, slot, coinType);
  }

  /** Every command, on any state: coins of every type keep their total. */
  lemma StepConserves(st: State, c: Command, coinType: string)
    requires Step(st, c).Some?
    ensures StateWorth(Step(st, c).value, coinType) == StateWorth(st, coinType)
  {
    hide StateWorth, AddResult, Write, Read, TakeCoins, Deliver;
    match c
    case SplitCoins(coin, amounts) => SplitConserves(st, coin, amounts, coinType);
    case MergeCoins(target, sources) => MergeConserves(st, target, sources, coinType);
    case TransferObjects(objects, to) =>
      var a := Read(st, to).a;
      DeliverWorth(st, objects, a, coinType);
      AddResultWorth(Deliver(st, objects, a).value, Gone, coinType);
    case MoveCall(call, args) => CallConserves(st, call, args, coinType);
  }

  lemma SplitConserves(st: State, coin: Argument, amounts: seq<Argument>, coinType: string)
    requires Step(st, SplitCoins(coin, amounts)).Some?
    ensures StateWorth(Step(st, SplitCoins(coin, amounts)).value, coinType) == StateWorth(st, coinType)
  {
    hide StateWorth, AddResult, Write, Read;
    var source, n := Read(st, coin), Read(st, amounts[0]).n;
    var rest := source.(balance := source.balance - n);
    WriteWorth(st, coin, rest, coinType);
    AddResultWorth(Write(st, coin, rest), Coin(n, source.coinType), coinType);
  }

  lemma MergeConserves(st: State, target: Argument, sources: seq<Argument>, coinType: string)
    requires Step(st, MergeCoins(target, sources)).Some?
    ensures StateWorth(Step(st, MergeCoins(target, sources)).value, coinType) == StateWorth(st, coinType)
  {
    hide StateWorth, AddResult, Write, Read;
    var t := Read(st, target).coinType;
    var (st', total) := TakeCoins(st, sources, t).value;
    TakeCoinsWorth(st, sources, t, coinType);
    TakeKeepsType(st, sources, t, target);
    var joined := Read(st', target).(balance := Read(st', target).balance + total);
    WriteWorth(st', target, joined, coinType);
    AddResultWorth(Write(st', target, joined), Gone, coinType);
  }

  /** Taking coins leaves every other position as it was. */
  lemma {:induction false} TakeKeepsType(st: State, args: seq<Argument>, t: string, other: Argument)
    requires TakeCoins(st, args, t).Some?
    ensures var st' := TakeCoins(st, args, t).value.0; Read(st', other) == Read(st, other) || Read(st', other).Gone?
    decreases |args|
  {
    if args != [] {
      TakeKeepsType(Write(st, args[0], Gone), args[1..], t, other);
    }
  }

  lemma CallConserves(st: State, call: Call, args: seq<Argument>, coinType: string)
    requires Step(st, MoveCall(call, args)).Some?
    ensures StateWorth(Step(st, MoveCall(call, args)).value, coinType) == StateWorth(st, coinType)
  {
    hide AddResult, Write, Read, StateWorth, Worth;
    NoWorth(Gone, coinType);
    match call
    case RequestAddStake =>
      var coin := Read(st, args[1]);
      var st' := Write(st, args[1], Gone);
      var made := StakeMade(Read(st, args[2]).a, coin.balance, coin.coinType);
      WriteWorth(st, args[1], Gone, coinType);
      CoinWorth(coin, coinType);
      StakeWorth(st', made, coinType);
      AddResultWorth(st'.(staked := st'.staked + [made]), Gone, coinType);
    case RequestWithdrawStake =>
      var st' := Write(st, args[1], Gone);
      var withdrawn := st'.withdrawn + [Read(st, args[1]).principal];
      NoWorth(Read(st, args[1]), coinType);
      WriteWorth(st, args[1], Gone, coinType);
      NotCounted(st', withdrawn, st'.kept, coinType);
      AddResultWorth(st'.(withdrawn := withdrawn), Gone, coinType);
    case SplitStakedSui =>
      var n := Read(st, args[1]).n;
      var left := Stake(Read(st, args[0]).principal - n);
      var st' := Write(st, args[0], left);
      NoWorth(left, coinType);
      NoWorth(Read(st, args[0]), coinType);
      WriteWorth(st, args[0], left, coinType);
      NotCounted(st', st'.withdrawn, st'.kept + [n], coinType);
      AddResultWorth(st'.(kept := st'.kept + [n]), Gone, coinType);
  }

  lemma StakeWorth(st: State, made: StakeMade, coinType: string)
    ensures StateWorth(st.(staked := st.staked + [made]), coinType) ==
            StateWorth(st, coinType) + if made.coinType == coinType then made.balance else 0
  {
    var s := st.staked + [made];
    assert s[..|s| - 1] == st.staked;
  }

  /** Stakes withdrawn or split off are not coins. */
  lemma NotCounted(st: State, withdrawn: seq<nat>, kept: seq<nat>, coinType: string)
    ensures StateWorth(st.(withdrawn := withdrawn, kept := kept), coinType) == StateWorth(st, coinType)
  {
  }

  lemma NoWorth(slot: Slot, coinType: string)
    requires !slot.Coin?
    ensures Worth(slot, coinType) == 0
  {
  }

  lemma CoinWorth(slot: Slot, coinType: string)
    requires slot.Coin?
    ensures Worth(slot, coinType) == if slot.coinType == coinType then slot.balance else 0
  {
  }

  /** Whole programs, whoever built them: execution conserves the coins of every type. */
  lemma {:induction false} ExecuteConserves(st: State, commands: seq<Command>, coinType: string)
    requires Execute(st, commands).Some?
    ensures StateWorth(Execute(st, commands).value, coinType) == StateWorth(st, coinType)
    decreases |commands|
  {
    hide Step, StateWorth;
    if commands != [] {
      StepConserves(st, commands[0], coinType);
      ExecuteConserves(Step(st, commands[0]).value, commands[1..], coinType);
    }
  }

  // ----- positional references

  predicate ArgumentInRange(arg: Argument, inputs: nat, earlier: nat) {
    match arg
    case GasCoin => true
    case Input(i) => i < inputs
    case Result(i) => i < earlier
  }

  function Arguments(c: Command): seq<Argument> {
    match c
    case SplitCoins(coin, amounts) => [coin] + amounts
    case MergeCoins(target, sources) => [target] + sources
    case TransferObjects(objects, to) => objects + [to]
    case MoveCall(_, args) => args
  }

  /** Every input index exists, and every result index names an earlier command. */
  ghost predicate WellFormed(p: Program) {
    forall j, k :: 0 <= j < |p.commands| && 0 <= k < |Arguments(p.commands[j])| ==>
      ArgumentInRange(Arguments(p.commands[j])[k], |p.inputs|, j)
  }
}
