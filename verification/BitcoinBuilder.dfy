/** Building Bitcoin transfers: inputs, change, and conservation of value. */
module BitcoinBuilder {
  import opened Wrappers
  import opened Bytes
  import opened Numbers
  import opened Selection
  import opened Sorting
  import opened BitcoinInput

  datatype Recipient = Recipient(to: string, value: int)

  /** An outpoint as it goes on the wire, with a 32-byte hash. */
  datatype WireOutpoint = WireOutpoint(hash: seq<byte>, index: uint32)

  datatype WireOutput = WireOutput(value: int, script: seq<byte>)

  datatype Tx = Tx(txIn: seq<WireOutpoint>, txOut: seq<WireOutput>, unspentOutputs: seq<Output>, recipients: seq<Recipient>)

  const TWO_63 := 0x8000_0000_0000_0000
  const TWO_64 := 0x1_0000_0000_0000_0000

  datatype BuildError = BadAddress | NotEnoughFunds

  const RecipientValue: Recipient -> int := (r: Recipient) => r.value
  const WireValue: WireOutput -> int := (w: WireOutput) => w.value

  /** copy into a zeroed 32-byte array: cut off or zero-filled. */
  function ChainHash(hash: seq<byte>): (h: seq<byte>)
    ensures |h| == 32
    ensures |hash| == 32 ==> h == hash
  {
    seq(32, i requires 0 <= i < 32 => if i < |hash| then hash[i] else 0)
  }

  function ToWire(o: Outpoint): WireOutpoint {
    WireOutpoint(ChainHash(o.hash), o.index)
  }

  function WireInputs(utxos: seq<Output>): (w: seq<WireOutpoint>)
    ensures |w| == |utxos|
  {
    seq(|utxos|, i requires 0 <= i < |utxos| => ToWire(utxos[i].outpoint))
  }

  /** Each wire input names its output's index, and its output's hash with bytes beyond 32 cut off or missing ones zero. */
  lemma WireInputsName(utxos: seq<Output>, i: nat)
    requires i < |utxos|
    ensures var o, w := utxos[i].outpoint, WireInputs(utxos)[i];
            && w.index == o.index && |w.hash| == 32 && (|o.hash| == 32 ==> w.hash == o.hash)
            && forall k :: 0 <= k < 32 ==> w.hash[k] == if k < |o.hash| then o.hash[k] else 0
  {
  }

  predicate Payable(r: Recipient, scriptOf: string -> Option<seq<byte>>) {
    scriptOf(r.to).Some? && ToInt64(r.value) >= 0
  }

  ghost predicate AllPayable(recipients: seq<Recipient>, scriptOf: string -> Option<seq<byte>>) {
    forall i :: 0 <= i < |recipients| ==> Payable(recipients[i], scriptOf)
  }

  /** One output per recipient, in order, with the recipient's script and its amount cut to 64 bits. */
  ghost predicate Pays(outs: seq<WireOutput>, recipients: seq<Recipient>, scriptOf: string -> Option<seq<byte>>) {
    && |outs| == |recipients|
    && forall i :: 0 <= i < |recipients| ==>
         && Payable(recipients[i], scriptOf)
         && outs[i] == WireOutput(ToInt64(recipients[i].value), scriptOf(recipients[i].to).value)
  }

  /** The first recipient that cannot be paid decides the error. */
  ghost predicate IsFirstUnpayable(recipients: seq<Recipient>, scriptOf: string -> Option<seq<byte>>, i: nat, error: BuildError) {
    && i < |recipients| && !Payable(recipients[i], scriptOf)
    && (forall j :: 0 <= j < i ==> Payable(recipients[j], scriptOf))
    && error == if scriptOf(recipients[i].to).None? then BadAddress else NotEnoughFunds
  }

  /** Turns recipients into outputs; scriptOf stands for address decoding and script building. */
  method Outputs(recipients: seq<Recipient>, scriptOf: string -> Option<seq<byte>>) returns (r: Result<seq<WireOutput>, BuildError>)
    ensures r.Ok? <==> AllPayable(recipients, scriptOf)
    ensures r.Ok? ==> Pays(r.value, recipients, scriptOf)
    ensures r.Err? ==> exists i :: IsFirstUnpayable(recipients, scriptOf, i, r.error)
  {
    var outs := [];
    for i := 0 to |recipients|
      invariant forall j :: 0 <= j < i ==> Payable(recipients[j], scriptOf)
      invariant Pays(outs, recipients[..i], scriptOf)
    {
      var script := scriptOf(recipients[i].to);
      if script.None? {
        assert IsFirstUnpayable(recipients, scriptOf, i, BadAddress);
        return Err(BadAddress);
      }
      var value := ToInt64(recipients[i].value);
      if value < 0 {
        assert IsFirstUnpayable(recipients, scriptOf, i, NotEnoughFunds);
        return Err(NotEnoughFunds);
      }
      outs := outs + [WireOutput(value, script.value)];
    }
    assert recipients[..|recipients|] == recipients;
    return Ok(outs);
  }

  method Inputs(utxos: seq<Output>) returns (txIn: seq<WireOutpoint>)
    ensures txIn == WireInputs(utxos)
  {
    txIn := [];
    for i := 0 to |utxos|
      invariant txIn == WireInputs(utxos)[..i]
    {
      txIn := txIn + [ToWire(utxos[i].outpoint)];
    }
  }

  predicate NonNegative(recipients: seq<Recipient>) {
    forall i :: 0 <= i < |recipients| ==> recipients[i].value >= 0
  }

  /** Every amount is one that the signed 64-bit field of a wire output holds. */
  ghost predicate Fits(recipients: seq<Recipient>) {
    forall i :: 0 <= i < |recipients| ==> 0 <= recipients[i].value < TWO_63
  }

  /**
   * Of amounts that are not negative, the wire outputs never carry more than the total, and carry exactly that
   * when no amount is cut and only then.
   */
  lemma {:induction false} WireTotal(recipients: seq<Recipient>, outs: seq<WireOutput>, scriptOf: string -> Option<seq<byte>>)
    requires Pays(outs, recipients, scriptOf) && NonNegative(recipients)
    ensures Sum(outs, WireValue) <= Sum(recipients, RecipientValue)
    ensures Sum(outs, WireValue) == Sum(recipients, RecipientValue) <==> Fits(recipients)
  {
    if recipients != [] {
      WireTotal(recipients[1..], outs[1..], scriptOf);
      assert recipients == [recipients[0]] + recipients[1..];
      assert outs[0].value == ToInt64(recipients[0].value) >= 0;
      CutLowers(recipients[0].value);
    }
  }

  lemma CutLowers(value: int)
    requires value >= 0
    ensures ToInt64(value) <= value && (ToInt64(value) == value <==> value < TWO_63)
  {
  }

  /** The recipients of a simple transfer: change goes back to the sender unless it is zero. */
  function TransferRecipients(from: string, to: string, amount: int, change: int): seq<Recipient> {
    [Recipient(to, amount)] + if change != 0 then [Recipient(from, change)] else []
  }

  predicate InInt64(value: int) {
    -TWO_63 <= value < TWO_63
  }

  /**
   * With decodable addresses, building succeeds exactly when the low 64 bits of the amount and of the change
   * both read as non-negative; for amounts a signed word holds, when neither is negative.
   */
  lemma TransferPayable(from: string, to: string, amount: int, change: int, scriptOf: string -> Option<seq<byte>>)
    requires scriptOf(from).Some? && scriptOf(to).Some?
    ensures var recipients := TransferRecipients(from, to, amount, change);
            && (AllPayable(recipients, scriptOf) <==> amount % TWO_64 < TWO_63 && change % TWO_64 < TWO_63)
            && (InInt64(amount) && InInt64(change) ==> (AllPayable(recipients, scriptOf) <==> amount >= 0 && change >= 0))
            && (Fits(recipients) <==> 0 <= amount < TWO_63 && 0 <= change < TWO_63)
  {
    hide ToInt64;
    var r := TransferRecipients(from, to, amount, change);
    ReadsNonNegative(amount);
    ReadsNonNegative(change);
    assert Payable(r[0], scriptOf) <==> amount % TWO_64 < TWO_63;
    if change != 0 {
      assert Payable(r[1], scriptOf) <==> change % TWO_64 < TWO_63;
    }
  }

  lemma ReadsNonNegative(value: int)
    ensures ToInt64(value) >= 0 <==> value % TWO_64 < TWO_63
    ensures InInt64(value) ==> (value >= 0 <==> value % TWO_64 < TWO_63)
  {
  }

  /**
   * The outputs of a returned transfer carry what is left after the fee, cut to 64 bits: outputs + fee == inputs
   * exactly when that is neither negative nor too large. The receiver gets the amount only when it is not cut.
   */
  lemma {:induction false} TransferConserves(from: string, to: string, amount: int, spent: int, fee: int,
                          outs: seq<WireOutput>, scriptOf: string -> Option<seq<byte>>)
    requires Pays(outs, TransferRecipients(from, to, amount, spent - amount - fee), scriptOf)
    ensures Sum(outs, WireValue) == (spent - fee) % TWO_64
    ensures Sum(outs, WireValue) + fee == spent <==> 0 <= spent - fee < TWO_64
    ensures outs[0].value == amount <==> 0 <= amount < TWO_63
  {
    hide Pays, TransferRecipients, Sum, ToInt64;
    var change := spent - amount - fee;
    TransferOutputs(from, to, amount, change, outs, scriptOf);
    SumOfOneOrTwo(outs);
    LowBits(amount, change);
  }

  lemma {:induction false} TransferOutputs(from: string, to: string, amount: int, change: int,
                                           outs: seq<WireOutput>, scriptOf: string -> Option<seq<byte>>)
    requires Pays(outs, TransferRecipients(from, to, amount, change), scriptOf)
    ensures |outs| == if change != 0 then 2 else 1
    ensures scriptOf(to).Some? && outs[0] == WireOutput(ToInt64(amount), scriptOf(to).value) && outs[0].value >= 0
    ensures change != 0 ==>
              scriptOf(from).Some? && outs[1] == WireOutput(ToInt64(change), scriptOf(from).value) && outs[1].value >= 0
  {
    hide ToInt64;
    var r := TransferRecipients(from, to, amount, change);
    assert Payable(r[0], scriptOf);
    if change != 0 {
      assert Payable(r[1], scriptOf);
    }
  }

  lemma WhyUnpayable(from: string, to: string, amount: int, change: int, scriptOf: string -> Option<seq<byte>>, error: BuildError)
    requires exists i :: IsFirstUnpayable(TransferRecipients(from, to, amount, change), scriptOf, i, error)
    ensures error == if scriptOf(to).None? then BadAddress else if amount % TWO_64 >= TWO_63 then NotEnoughFunds
                     else if scriptOf(from).None? then BadAddress else NotEnoughFunds
  {
    hide ToInt64;
    var r := TransferRecipients(from, to, amount, change);
    var i :| IsFirstUnpayable(r, scriptOf, i, error);
    ReadsNonNegative(amount);
    assert i > 0 ==> Payable(r[0], scriptOf);
  }

  lemma LowBits(amount: int, change: int)
    requires ToInt64(amount) >= 0 && ToInt64(change) >= 0
    ensures ToInt64(amount) + ToInt64(change) == (amount + change) % TWO_64
    ensures change == 0 ==> ToInt64(change) == 0
  {
    hide ToInt64;
    assert ToInt64(amount) % TWO_64 == amount % TWO_64;
    assert ToInt64(change) % TWO_64 == change % TWO_64;
    assert amount + change == TWO_64 * (amount / TWO_64 + change / TWO_64) + ToInt64(amount) + ToInt64(change);
  }

  lemma SumOfOneOrTwo(outs: seq<WireOutput>)
    requires |outs| == 1 || |outs| == 2
    ensures Sum(outs, WireValue) == outs[0].value + (if |outs| == 2 then outs[1].value else 0)
  {
    assert Sum(outs[1..], WireValue) == if |outs| == 2 then outs[1].value + Sum(outs[1..][1..], WireValue) else 0;
  }

  /**
   * A transfer from one input. A returned transaction spends exactly the input's UTXOs and pays the receiver the
   * amount and, unless it is zero, the sender the change that is left after the fee, each cut to 64 bits. It fails
   * where one of the two has no script or an amount that reads as negative, the receiver's deciding first.
   */
  method NewNativeTransfer(from: string, to: string, amount: int, input: TxInput, scriptOf: string -> Option<seq<byte>>)
    returns (r: Result<Tx, BuildError>)
    ensures var recipients := TransferRecipients(from, to, amount, Sum(input.unspentOutputs, ValueOf) - amount - input.GetFeeLimit());
            && (r.Ok? <==> AllPayable(recipients, scriptOf))
            && (r.Ok? ==> r.value.recipients == recipients && Pays(r.value.txOut, recipients, scriptOf))
            && (r.Err? ==> exists i :: IsFirstUnpayable(recipients, scriptOf, i, r.error))
    ensures var change := Sum(input.unspentOutputs, ValueOf) - amount - input.GetFeeLimit();
            && (r.Ok? ==>
                  && |r.value.txOut| == (if change != 0 then 2 else 1)
                  && scriptOf(to).Some? && r.value.txOut[0] == WireOutput(ToInt64(amount), scriptOf(to).value)
                  && (change != 0 ==>
                        scriptOf(from).Some? && r.value.txOut[1] == WireOutput(ToInt64(change), scriptOf(from).value)))
            && (r.Err? ==>
                  r.error == if scriptOf(to).None? then BadAddress else if amount % TWO_64 >= TWO_63 then NotEnoughFunds
                             else if scriptOf(from).None? then BadAddress else NotEnoughFunds)
    ensures r.Ok? ==> r.value.txIn == WireInputs(input.unspentOutputs) && r.value.unspentOutputs == input.unspentOutputs
    ensures var left := Sum(input.unspentOutputs, ValueOf) - input.GetFeeLimit();
            r.Ok? ==> (Sum(r.value.txOut, WireValue) == left <==> 0 <= left < TWO_64)
  {
    var totalSpend := input.SumUtxo();
    var fee := input.GetFeeLimit();
    var transferAmountAndFee := amount + fee;
    var unspentAmountMinusTransferAndFee := totalSpend - transferAmountAndFee;
    var recipients := [Recipient(to, amount)];
    if unspentAmountMinusTransferAndFee != 0 {
      recipients := recipients + [Recipient(from, unspentAmountMinusTransferAndFee)];
    }
    var txIn := Inputs(input.unspentOutputs);
    var outs := Outputs(recipients, scriptOf);
    assert recipients == TransferRecipients(from, to, amount, totalSpend - amount - fee);
    if outs.Err? {
      WhyUnpayable(from, to, amount, totalSpend - amount - fee, scriptOf, outs.error);
      return Err(outs.error);
    }
    TransferOutputs(from, to, amount, totalSpend - amount - fee, outs.value, scriptOf);
    TransferConserves(from, to, amount, totalSpend, fee, outs.value, scriptOf);
    return Ok(Tx(txIn, outs.value, input.unspentOutputs, recipients));
  }

  /** An amount of 2^64 + 50 from 100 with a fee of 10 is built: it pays 50, with change of 40. */
  method CutAmountIsPaid() returns (r: Result<Tx, BuildError>)
    ensures r.Ok? && |r.value.txOut| == 2 && r.value.txOut[0].value == 50 && r.value.txOut[1].value == 40
    ensures r.Ok? && |r.value.recipients| == 2 && r.value.recipients[1].value < 0
  {
    hide *;
    var coin := Output(Outpoint([], 0), 100, [], "");
    var input := new TxInput("from", [coin], 10, 0.0, 0);
    FeeLimitIs(input);
    SumOfOne(coin);
    var scriptOf: string -> Option<seq<byte>> := _ => Some([]);
    CutAmount(scriptOf);
    r := NewNativeTransfer("from", "to", TWO_64 + 50, input, scriptOf);
    CutOutputs(r.value.txOut, scriptOf);
  }

  lemma SumOfOne(u: Output)
    ensures Sum([u], ValueOf) == u.value
  {
    assert [u][1..] == [];
  }

  lemma CutAmount(scriptOf: string -> Option<seq<byte>>)
    requires forall a :: scriptOf(a).Some?
    ensures var recipients := TransferRecipients("from", "to", TWO_64 + 50, 40 - TWO_64);
            AllPayable(recipients, scriptOf) && |recipients| == 2 && recipients[1].value < 0
  {
    hide AllPayable, Fits;
    TransferPayable("from", "to", TWO_64 + 50, 40 - TWO_64, scriptOf);
  }

  lemma CutOutputs(outs: seq<WireOutput>, scriptOf: string -> Option<seq<byte>>)
    requires Pays(outs, TransferRecipients("from", "to", TWO_64 + 50, 40 - TWO_64), scriptOf)
    ensures |outs| == 2 && outs[0].value == 50 && outs[1].value == 40
  {
    hide Pays, TransferRecipients;
    TransferOutputs("from", "to", TWO_64 + 50, 40 - TWO_64, outs, scriptOf);
  }

  // ----- selecting outputs for the amount, then building with the fee on top

  /**
   * The input holds the outputs selected for the amount alone, and its fee counts only those. The change is not
   * negative exactly when some choice of that many outputs pays the amount and the fee. Building then succeeds
   * with no amount cut exactly when also none of those choices leaves change too large for a wire output.
   */
  lemma SelectedTransferPays(original: seq<Output>, input: TxInput, k: nat, from: string, to: string,
                             amount: int, scriptOf: string -> Option<seq<byte>>)
    requires IsMinSelection(original, input.unspentOutputs, amount, 10, k)
    requires scriptOf(from).Some? && scriptOf(to).Some?
    ensures var kept, due := input.unspentOutputs, amount + input.GetFeeLimit();
            var recipients := TransferRecipients(from, to, amount, Sum(kept, ValueOf) - due);
            && (Sum(kept, ValueOf) - due >= 0 <==> SomePay(original, |kept|, due))
            && (AllPayable(recipients, scriptOf) && Fits(recipients) <==>
                0 <= amount < TWO_63 && SomePay(original, |kept|, due) && !SomePay(original, |kept|, due + TWO_63))
    ensures |original| <= 10 ==> multiset(input.unspentOutputs) == multiset(original)
  {
    hide Sum, LeastCount, Unreachable, IsLargest, AllPayable, TransferRecipients, Fits;
    var kept, due := input.unspentOutputs, amount + input.GetFeeLimit();
    TransferPayable(from, to, amount, Sum(kept, ValueOf) - due, scriptOf);
    LargestDecides(original, kept, due);
    LargestDecides(original, kept, due + TWO_63);
    if |original| <= 10 {
      assert |kept| >= |original|;
      AllKept(original, kept);
    }
  }

  /** Some choice of m of the outputs is worth at least target. */
  ghost predicate SomePay(original: seq<Output>, m: nat, target: int) {
    exists t: seq<Output> :: multiset(t) <= multiset(original) && |t| == m && Sum(t, ValueOf) >= target
  }

  lemma LargestDecides(original: seq<Output>, kept: seq<Output>, target: int)
    requires IsLargest(original, kept)
    ensures SomePay(original, |kept|, target) <==> Sum(kept, ValueOf) >= target
  {
    hide Sum;
  }

  lemma AllKept(original: seq<Output>, kept: seq<Output>)
    requires IsLargest(original, kept) && |kept| >= |original|
    ensures multiset(kept) == multiset(original)
  {
    SubMultisetLength(original, kept);
    assert |multiset(original) - multiset(kept)| == |original| - |kept|;
    assert |multiset(original) - multiset(kept)| == 0;
  }

  /** Eleven outputs of 10 pay 100 and a fee of 5, but the ten selected for 100 do not. */
  method SelectionMayForgetFee() returns (all: Result<Tx, BuildError>, kept: Result<Tx, BuildError>)
    ensures all.Ok? && kept == Err(NotEnoughFunds)
  {
    hide *;
    var tens := seq(11, i requires 0 <= i < 11 => Output(Outpoint(seq(32, _ => 0), i), 10, [], ""));
    var scriptOf: string -> Option<seq<byte>> := _ => Some([]);
    var input := new TxInput("from", tens, 5, 0.0, 0);
    SumOfTens(tens);
    FeeLimitIs(input);
    PayableWith(scriptOf, 100, 5);
    all := NewNativeTransfer("from", "to", 100, input, scriptOf);
    ghost var k := input.SetAmount(100);
    TensSelected(tens, input.unspentOutputs, k);
    FeeLimitIs(input);
    PayableWith(scriptOf, 100, -5);
    kept := NewNativeTransfer("from", "to", 100, input, scriptOf);
  }

  lemma PayableWith(scriptOf: string -> Option<seq<byte>>, amount: int, change: int)
    requires (forall a :: scriptOf(a).Some?) && 0 <= amount <= 100 && -5 <= change <= 5
    ensures var recipients := TransferRecipients("from", "to", amount, change);
            && (AllPayable(recipients, scriptOf) <==> change >= 0)
            && forall i, error :: IsFirstUnpayable(recipients, scriptOf, i, error) ==> error == NotEnoughFunds
  {
    TransferPayable("from", "to", amount, change, scriptOf);
  }

  lemma {:induction false} SumOfTens(outputs: seq<Output>)
    requires forall u :: u in outputs ==> u.value == 10
    ensures Sum(outputs, ValueOf) == 10 * |outputs|
  {
    if outputs != [] {
      SumOfTens(outputs[1..]);
    }
  }

  lemma TensSelected(tens: seq<Output>, kept: seq<Output>, k: nat)
    requires |tens| == 11 && (forall u :: u in tens ==> u.value == 10)
    requires IsMinSelection(tens, kept, 100, 10, k)
    ensures Sum(kept, ValueOf) == 100
  {
    hide Sum, IsLargest;
    var ten := tens[..10];
    assert tens == ten + tens[10..];
    assert multiset(ten) <= multiset(tens);
    SumOfTens(ten);
    assert LeastCount(tens, ValueOf, 100, 0, k);
    assert k <= 10;
    AllTens(tens, kept);
    SumOfTens(kept);
  }

  lemma AllTens(tens: seq<Output>, kept: seq<Output>)
    requires (forall u :: u in tens ==> u.value == 10) && IsLargest(tens, kept)
    ensures forall u :: u in kept ==> u.value == 10
  {
    forall u | u in kept
      ensures u.value == 10
    {
      assert u in multiset(kept);
      assert u in multiset(tens);
    }
  }

  // ----- transfers with several spenders and receivers

  /** An input is spent when some spender has its address; the empty address never counts. */
  predicate Spendable(input: TxInput, spenders: seq<string>)
    reads input
  {
    input.address != "" && input.address in spenders
  }

  method FindSpender(input: TxInput, spenders: seq<string>) returns (spendingAddress: string)
    ensures spendingAddress == if Spendable(input, spenders) then input.address else ""
  {
    for i := 0 to |spenders|
      invariant input.address !in spenders[..i]
    {
      if spenders[i] == input.address {
        return spenders[i];
      }
    }
    return "";
  }

  /** The outputs of the spendable inputs, in order, each marked with the spending address. */
  function Spent(inputs: seq<TxInput>, spenders: seq<string>): seq<Output>
    reads inputs
  {
    if inputs == [] then []
    else (if Spendable(inputs[0], spenders) then Marked(inputs[0].unspentOutputs, inputs[0].address) else [])
         + Spent(inputs[1..], spenders)
  }

  /** What is spent: the outputs, marked with their input's address, of inputs with a spender's address that is not empty. */
  lemma {:induction false} SpentMembers(inputs: seq<TxInput>, spenders: seq<string>, u: Output)
    ensures u in Spent(inputs, spenders) <==>
            exists i, j :: 0 <= i < |inputs| && 0 <= j < |inputs[i].unspentOutputs| && inputs[i].address != ""
                           && inputs[i].address in spenders
                           && u == inputs[i].unspentOutputs[j].(address := inputs[i].address)
  {
    if inputs != [] {
      var head, tail := inputs[0], inputs[1..];
      SpentMembers(tail, spenders, u);
      var marked := Marked(head.unspentOutputs, head.address);
      if u in Spent(tail, spenders) {
        var i, j :| 0 <= i < |tail| && 0 <= j < |tail[i].unspentOutputs| && tail[i].address != ""
                    && tail[i].address in spenders && u == tail[i].unspentOutputs[j].(address := tail[i].address);
        assert inputs[i + 1] == tail[i];
      } else if u in Spent(inputs, spenders) {
        var j :| 0 <= j < |marked| && marked[j] == u;
        assert u == inputs[0].unspentOutputs[j].(address := inputs[0].address);
      }
      if i, j :| 0 <= i < |inputs| && 0 <= j < |inputs[i].unspentOutputs| && inputs[i].address != ""
                 && inputs[i].address in spenders && u == inputs[i].unspentOutputs[j].(address := inputs[i].address) {
        if i == 0 {
          assert marked[j] == u;
        } else {
          assert tail[i - 1] == inputs[i];
        }
      }
    }
  }

  function Marked(utxos: seq<Output>, address: string): (m: seq<Output>)
    ensures |m| == |utxos|
  {
    seq(|utxos|, i requires 0 <= i < |utxos| => utxos[i].(address := address))
  }

  lemma {:induction false} MarkedSum(utxos: seq<Output>, address: string)
    ensures Sum(Marked(utxos, address), ValueOf) == Sum(utxos, ValueOf)
  {
    if utxos != [] {
      MarkedSum(utxos[1..], address);
      assert Marked(utxos, address)[1..] == Marked(utxos[1..], address);
    }
  }

  // ----- change, on what the spendable inputs bring in

  /** What each spendable input brings in, in order, under its address. */
  function Supplies(inputs: seq<TxInput>, spenders: seq<string>): seq<Recipient>
    reads inputs
  {
    if inputs == [] then []
    else
      (if Spendable(inputs[0], spenders) then [Recipient(inputs[0].address, Sum(inputs[0].unspentOutputs, ValueOf))] else [])
      + Supplies(inputs[1..], spenders)
  }

  /** A supply that covers what is owed is changed and settles it; any other goes toward it entirely. */
  function ChangeFrom(supplies: seq<Recipient>, owed: int): seq<Recipient> {
    if supplies == [] then []
    else if supplies[0].value >= owed then
      [Recipient(supplies[0].to, supplies[0].value - owed)] + ChangeFrom(supplies[1..], 0)
    else ChangeFrom(supplies[1..], owed - supplies[0].value)
  }

  /** What is left unpaid. */
  function Unmet(supplies: seq<Recipient>, owed: int): int {
    if supplies == [] then owed
    else Unmet(supplies[1..], if supplies[0].value >= owed then 0 else owed - supplies[0].value)
  }

  lemma {:induction false} SuppliesTotal(inputs: seq<TxInput>, spenders: seq<string>)
    ensures Sum(Supplies(inputs, spenders), RecipientValue) == Sum(Spent(inputs, spenders), ValueOf)
  {
    hide Marked, Spendable;
    if inputs != [] {
      var head := inputs[0];
      SuppliesTotal(inputs[1..], spenders);
      if Spendable(head, spenders) {
        MarkedSum(head.unspentOutputs, head.address);
        SumConcat(Marked(head.unspentOutputs, head.address), Spent(inputs[1..], spenders), ValueOf);
        assert Supplies(inputs, spenders)[1..] == Supplies(inputs[1..], spenders);
      } else {
        assert Supplies(inputs, spenders) == Supplies(inputs[1..], spenders);
        assert Spent(inputs, spenders) == Spent(inputs[1..], spenders);
      }
    }
  }

  /** Change is what is brought in less what is paid off, for any amounts. */
  lemma {:induction false} ChangeTotal(supplies: seq<Recipient>, owed: int)
    ensures Sum(ChangeFrom(supplies, owed), RecipientValue) ==
            Sum(supplies, RecipientValue) - (owed - Unmet(supplies, owed))
  {
    if supplies != [] {
      var next := if supplies[0].value >= owed then 0 else owed - supplies[0].value;
      ChangeTotal(supplies[1..], next);
      assert supplies[0].value >= owed ==> ChangeFrom(supplies, owed)[1..] == ChangeFrom(supplies[1..], 0);
    }
  }

  /** What is left unpaid is exactly what the supplies fall short of, and no change output is negative. */
  lemma {:induction false} UnmetIsShortfall(supplies: seq<Recipient>, owed: int)
    requires NonNegative(supplies) && owed >= 0
    ensures Sum(supplies, RecipientValue) >= 0
    ensures Unmet(supplies, owed) == Max(0, owed - Sum(supplies, RecipientValue))
    ensures NonNegative(ChangeFrom(supplies, owed))
  {
    if supplies != [] {
      UnmetIsShortfall(supplies[1..], if supplies[0].value >= owed then 0 else owed - supplies[0].value);
    }
  }

  /** The change of supply i alone: what it brought in less what was still owed, if it covers that. */
  function BackOf(supplies: seq<Recipient>, i: nat, owed: int): seq<Recipient>
    requires i < |supplies|
  {
    var due := Max(0, owed - Sum(supplies[..i], RecipientValue));
    if supplies[i].value >= due then [Recipient(supplies[i].to, supplies[i].value - due)] else []
  }

  function BackOfFirst(supplies: seq<Recipient>, n: nat, owed: int): seq<Recipient>
    requires n <= |supplies|
  {
    if n == 0 then [] else BackOfFirst(supplies, n - 1, owed) + BackOf(supplies, n - 1, owed)
  }

  /**
   * Change in closed form: each input's own change in input order, at most one output for each, to its own
   * address and of what it brought in less what the inputs before it left owed.
   */
  lemma ChangeIsOwn(supplies: seq<Recipient>, owed: int)
    requires NonNegative(supplies) && owed >= 0
    ensures ChangeFrom(supplies, owed) == BackOfFirst(supplies, |supplies|, owed)
  {
    OwnUpTo(supplies, |supplies|, owed);
    assert supplies[|supplies|..] == [];
  }

  lemma {:induction false} OwnUpTo(supplies: seq<Recipient>, n: nat, owed: int)
    requires NonNegative(supplies) && owed >= 0 && n <= |supplies|
    ensures ChangeFrom(supplies, owed) ==
            BackOfFirst(supplies, n, owed)
            + ChangeFrom(supplies[n..], Max(0, owed - Sum(supplies[..n], RecipientValue)))
  {
    hide BackOf, ChangeFrom;
    if n == 0 {
      assert supplies[..0] == [] && supplies[0..] == supplies;
    } else {
      OwnUpTo(supplies, n - 1, owed);
      OwnNext(supplies, n - 1, owed);
      ConcatAssociates(BackOfFirst(supplies, n - 1, owed), BackOf(supplies, n - 1, owed),
                       ChangeFrom(supplies[n..], Max(0, owed - Sum(supplies[..n], RecipientValue))));
    }
  }

  lemma OwnNext(supplies: seq<Recipient>, i: nat, owed: int)
    requires NonNegative(supplies) && owed >= 0 && i < |supplies|
    ensures ChangeFrom(supplies[i..], Max(0, owed - Sum(supplies[..i], RecipientValue))) ==
            BackOf(supplies, i, owed)
            + ChangeFrom(supplies[i + 1..], Max(0, owed - Sum(supplies[..i + 1], RecipientValue)))
  {
    hide Sum;
    SumExtend(supplies, i, RecipientValue);
    var rest := supplies[i..];
    assert rest[0] == supplies[i] && rest[1..] == supplies[i + 1..];
  }

  /** What goes to one address. */
  function PaidTo(recipients: seq<Recipient>, address: string): int {
    if recipients == [] then 0
    else (if recipients[0].to == address then recipients[0].value else 0) + PaidTo(recipients[1..], address)
  }

  /** No address gets back more than it supplied; with nothing owed it gets back exactly that. */
  lemma {:induction false} NobodyGains(supplies: seq<Recipient>, owed: int, address: string)
    requires NonNegative(supplies) && owed >= 0
    ensures PaidTo(ChangeFrom(supplies, owed), address) <= PaidTo(supplies, address)
    ensures owed == 0 ==> ChangeFrom(supplies, owed) == supplies
  {
    if supplies != [] {
      NobodyGains(supplies[1..], if supplies[0].value >= owed then 0 else owed - supplies[0].value, address);
      if supplies[0].value >= owed {
        assert ChangeFrom(supplies, owed)[1..] == ChangeFrom(supplies[1..], 0);
      }
    }
  }

  /** One input of the loop: change if it covers what remains, otherwise all of it goes toward it. */
  method SpendInput(input: TxInput, spendingAddress: string, remaining: int)
    returns (change: seq<Recipient>, remaining': int)
    ensures var supply := [Recipient(spendingAddress, Sum(input.unspentOutputs, ValueOf))];
            change == ChangeFrom(supply, remaining) && remaining' == Unmet(supply, remaining)
  {
    var totalSpendForAddr := input.SumUtxo();
    if totalSpendForAddr >= remaining {
      change := [Recipient(spendingAddress, totalSpendForAddr - remaining)];
      remaining' := 0;
    } else {
      change := [];
      remaining' := remaining - totalSpendForAddr;
    }
  }

  method MarkAll(utxos: seq<Output>, address: string) returns (marked: seq<Output>)
    ensures marked == Marked(utxos, address)
  {
    marked := [];
    for j := 0 to |utxos|
      invariant marked == Marked(utxos, address)[..j]
    {
      marked := marked + [utxos[j].(address := address)];
    }
  }

  /**
   * The loop over the inputs. Whatever of owed the spent outputs do not cover is left in remaining; it is
   * not reported as an error.
   */
  method Distribute(inputs: seq<TxInput>, spenders: seq<string>, owed: int)
    returns (change: seq<Recipient>, spent: seq<Output>, remaining: int)
    ensures spent == Spent(inputs, spenders)
    ensures change == ChangeFrom(Supplies(inputs, spenders), owed)
    ensures remaining == Unmet(Supplies(inputs, spenders), owed)
  {
    hide Sum, Marked, Spendable, Spent, Supplies, ChangeFrom, Unmet;
    change, spent, remaining := [], [], owed;
    assert inputs[0..] == inputs;
    for i := 0 to |inputs|
      invariant Spent(inputs, spenders) == spent + Spent(inputs[i..], spenders)
      invariant ChangeFrom(Supplies(inputs, spenders), owed) == change + ChangeFrom(Supplies(inputs[i..], spenders), remaining)
      invariant Unmet(Supplies(inputs, spenders), owed) == Unmet(Supplies(inputs[i..], spenders), remaining)
    {
      HeadInput(inputs, spenders, i);
      SpendableAddress(inputs[i], spenders);
      var spendingAddress := FindSpender(inputs[i], spenders);
      if spendingAddress != "" {
        var back, remaining' := SpendInput(inputs[i], spendingAddress, remaining);
        var marked := MarkAll(inputs[i].unspentOutputs, spendingAddress);
        ghost var supply := Recipient(spendingAddress, Sum(inputs[i].unspentOutputs, ValueOf));
        HeadSupply(supply, Supplies(inputs[i + 1..], spenders), remaining);
        ConcatAssociates(change, back, ChangeFrom(Supplies(inputs[i + 1..], spenders), remaining'));
        ConcatAssociates(spent, marked, Spent(inputs[i + 1..], spenders));
        change, spent, remaining := change + back, spent + marked, remaining';
      } else {
        assert [] + Supplies(inputs[i + 1..], spenders) == Supplies(inputs[i + 1..], spenders);
        assert [] + Spent(inputs[i + 1..], spenders) == Spent(inputs[i + 1..], spenders);
      }
    }
    NothingLeft(inputs, spenders, remaining);
  }

  lemma HeadInput(inputs: seq<TxInput>, spenders: seq<string>, i: nat)
    requires i < |inputs|
    ensures Spent(inputs[i..], spenders) ==
            (if Spendable(inputs[i], spenders) then Marked(inputs[i].unspentOutputs, inputs[i].address) else [])
            + Spent(inputs[i + 1..], spenders)
    ensures Supplies(inputs[i..], spenders) ==
            (if Spendable(inputs[i], spenders) then [Recipient(inputs[i].address, Sum(inputs[i].unspentOutputs, ValueOf))] else [])
            + Supplies(inputs[i + 1..], spenders)
  {
    assert inputs[i..][1..] == inputs[i + 1..];
  }

  lemma HeadSupply(supply: Recipient, rest: seq<Recipient>, owed: int)
    ensures ChangeFrom([supply] + rest, owed) == ChangeFrom([supply], owed) + ChangeFrom(rest, Unmet([supply], owed))
    ensures Unmet([supply] + rest, owed) == Unmet(rest, Unmet([supply], owed))
  {
    assert ([supply] + rest)[1..] == rest && [supply][1..] == [];
  }

  lemma NothingLeft(inputs: seq<TxInput>, spenders: seq<string>, remaining: int)
    ensures Spent(inputs[|inputs|..], spenders) == []
    ensures ChangeFrom(Supplies(inputs[|inputs|..], spenders), remaining) == []
    ensures Unmet(Supplies(inputs[|inputs|..], spenders), remaining) == remaining
  {
  }

  lemma SpendableAddress(input: TxInput, spenders: seq<string>)
    ensures Spendable(input, spenders) ==> input.address != ""
  {
  }

  /** The recipients of a multi-transfer: the receivers, then the change of the spendable inputs. */
  function MultiRecipients(receivers: seq<Recipient>, inputs: seq<TxInput>, spenders: seq<string>, fee: int): seq<Recipient>
    reads inputs
  {
    receivers + ChangeFrom(Supplies(inputs, spenders), Sum(receivers, RecipientValue) + fee)
  }

  /** The receivers come first, as given; change goes to addresses of inputs that have a spender. */
  lemma MultiRecipientsPay(receivers: seq<Recipient>, inputs: seq<TxInput>, spenders: seq<string>, fee: int, k: nat)
    ensures var recipients := MultiRecipients(receivers, inputs, spenders, fee);
            && receivers <= recipients
            && (|receivers| <= k < |recipients| ==>
                  exists i :: 0 <= i < |inputs| && inputs[i].address == recipients[k].to
                              && recipients[k].to != "" && recipients[k].to in spenders)
  {
    hide Supplies, ChangeFrom;
    var supplies, owed := Supplies(inputs, spenders), Sum(receivers, RecipientValue) + fee;
    var recipients := MultiRecipients(receivers, inputs, spenders, fee);
    if |receivers| <= k < |recipients| {
      var c := ChangeFrom(supplies, owed)[k - |receivers|];
      var s := ChangeOfSupply(supplies, owed, c);
      SupplyOfInput(inputs, spenders, s);
    }
  }

  lemma {:induction false} ChangeOfSupply(supplies: seq<Recipient>, owed: int, c: Recipient) returns (s: Recipient)
    requires c in ChangeFrom(supplies, owed)
    ensures s in supplies && s.to == c.to
  {
    if supplies[0].value >= owed && c == Recipient(supplies[0].to, supplies[0].value - owed) {
      s := supplies[0];
    } else {
      s := ChangeOfSupply(supplies[1..], if supplies[0].value >= owed then 0 else owed - supplies[0].value, c);
    }
  }

  lemma {:induction false} SupplyOfInput(inputs: seq<TxInput>, spenders: seq<string>, s: Recipient)
    requires s in Supplies(inputs, spenders)
    ensures exists i :: 0 <= i < |inputs| && inputs[i].address == s.to && s.to != "" && s.to in spenders
                        && s.value == Sum(inputs[i].unspentOutputs, ValueOf)
  {
    hide Sum;
    if s in Supplies(inputs[1..], spenders) {
      SupplyOfInput(inputs[1..], spenders, s);
      var i :| 0 <= i < |inputs[1..]| && inputs[1..][i].address == s.to && s.to != "" && s.to in spenders
               && s.value == Sum(inputs[1..][i].unspentOutputs, ValueOf);
      assert inputs[i + 1] == inputs[1..][i];
    } else {
      assert inputs[0].address == s.to;
    }
  }

  /**
   * Builds exactly when every recipient can be paid. A returned transaction spends the outputs of the
   * spendable inputs and pays the receivers and each such input's change, nothing else.
   */
  method MultiTransfer(receivers: seq<Recipient>, spenders: seq<string>, input: MultiTransferInput,
                       scriptOf: string -> Option<seq<byte>>)
    returns (r: Result<Tx, BuildError>)
    ensures var recipients := MultiRecipients(receivers, input.inputs, spenders, input.feeLimit);
            && (r.Ok? <==> AllPayable(recipients, scriptOf))
            && (r.Ok? ==> r.value.recipients == recipients && Pays(r.value.txOut, recipients, scriptOf))
            && (r.Err? ==> exists i :: IsFirstUnpayable(recipients, scriptOf, i, r.error))
    ensures r.Ok? ==> r.value.unspentOutputs == Spent(input.inputs, spenders)
    ensures r.Ok? ==> r.value.txIn == WireInputs(Spent(input.inputs, spenders))
  {
    hide Spent, Supplies, ChangeFrom, AllPayable, Pays, IsFirstUnpayable;
    var transferAmount := SumReceivers(receivers);
    var fee := input.feeLimit;
    var transferAmountAndFee := transferAmount + fee;
    var change, unspentOutputs, remaining := Distribute(input.inputs, spenders, transferAmountAndFee);
    var recipients := receivers + change;
    assert recipients == MultiRecipients(receivers, input.inputs, spenders, fee);
    var txIn := Inputs(unspentOutputs);
    var outs := Outputs(recipients, scriptOf);
    if outs.Err? {
      return Err(outs.error);
    }
    return Ok(Tx(txIn, outs.value, unspentOutputs, recipients));
  }

  /**
   * Outputs plus fee equal what is spent plus what that falls short of, which is carried in the equation
   * because the code accepts it.
   */
  lemma MultiTransferConserves(receivers: seq<Recipient>, inputs: seq<TxInput>, spenders: seq<string>, fee: int)
    requires NonNegative(Supplies(inputs, spenders)) && Sum(receivers, RecipientValue) + fee >= 0
    ensures var spent := Sum(Spent(inputs, spenders), ValueOf);
            Sum(MultiRecipients(receivers, inputs, spenders, fee), RecipientValue) + fee ==
            spent + Max(0, Sum(receivers, RecipientValue) + fee - spent)
    ensures var spent := Sum(Spent(inputs, spenders), ValueOf);
            Sum(MultiRecipients(receivers, inputs, spenders, fee), RecipientValue) + fee == spent <==>
            Sum(receivers, RecipientValue) + fee <= spent
  {
    hide Supplies, Spent, ChangeFrom, Unmet, Sum, NonNegative;
    var supplies, owed := Supplies(inputs, spenders), Sum(receivers, RecipientValue) + fee;
    SumConcat(receivers, ChangeFrom(supplies, owed), RecipientValue);
    ChangeTotal(supplies, owed);
    UnmetIsShortfall(supplies, owed);
    SuppliesTotal(inputs, spenders);
  }

  /**
   * On the wire, a built transaction that its inputs cover gives up nothing but the fee exactly when no amount is
   * cut to 64 bits; one whose amounts are not cut, exactly when its inputs cover it.
   */
  lemma MultiTransferOnWire(receivers: seq<Recipient>, inputs: seq<TxInput>, spenders: seq<string>, fee: nat,
                            outs: seq<WireOutput>, scriptOf: string -> Option<seq<byte>>)
    requires NonNegative(Supplies(inputs, spenders)) && NonNegative(receivers)
    requires Pays(outs, MultiRecipients(receivers, inputs, spenders, fee), scriptOf)
    ensures var spent, recipients := Sum(Spent(inputs, spenders), ValueOf), MultiRecipients(receivers, inputs, spenders, fee);
            && (Sum(receivers, RecipientValue) + fee <= spent ==> (Sum(outs, WireValue) + fee == spent <==> Fits(recipients)))
            && (Fits(recipients) ==> (Sum(outs, WireValue) + fee == spent <==> Sum(receivers, RecipientValue) + fee <= spent))
  {
    hide Supplies, Spent, ChangeFrom, Unmet, Sum, Pays, Fits;
    var change := ChangeFrom(Supplies(inputs, spenders), Sum(receivers, RecipientValue) + fee);
    NonNegativeSum(receivers);
    UnmetIsShortfall(Supplies(inputs, spenders), Sum(receivers, RecipientValue) + fee);
    assert NonNegative(receivers + change);
    MultiTransferConserves(receivers, inputs, spenders, fee);
    WireTotal(receivers + change, outs, scriptOf);
  }

  lemma {:induction false} NonNegativeSum(recipients: seq<Recipient>)
    requires NonNegative(recipients)
    ensures Sum(recipients, RecipientValue) >= 0
  {
    if recipients != [] {
      NonNegativeSum(recipients[1..]);
    }
  }

  /** A receiver of 100 is paid from a single input of 10. */
  method MultiTransferMayOverspend() returns (r: Result<Tx, BuildError>)
    ensures r.Ok? && |r.value.txOut| == 1 && r.value.txOut[0].value == 100
    ensures r.Ok? && Sum(r.value.unspentOutputs, ValueOf) == 10
  {
    hide *;
    var ten := Output(Outpoint([], 0), 10, [], "from");
    var single := new TxInput("from", [ten], 0, 0.0, 0);
    var input := new MultiTransferInput([single], 0);
    var scriptOf: string -> Option<seq<byte>> := _ => Some([]);
    OneInputSpent(single, ten);
    HundredPaid(scriptOf);
    r := MultiTransfer([Recipient("to", 100)], ["from"], input, scriptOf);
  }

  lemma HundredPaid(scriptOf: string -> Option<seq<byte>>)
    requires scriptOf("to").Some?
    ensures AllPayable([Recipient("to", 100)], scriptOf)
    ensures forall outs: seq<WireOutput> :: Pays(outs, [Recipient("to", 100)], scriptOf) ==> |outs| == 1 && outs[0].value == 100
  {
  }

  lemma OneInputSpent(input: TxInput, ten: Output)
    requires input.address == "from" && input.unspentOutputs == [ten] && ten.value == 10 && ten.address == "from"
    ensures Spent([input], ["from"]) == [ten] && Sum([ten], ValueOf) == 10
    ensures MultiRecipients([Recipient("to", 100)], [input], ["from"], 0) == [Recipient("to", 100)]
  {
    SumOfOne(ten);
    var supply, receivers := Recipient("from", 10), [Recipient("to", 100)];
    assert Supplies([input], ["from"]) == [supply];
    assert Sum(receivers, RecipientValue) == 100 + Sum(receivers[1..], RecipientValue) == 100;
    assert ChangeFrom([supply], 100) == ChangeFrom([supply][1..], 90) == [];
  }

  method SumReceivers(receivers: seq<Recipient>) returns (transferAmount: int)
    ensures transferAmount == Sum(receivers, RecipientValue)
  {
    transferAmount := 0;
    for i := 0 to |receivers|
      invariant transferAmount == Sum(receivers[..i], RecipientValue)
    {
      SumExtend(receivers, i, RecipientValue);
      transferAmount := transferAmount + receivers[i].value;
    }
    assert receivers[..|receivers|] == receivers;
  }

  /** The transaction spends all of GetUtxo exactly when no input with outputs is left without a spender. */
  lemma {:induction false} SpendsEverything(inputs: seq<TxInput>, spenders: seq<string>)
    ensures WireInputs(Spent(inputs, spenders)) == WireInputs(AllUtxo(inputs))
            <==> forall i :: 0 <= i < |inputs| && inputs[i].unspentOutputs != [] ==> Spendable(inputs[i], spenders)
    ensures |Spent(inputs, spenders)| <= |AllUtxo(inputs)|
    ensures |Spent(inputs, spenders)| == |AllUtxo(inputs)|
            <==> forall i :: 0 <= i < |inputs| && inputs[i].unspentOutputs != [] ==> Spendable(inputs[i], spenders)
  {
    if inputs != [] {
      SpendsEverything(inputs[1..], spenders);
      assert inputs == [inputs[0]] + inputs[1..];
      var head, tail := inputs[0], inputs[1..];
      if forall i :: 0 <= i < |inputs| && inputs[i].unspentOutputs != [] ==> Spendable(inputs[i], spenders) {
        forall i | 0 <= i < |tail| && tail[i].unspentOutputs != []
          ensures Spendable(tail[i], spenders)
        {
          assert tail[i] == inputs[i + 1];
        }
        WireAppend(Marked(head.unspentOutputs, head.address), Spent(tail, spenders), head.unspentOutputs, AllUtxo(tail));
      }
    }
  }

  lemma WireAppend(a: seq<Output>, b: seq<Output>, c: seq<Output>, d: seq<Output>)
    requires |a| == |c| && forall i :: 0 <= i < |a| ==> a[i].outpoint == c[i].outpoint
    requires WireInputs(b) == WireInputs(d)
    ensures WireInputs(a + b) == WireInputs(c + d)
  {
    assert |b| == |WireInputs(b)| == |d|;
    forall i | 0 <= i < |a| + |b|
      ensures ToWire((a + b)[i].outpoint) == ToWire((c + d)[i].outpoint)
    {
      if i >= |a| {
        assert WireInputs(b)[i - |a|] == WireInputs(d)[i - |a|];
      }
    }
  }
}
