/** Bitcoin transaction inputs: choosing UTXOs and comparing two attempts for conflicts. */
module BitcoinInput {
  import opened Bytes
  import opened Numbers
  import opened Sorting
  import opened Selection

  datatype Outpoint = Outpoint(hash: seq<byte>, index: uint32)

  datatype Output = Output(outpoint: Outpoint, value: int, pubKeyScript: seq<byte>, address: string)

  const ValueOf: Output -> int := (o: Output) => o.value

  const HigherFirst: (Output, Output) -> bool := (x: Output, y: Output) => x.value >= y.value

  /**
   * filtered holds the largest outputs of original: k of them, the size of the smallest selection that
   * reaches the target (all, when none does), or more when minUtxo asks for more.
   */
  ghost predicate IsMinSelection(original: seq<Output>, filtered: seq<Output>, target: int, minUtxo: int, k: nat) {
    && IsLargest(original, filtered)
    && |filtered| == Max(k, Min(minUtxo, |original|))
    && (|| LeastCount(original, ValueOf, target, 0, k)
        || (Unreachable(original, ValueOf, target, 0) && k == |original|))
  }

  /** No selection of as many outputs from original is worth more than filtered. */
  ghost predicate IsLargest(original: seq<Output>, filtered: seq<Output>) {
    && multiset(filtered) <= multiset(original)
    && forall t: seq<Output> :: multiset(t) <= multiset(original) && |t| == |filtered|
                                ==> Sum(t, ValueOf) <= Sum(filtered, ValueOf)
  }

  lemma PrefixIsLargest(original: seq<Output>, s: seq<Output>, m: nat)
    requires multiset(s) == multiset(original) && Descending(s, ValueOf) && m <= |s|
    ensures IsLargest(original, s[..m])
  {
    assert s == s[..m] + s[m..];
    forall t: seq<Output> | multiset(t) <= multiset(original) && |t| == m
      ensures Sum(t, ValueOf) <= Sum(s[..m], ValueOf)
    {
      LeadingIsHeaviest(s, t, ValueOf);
    }
  }

  /** Sorting is skipped for fewer than two outputs. */
  method SortHighestFirst(a: array<Output>)
    modifies a
    ensures multiset(a[..]) == multiset(old(a[..])) && Descending(a[..], ValueOf)
  {
    if a.Length > 1 {
      SortSlice(a, HigherFirst);
      assert SortedBy(a[..], HigherFirst);
    }
  }

  method FilterForMinUtxoSet(unspentOutputs: array<Output>, targetAmount: int, minUtxo: int)
    returns (filtered: seq<Output>, ghost k: nat)
    modifies unspentOutputs
    ensures multiset(unspentOutputs[..]) == multiset(old(unspentOutputs[..]))
    ensures Descending(unspentOutputs[..], ValueOf)
    ensures |filtered| <= unspentOutputs.Length && filtered == unspentOutputs[..|filtered|]
    ensures IsMinSelection(old(unspentOutputs[..]), filtered, targetAmount, minUtxo, k)
  {
    ghost var original := unspentOutputs[..];
    SortHighestFirst(unspentOutputs);
    filtered := TakeUntilCovered(unspentOutputs[..], targetAmount);
    k := |filtered|;
    filtered := TopUp(unspentOutputs[..], filtered, minUtxo);
    FirstCoveringIsLeast(original, unspentOutputs[..], targetAmount, k);
    PrefixIsLargest(original, unspentOutputs[..], |filtered|);
    SubMultisetLength(original, unspentOutputs[..]);
    SubMultisetLength(unspentOutputs[..], original);
  }

  /** k is the first prefix length to reach the target, or the whole length. */
  ghost predicate FirstCovering(s: seq<Output>, target: int, k: nat) {
    && k <= |s|
    && (forall j :: 0 <= j < k ==> Sum(s[..j], ValueOf) < target)
    && (k < |s| ==> Sum(s[..k], ValueOf) >= target)
  }

  lemma FirstCoveringIsLeast(original: seq<Output>, s: seq<Output>, target: int, k: nat)
    requires multiset(s) == multiset(original) && Descending(s, ValueOf)
    requires FirstCovering(s, target, k)
    ensures || LeastCount(original, ValueOf, target, 0, k)
            || (Unreachable(original, ValueOf, target, 0) && k == |s|)
  {
    if Sum(s[..k], ValueOf) >= target {
      FirstPrefixIsLeast(original, s, ValueOf, target, 0, k);
    } else {
      NoPrefixReaches(original, s, ValueOf, target, 0);
    }
  }

  /** The loop that takes outputs until the target is covered. */
  method TakeUntilCovered(s: seq<Output>, targetAmount: int) returns (filtered: seq<Output>)
    ensures FirstCovering(s, targetAmount, |filtered|) && filtered == s[..|filtered|]
  {
    filtered := [];
    var balance := 0;
    assert Sum(s[..0], ValueOf) == 0;
    for index := 0 to |s|
      invariant filtered == s[..index]
      invariant balance == Sum(s[..index], ValueOf)
      invariant forall j :: 0 <= j < index ==> Sum(s[..j], ValueOf) < targetAmount
    {
      if balance >= targetAmount {
        break;
      }
      SumExtend(s, index, ValueOf);
      filtered := filtered + [s[index]];
      balance := balance + s[index].value;
    }
  }

  /** The loop that adds further outputs until minUtxo are taken. */
  method TopUp(s: seq<Output>, taken: seq<Output>, minUtxo: int) returns (filtered: seq<Output>)
    requires |taken| <= |s| && taken == s[..|taken|]
    ensures |filtered| == Max(|taken|, Min(minUtxo, |s|)) && filtered == s[..|filtered|]
  {
    filtered := taken;
    for index := |taken| to |s|
      invariant filtered == s[..index]
      invariant index == |taken| || index <= minUtxo
    {
      if |filtered| >= minUtxo {
        break;
      }
      filtered := filtered + [s[index]];
    }
  }

  ghost function Outpoints(utxos: seq<Output>): set<Outpoint> {
    set u | u in utxos :: u.outpoint
  }

  /** True unless some outpoint is spent by both, as the nested loops find. */
  method SharesNoOutpoint(theirs: seq<Output>, ours: seq<Output>) returns (independent: bool)
    ensures independent <==> Outpoints(theirs) !! Outpoints(ours)
  {
    for i := 0 to |theirs|
      invariant Outpoints(theirs[..i]) !! Outpoints(ours)
    {
      for j := 0 to |ours|
        invariant theirs[i].outpoint !in Outpoints(ours[..j])
      {
        if theirs[i].outpoint == ours[j].outpoint {
          assert theirs[i] in theirs && ours[j] in ours;
          assert theirs[i].outpoint in Outpoints(theirs) && ours[j].outpoint in Outpoints(ours);
          return false;
        }
        assert ours[..j + 1] == ours[..j] + [ours[j]];
      }
      assert ours[..|ours|] == ours;
      assert theirs[..i + 1] == theirs[..i] + [theirs[i]];
    }
    assert theirs[..|theirs|] == theirs;
    return true;
  }

  class TxInput {
    var address: string
    var unspentOutputs: seq<Output>
    /** Zcash only: a flat fee that replaces the per-byte one when it is not zero. */
    var estimatedTotalSize: int
    var gasPricePerByte: real
    var estimatedSizePerSpentUtxo: nat

    constructor (address: string, unspentOutputs: seq<Output>, estimatedTotalSize: int,
                 gasPricePerByte: real, estimatedSizePerSpentUtxo: nat)
      ensures this.address == address && this.unspentOutputs == unspentOutputs
      ensures this.estimatedTotalSize == estimatedTotalSize && this.gasPricePerByte == gasPricePerByte
      ensures this.estimatedSizePerSpentUtxo == estimatedSizePerSpentUtxo
    {
      this.address := address;
      this.unspentOutputs := unspentOutputs;
      this.estimatedTotalSize := estimatedTotalSize;
      this.gasPricePerByte := gasPricePerByte;
      this.estimatedSizePerSpentUtxo := estimatedSizePerSpentUtxo;
    }

    method SumUtxo() returns (balance: int)
      ensures balance == Sum(unspentOutputs, ValueOf)
    {
      balance := 0;
      for i := 0 to |unspentOutputs|
        invariant balance == Sum(unspentOutputs[..i], ValueOf)
      {
        SumExtend(unspentOutputs, i, ValueOf);
        balance := balance + unspentOutputs[i].value;
      }
      assert unspentOutputs[..|unspentOutputs|] == unspentOutputs;
    }

    /** 255 bytes are assumed for each spent output when no estimate is set; the size is a 64-bit product. */
    function GetFeeLimit(): int
      reads this
    {
      if estimatedTotalSize != 0 then estimatedTotalSize
      else
        var perUtxo := if estimatedSizePerSpentUtxo == 0 then 255 else estimatedSizePerSpentUtxo;
        Truncate(gasPricePerByte * (perUtxo * |unspentOutputs| % 0x1_0000_0000_0000_0000) as real)
    }

    /** Keeps the outputs FilterForMinUtxoSet selects for the amount, with at least ten where there are ten. */
    method SetAmount(amount: int) returns (ghost k: nat)
      modifies this`unspentOutputs
      ensures IsMinSelection(old(unspentOutputs), unspentOutputs, amount, 10, k)
    {
      var a := new Output[|unspentOutputs|](i requires 0 <= i < |unspentOutputs| reads this => unspentOutputs[i]);
      assert a[..] == unspentOutputs;
      unspentOutputs, k := FilterForMinUtxoSet(a, amount, 10);
    }

    method IndependentOf(other: AnyInput) returns (independent: bool)
      ensures independent <==> !other.OtherInput? && Outpoints(other.Utxo()) !! Outpoints(unspentOutputs)
    {
      if other.OtherInput? {
        return false;
      }
      var theirs := other.GetUtxo();
      independent := SharesNoOutpoint(theirs, unspentOutputs);
    }

    method SafeFromDoubleSend(other: AnyInput) returns (safe: bool)
      ensures safe <==> !other.OtherInput? && !(Outpoints(unspentOutputs) !! Outpoints(other.Utxo()))
    {
      if other.OtherInput? {
        return false;
      }
      var independent := IndependentOf(other);
      safe := !independent;
    }
  }

  function Truncate(r: real): int {
    if r >= 0.0 then r.Floor else -(-r).Floor
  }

  /**
   * The flat fee where one is set; otherwise the price of the estimated size, 255 bytes for each output where
   * nothing else is estimated, without its fraction.
   */
  lemma FeeLimitIs(input: TxInput)
    ensures input.estimatedTotalSize != 0 ==> input.GetFeeLimit() == input.estimatedTotalSize
    ensures var perUtxo := if input.estimatedSizePerSpentUtxo == 0 then 255 else input.estimatedSizePerSpentUtxo;
            var price := input.gasPricePerByte * (perUtxo * |input.unspentOutputs| % 0x1_0000_0000_0000_0000) as real;
            var fee := input.GetFeeLimit() as real;
            input.estimatedTotalSize == 0 ==>
              if price >= 0.0 then 0.0 <= fee <= price < fee + 1.0 else fee - 1.0 < price <= fee <= 0.0
  {
  }

  /** When the outputs can pay the target and none is negative, the kept ones can. */
  lemma SelectionReaches(original: seq<Output>, filtered: seq<Output>, target: int, minUtxo: int, k: nat)
    requires IsMinSelection(original, filtered, target, minUtxo, k)
    requires !Unreachable(original, ValueOf, target, 0)
    requires forall u :: u in original ==> u.value >= 0
    ensures Sum(filtered, ValueOf) >= target
  {
    hide Sum;
    assert LeastCount(original, ValueOf, target, 0, k);
    var t := LeastWitness(original, target, k);
    SubMultisetLength(original, filtered);
    var bigger := Enlarge(original, t, |filtered|);
  }

  lemma LeastWitness(original: seq<Output>, target: int, k: nat) returns (t: seq<Output>)
    requires LeastCount(original, ValueOf, target, 0, k)
    ensures multiset(t) <= multiset(original) && |t| == k && Sum(t, ValueOf) >= target
  {
    t :| multiset(t) <= multiset(original) && |t| == k && Sum(t, ValueOf) >= target;
  }

  /** A selection can be enlarged from what is left without losing value. */
  lemma {:induction false} Enlarge(original: seq<Output>, t: seq<Output>, m: nat) returns (bigger: seq<Output>)
    requires multiset(t) <= multiset(original) && |t| <= m <= |original|
    requires forall u :: u in original ==> u.value >= 0
    ensures multiset(bigger) <= multiset(original) && |bigger| == m
    ensures Sum(bigger, ValueOf) >= Sum(t, ValueOf)
    decreases m - |t|
  {
    bigger := t;
    if |t| < m {
      var rest := multiset(original) - multiset(t);
      assert |rest| == |original| - |t|;
      var u :| u in rest;
      assert u in multiset(original);
      SumConcat(t, [u], ValueOf);
      assert Sum([u], ValueOf) == u.value + Sum([], ValueOf);
      bigger := Enlarge(original, t + [u], m);
    }
  }

  class MultiTransferInput {
    var inputs: seq<TxInput>
    var feeLimit: int

    constructor (inputs: seq<TxInput>, feeLimit: int)
      ensures this.inputs == inputs && this.feeLimit == feeLimit
    {
      this.inputs := inputs;
      this.feeLimit := feeLimit;
    }

    /** All outputs of all inputs, in order. */
    method GetUtxo() returns (utxos: seq<Output>)
      ensures utxos == AllUtxo(inputs)
    {
      var size := 0;
      for i := 0 to |inputs|
        invariant size == |AllUtxo(inputs[..i])|
      {
        AllUtxoExtend(inputs, i);
        size := size + |inputs[i].unspentOutputs|;
      }
      assert inputs[..|inputs|] == inputs;
      var filled := [];
      for i := 0 to |inputs|
        invariant filled == AllUtxo(inputs[..i])
      {
        AllUtxoExtend(inputs, i);
        for j := 0 to |inputs[i].unspentOutputs|
          invariant filled == AllUtxo(inputs[..i]) + inputs[i].unspentOutputs[..j]
        {
          filled := filled + [inputs[i].unspentOutputs[j]];
        }
        assert inputs[i].unspentOutputs[..|inputs[i].unspentOutputs|] == inputs[i].unspentOutputs;
      }
      assert |filled| == size;
      utxos := filled;
    }

    method SumUtxo() returns (balance: int)
      ensures balance == Sum(AllUtxo(inputs), ValueOf)
    {
      balance := 0;
      for i := 0 to |inputs|
        invariant balance == Sum(AllUtxo(inputs[..i]), ValueOf)
      {
        AllUtxoExtend(inputs, i);
        SumConcat(AllUtxo(inputs[..i]), inputs[i].unspentOutputs, ValueOf);
        var sum := inputs[i].SumUtxo();
        balance := balance + sum;
      }
      assert inputs[..|inputs|] == inputs;
    }

    method IndependentOf(other: AnyInput) returns (independent: bool)
      ensures independent <==> !other.OtherInput? && Outpoints(other.Utxo()) !! Outpoints(AllUtxo(inputs))
    {
      if other.OtherInput? {
        return false;
      }
      var theirs := other.GetUtxo();
      var ours := GetUtxo();
      independent := SharesNoOutpoint(theirs, ours);
    }

    method SafeFromDoubleSend(other: AnyInput) returns (safe: bool)
      ensures safe <==> !other.OtherInput? && !(Outpoints(AllUtxo(inputs)) !! Outpoints(other.Utxo()))
    {
      if other.OtherInput? {
        return false;
      }
      var independent := IndependentOf(other);
      safe := !independent;
    }
  }

  function AllUtxo(inputs: seq<TxInput>): seq<Output>
    reads inputs
  {
    if inputs == [] then [] else inputs[0].unspentOutputs + AllUtxo(inputs[1..])
  }

  lemma {:induction false} AllUtxoExtend(inputs: seq<TxInput>, i: nat)
    requires i < |inputs|
    ensures AllUtxo(inputs[..i + 1]) == AllUtxo(inputs[..i]) + inputs[i].unspentOutputs
  {
    if i == 0 {
      assert inputs[..1][1..] == [];
    } else {
      AllUtxoExtend(inputs[1..], i - 1);
      assert inputs[..i + 1][1..] == inputs[1..][..i] && inputs[..i][1..] == inputs[1..][..i - 1];
    }
  }

  /** Another attempt's input, seen through the interface that exposes its UTXOs. */
  datatype AnyInput = SingleInput(single: TxInput) | MultiInput(multi: MultiTransferInput) | OtherInput {
    ghost function Utxo(): seq<Output>
      reads if SingleInput? then {single as object} else if MultiInput? then {multi as object} else {}
      reads if MultiInput? then multi.inputs else []
    {
      match this
      case SingleInput(s) => s.unspentOutputs
      case MultiInput(m) => AllUtxo(m.inputs)
      case OtherInput => []
    }

    method GetUtxo() returns (utxos: seq<Output>)
      ensures utxos == Utxo()
    {
      match this
      case SingleInput(s) => utxos := s.unspentOutputs;
      case MultiInput(m) => utxos := m.GetUtxo();
      case OtherInput => utxos := [];
    }
  }
}
