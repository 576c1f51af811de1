/** The Zcash version 4 transaction encoding and a parser that recovers what was serialized. */
module ZcashTx {
  import opened Wrappers
  import opened Bytes
  import opened Sorting

  type int64 = x: int | -0x8000_0000_0000_0000 <= x < 0x8000_0000_0000_0000

  /** The serialized part of an input; the spent script and amount only enter signature hashes. */
  datatype TxInput = TxInput(txId: seq<byte>, index: uint32, signatureScript: seq<byte>, nSequence: uint32)

  datatype TxOutput = TxOutput(amount: int64, scriptPubkey: seq<byte>)

  datatype Tx = Tx(version: uint32, versionGroupId: uint32, inputs: seq<TxInput>, outputs: seq<TxOutput>,
                   lockTime: uint32, expiryHeight: uint32)

  // ----- encoding

  /** CompactSize: one byte, or a marker and two, four or eight bytes. */
  function VarInt(n: nat): (s: seq<byte>)
    ensures s != []
  {
    if n < 0xfd then [n]
    else if n <= 0xffff then [0xfd] + LeBytes(n, 2)
    else if n <= 0xffff_ffff then [0xfe] + LeBytes(n, 4)
    else [0xff] + LeBytes(n, 8)
  }

  /** The shortest form that holds the number is used. */
  lemma VarIntIsShortest(n: nat)
    ensures |VarInt(n)| == 1 <==> n < 0xfd
    ensures |VarInt(n)| == 3 <==> 0xfd <= n <= 0xffff
    ensures |VarInt(n)| == 5 <==> 0xffff < n <= 0xffff_ffff
    ensures |VarInt(n)| == 9 <==> 0xffff_ffff < n
  {
  }

  function VarBytes(s: seq<byte>): seq<byte> {
    VarInt(|s|) + s
  }

  function Outpoint(i: TxInput): seq<byte> {
    i.txId + LeBytes(i.index, 4)
  }

  function EncodeInput(i: TxInput): seq<byte> {
    Outpoint(i) + VarBytes(i.signatureScript) + LeBytes(i.nSequence, 4)
  }

  function EncodeOutput(o: TxOutput): seq<byte> {
    LeBytes(o.amount, 8) + VarBytes(o.scriptPubkey)
  }

  function EncodeInputs(inputs: seq<TxInput>): seq<byte> {
    if inputs == [] then [] else EncodeInput(inputs[0]) + EncodeInputs(inputs[1..])
  }

  function EncodeOutputs(outputs: seq<TxOutput>): seq<byte> {
    if outputs == [] then [] else EncodeOutput(outputs[0]) + EncodeOutputs(outputs[1..])
  }

  /** Lock time, expiry height, zero value balance, and no shielded spends, shielded outputs or joinsplits. */
  function EncodeTail(tx: Tx): seq<byte> {
    LeBytes(tx.lockTime, 4) + LeBytes(tx.expiryHeight, 4) + LeBytes(0, 8) + VarInt(0) + VarInt(0) + VarInt(0)
  }

  function Encode(tx: Tx): seq<byte> {
    LeBytes(tx.version, 4) + LeBytes(tx.versionGroupId, 4)
    + VarInt(|tx.inputs|) + EncodeInputs(tx.inputs)
    + VarInt(|tx.outputs|) + EncodeOutputs(tx.outputs)
    + EncodeTail(tx)
  }

  method SerializeOutpoint(input: TxInput) returns (buf: seq<byte>)
    ensures buf == Outpoint(input)
  {
    buf := [];
    buf := buf + input.txId;
    buf := buf + LeBytes(input.index, 4);
  }

  method SerializeOutput(output: TxOutput) returns (buf: seq<byte>)
    ensures buf == EncodeOutput(output)
  {
    buf := [];
    buf := buf + LeBytes(output.amount, 8);
    buf := buf + VarBytes(output.scriptPubkey);
  }

  lemma {:induction false} EncodeInputsExtend(inputs: seq<TxInput>, i: nat)
    requires i < |inputs|
    ensures EncodeInputs(inputs[..i + 1]) == EncodeInputs(inputs[..i]) + EncodeInput(inputs[i])
  {
    hide EncodeInput;
    if i == 0 {
      assert inputs[..1][1..] == [];
    } else {
      EncodeInputsExtend(inputs[1..], i - 1);
      assert inputs[..i + 1][1..] == inputs[1..][..i] && inputs[..i][1..] == inputs[1..][..i - 1];
    }
  }

  lemma {:induction false} EncodeOutputsExtend(outputs: seq<TxOutput>, i: nat)
    requires i < |outputs|
    ensures EncodeOutputs(outputs[..i + 1]) == EncodeOutputs(outputs[..i]) + EncodeOutput(outputs[i])
  {
    hide EncodeOutput;
    if i == 0 {
      assert outputs[..1][1..] == [];
    } else {
      EncodeOutputsExtend(outputs[1..], i - 1);
      assert outputs[..i + 1][1..] == outputs[1..][..i] && outputs[..i][1..] == outputs[1..][..i - 1];
    }
  }

  method WriteInputs(buf: seq<byte>, inputs: seq<TxInput>) returns (buf': seq<byte>)
    ensures buf' == buf + EncodeInputs(inputs)
  {
    hide LeBytes, VarBytes;
    buf' := buf;
    for i := 0 to |inputs|
      invariant buf' == buf + EncodeInputs(inputs[..i])
    {
      EncodeInputsExtend(inputs, i);
      ghost var before := buf';
      buf' := buf' + inputs[i].txId;
      buf' := buf' + LeBytes(inputs[i].index, 4);
      buf' := buf' + VarBytes(inputs[i].signatureScript);
      buf' := buf' + LeBytes(inputs[i].nSequence, 4);
      assert buf' == before + EncodeInput(inputs[i]);
    }
    assert inputs[..|inputs|] == inputs;
  }

  method WriteOutputs(buf: seq<byte>, outputs: seq<TxOutput>) returns (buf': seq<byte>)
    ensures buf' == buf + EncodeOutputs(outputs)
  {
    hide EncodeOutput;
    buf' := buf;
    for i := 0 to |outputs|
      invariant buf' == buf + EncodeOutputs(outputs[..i])
    {
      EncodeOutputsExtend(outputs, i);
      var serialized := SerializeOutput(outputs[i]);
      buf' := buf' + serialized;
    }
    assert outputs[..|outputs|] == outputs;
  }

  method Serialize(tx: Tx) returns (buf: seq<byte>)
    ensures buf == Encode(tx)
  {
    hide LeBytes, VarInt, EncodeInputs, EncodeOutputs;
    buf := [];
    buf := buf + LeBytes(tx.version, 4);
    buf := buf + LeBytes(tx.versionGroupId, 4);
    buf := buf + VarInt(|tx.inputs|);
    buf := WriteInputs(buf, tx.inputs);
    buf := buf + VarInt(|tx.outputs|);
    buf := WriteOutputs(buf, tx.outputs);
    ghost var front := buf;
    buf := buf + LeBytes(tx.lockTime, 4);
    buf := buf + LeBytes(tx.expiryHeight, 4);
    buf := buf + LeBytes(0, 8);
    buf := buf + VarInt(0);
    buf := buf + VarInt(0);
    buf := buf + VarInt(0);
    assert buf == front + EncodeTail(tx);
  }

  // ----- parsing: each parser returns a value and the bytes after it

  function TakeBytes(s: seq<byte>, n: nat): Option<(seq<byte>, seq<byte>)> {
    if |s| < n then None else Some((s[..n], s[n..]))
  }

  function TakeLe(s: seq<byte>, n: nat): Option<(nat, seq<byte>)> {
    if |s| < n then None else Some((LeValue(s[..n]), s[n..]))
  }

  function TakeUint32(s: seq<byte>): Option<(uint32, seq<byte>)> {
    match TakeLe(s, 4)
    case None => None
    case Some((v, rest)) => Some((v % 0x1_0000_0000, rest))
  }

  function TakeInt64(s: seq<byte>): Option<(int64, seq<byte>)> {
    match TakeLe(s, 8)
    case None => None
    case Some((v, rest)) => Some(((v + 0x8000_0000_0000_0000) % 0x1_0000_0000_0000_0000 - 0x8000_0000_0000_0000, rest))
  }

  /** A marker is refused before a number that a shorter form holds. */
  function TakeVarInt(s: seq<byte>): Option<(nat, seq<byte>)> {
    if s == [] then None
    else if s[0] < 0xfd then Some((s[0], s[1..]))
    else
      match TakeLe(s[1..], if s[0] == 0xfd then 2 else if s[0] == 0xfe then 4 else 8)
      case None => None
      case Some((n, rest)) =>
        if n < (if s[0] == 0xfd then 0xfd else if s[0] == 0xfe then 0x1_0000 else 0x1_0000_0000) then None else Some((n, rest))
  }

  function TakeVarBytes(s: seq<byte>): Option<(seq<byte>, seq<byte>)> {
    match TakeVarInt(s)
    case None => None
    case Some((n, rest)) => TakeBytes(rest, n)
  }

  function TakeInput(s: seq<byte>, idLength: nat): Option<(TxInput, seq<byte>)> {
    match TakeBytes(s, idLength)
    case None => None
    case Some((txId, s1)) =>
      match TakeUint32(s1)
      case None => None
      case Some((index, s2)) =>
        match TakeVarBytes(s2)
        case None => None
        case Some((script, s3)) =>
          match TakeUint32(s3)
          case None => None
          case Some((sequence, s4)) => Some((TxInput(txId, index, script, sequence), s4))
  }

  function TakeOutput(s: seq<byte>): Option<(TxOutput, seq<byte>)> {
    match TakeInt64(s)
    case None => None
    case Some((amount, s1)) =>
      match TakeVarBytes(s1)
      case None => None
      case Some((script, s2)) => Some((TxOutput(amount, script), s2))
  }

  /** n inputs, of which the first is at position at; idLength says how long each position's transaction id is. */
  function TakeInputs(s: seq<byte>, n: nat, idLength: nat -> nat, at: nat): Option<(seq<TxInput>, seq<byte>)>
    decreases n
  {
    if n == 0 then Some(([], s))
    else
      match TakeInput(s, idLength(at))
      case None => None
      case Some((i, s1)) =>
        match TakeInputs(s1, n - 1, idLength, at + 1)
        case None => None
        case Some((rest, s2)) => Some(([i] + rest, s2))
  }

  function TakeOutputs(s: seq<byte>, n: nat): Option<(seq<TxOutput>, seq<byte>)> {
    if n == 0 then Some(([], s))
    else
      match TakeOutput(s)
      case None => None
      case Some((o, s1)) =>
        match TakeOutputs(s1, n - 1)
        case None => None
        case Some((rest, s2)) => Some(([o] + rest, s2))
  }

  /** The value balance and the three counts must be zero. */
  function TakeTail(s: seq<byte>): Option<((uint32, uint32), seq<byte>)> {
    match TakeUint32(s)
    case None => None
    case Some((lockTime, s1)) =>
      match TakeUint32(s1)
      case None => None
      case Some((expiryHeight, s2)) =>
        if |s2| < 11 || s2[..11] != LeBytes(0, 8) + [0, 0, 0] then None else Some(((lockTime, expiryHeight), s2[11..]))
  }

  function Parse(s: seq<byte>, idLength: nat -> nat): Option<(Tx, seq<byte>)> {
    match TakeUint32(s)
    case None => None
    case Some((version, s1)) =>
      match TakeUint32(s1)
      case None => None
      case Some((groupId, s2)) =>
        match TakeVarInt(s2)
        case None => None
        case Some((n, s3)) =>
          match TakeInputs(s3, n, idLength, 0)
          case None => None
          case Some((inputs, s4)) =>
            match TakeVarInt(s4)
            case None => None
            case Some((m, s5)) =>
              match TakeOutputs(s5, m)
              case None => None
              case Some((outputs, s6)) =>
                match TakeTail(s6)
                case None => None
                case Some((times, s7)) => Some((Tx(version, groupId, inputs, outputs, times.0, times.1), s7))
  }

  // ----- round trips, each followed by arbitrary further bytes

  lemma UnwrapLe(x: nat, n: nat, rest: seq<byte>)
    requires x < Pow256(n)
    ensures TakeLe(LeBytes(x, n) + rest, n) == Some((x, rest))
  {
    var s := LeBytes(x, n) + rest;
    assert s[..n] == LeBytes(x, n) && s[n..] == rest;
    LeValueOfBytes(x, n);
  }

  lemma UnwrapUint32(x: uint32, rest: seq<byte>)
    ensures TakeUint32(LeBytes(x, 4) + rest) == Some((x, rest))
  {
    hide LeBytes, LeValue, Pow256, TakeLe;
    Pow256Values();
    UnwrapLe(x, 4, rest);
  }

  lemma {:induction false} LeBytesWrap(x: int, n: nat)
    ensures LeBytes(x + Pow256(n), n) == LeBytes(x, n)
    decreases n
  {
    if n > 0 {
      assert (x + 256 * Pow256(n - 1)) / 256 == x / 256 + Pow256(n - 1);
      LeBytesWrap(x / 256, n - 1);
    }
  }

  lemma UnwrapInt64(x: int64, rest: seq<byte>)
    ensures TakeInt64(LeBytes(x, 8) + rest) == Some((x, rest))
  {
    hide LeBytes, LeValue, Pow256;
    Pow256Values();
    if x >= 0 {
      UnwrapLe(x, 8, rest);
    } else {
      LeBytesWrap(x, 8);
      UnwrapLe(x + Pow256(8), 8, rest);
    }
  }

  lemma UnwrapVarInt(n: nat, rest: seq<byte>)
    requires n < 0x1_0000_0000_0000_0000
    ensures TakeVarInt(VarInt(n) + rest) == Some((n, rest))
  {
    hide LeBytes, LeValue, Pow256;
    Pow256Values();
    var s := VarInt(n) + rest;
    if n < 0xfd {
      assert s[1..] == rest;
    } else if n <= 0xffff {
      assert s[1..] == LeBytes(n, 2) + rest;
      UnwrapLe(n, 2, rest);
    } else if n <= 0xffff_ffff {
      assert s[1..] == LeBytes(n, 4) + rest;
      UnwrapLe(n, 4, rest);
    } else {
      assert s[1..] == LeBytes(n, 8) + rest;
      UnwrapLe(n, 8, rest);
    }
  }

  lemma UnwrapVarBytes(b: seq<byte>, rest: seq<byte>)
    requires |b| < 0x1_0000_0000_0000_0000
    ensures TakeVarBytes(VarBytes(b) + rest) == Some((b, rest))
  {
    hide VarInt, TakeVarInt;
    assert VarBytes(b) + rest == VarInt(|b|) + (b + rest);
    UnwrapVarInt(|b|, b + rest);
    assert (b + rest)[..|b|] == b && (b + rest)[|b|..] == rest;
  }

  /** Sizes that Go can represent; transaction ids are written without a length and may have any. */
  ghost predicate InputFits(i: TxInput) {
    |i.signatureScript| < 0x1_0000_0000_0000_0000
  }

  ghost predicate Fits(tx: Tx) {
    && |tx.inputs| < 0x1_0000_0000_0000_0000 && |tx.outputs| < 0x1_0000_0000_0000_0000
    && (forall i :: 0 <= i < |tx.inputs| ==> InputFits(tx.inputs[i]))
    && forall i :: 0 <= i < |tx.outputs| ==> |tx.outputs[i].scriptPubkey| < 0x1_0000_0000_0000_0000
  }

  /** The lengths of the transaction ids, from position at on, are those that idLength gives. */
  ghost predicate IdsHave(inputs: seq<TxInput>, idLength: nat -> nat, at: nat) {
    forall i :: 0 <= i < |inputs| ==> |inputs[i].txId| == idLength(at + i)
  }

  lemma UnwrapInput(i: TxInput, rest: seq<byte>)
    requires InputFits(i)
    ensures TakeInput(EncodeInput(i) + rest, |i.txId|) == Some((i, rest))
  {
    hide LeBytes, VarBytes, TakeUint32, TakeVarBytes;
    var s4 := rest;
    var s3 := LeBytes(i.nSequence, 4) + s4;
    var s2 := VarBytes(i.signatureScript) + s3;
    var s1 := LeBytes(i.index, 4) + s2;
    assert EncodeInput(i) + rest == i.txId + s1;
    assert (i.txId + s1)[..|i.txId|] == i.txId && (i.txId + s1)[|i.txId|..] == s1;
    UnwrapUint32(i.index, s2);
    UnwrapVarBytes(i.signatureScript, s3);
    UnwrapUint32(i.nSequence, s4);
  }

  lemma UnwrapOutput(o: TxOutput, rest: seq<byte>)
    requires |o.scriptPubkey| < 0x1_0000_0000_0000_0000
    ensures TakeOutput(EncodeOutput(o) + rest) == Some((o, rest))
  {
    hide LeBytes, VarBytes, TakeInt64, TakeVarBytes;
    assert EncodeOutput(o) + rest == LeBytes(o.amount, 8) + (VarBytes(o.scriptPubkey) + rest);
    UnwrapInt64(o.amount, VarBytes(o.scriptPubkey) + rest);
    UnwrapVarBytes(o.scriptPubkey, rest);
  }

  lemma {:induction false} UnwrapInputs(inputs: seq<TxInput>, idLength: nat -> nat, at: nat, rest: seq<byte>)
    requires IdsHave(inputs, idLength, at) && forall i :: 0 <= i < |inputs| ==> InputFits(inputs[i])
    ensures TakeInputs(EncodeInputs(inputs) + rest, |inputs|, idLength, at) == Some((inputs, rest))
    decreases |inputs|
  {
    hide EncodeInput, TakeInput;
    if inputs == [] {
      assert EncodeInputs(inputs) + rest == rest;
    } else {
      var tail := EncodeInputs(inputs[1..]) + rest;
      assert EncodeInputs(inputs) + rest == EncodeInput(inputs[0]) + tail;
      UnwrapInput(inputs[0], tail);
      assert |inputs[0].txId| == idLength(at + 0);
      forall i | 0 <= i < |inputs[1..]|
        ensures |inputs[1..][i].txId| == idLength(at + 1 + i)
      {
        assert |inputs[i + 1].txId| == idLength(at + (i + 1));
      }
      UnwrapInputs(inputs[1..], idLength, at + 1, rest);
      assert inputs == [inputs[0]] + inputs[1..];
    }
  }

  lemma {:induction false} UnwrapOutputs(outputs: seq<TxOutput>, rest: seq<byte>)
    requires forall i :: 0 <= i < |outputs| ==> |outputs[i].scriptPubkey| < 0x1_0000_0000_0000_0000
    ensures TakeOutputs(EncodeOutputs(outputs) + rest, |outputs|) == Some((outputs, rest))
  {
    hide EncodeOutput, TakeOutput;
    if outputs == [] {
      assert EncodeOutputs(outputs) + rest == rest;
    } else {
      var tail := EncodeOutputs(outputs[1..]) + rest;
      assert EncodeOutputs(outputs) + rest == EncodeOutput(outputs[0]) + tail;
      UnwrapOutput(outputs[0], tail);
      UnwrapOutputs(outputs[1..], rest);
      assert outputs == [outputs[0]] + outputs[1..];
    }
  }

  lemma UnwrapTail(tx: Tx, rest: seq<byte>)
    ensures TakeTail(EncodeTail(tx) + rest) == Some(((tx.lockTime, tx.expiryHeight), rest))
  {
    hide LeBytes, TakeUint32;
    var zeros := LeBytes(0, 8) + [0, 0, 0];
    var s2 := zeros + rest;
    var s1 := LeBytes(tx.expiryHeight, 4) + s2;
    assert VarInt(0) == [0];
    assert EncodeTail(tx) + rest == LeBytes(tx.lockTime, 4) + s1;
    UnwrapUint32(tx.lockTime, s1);
    UnwrapUint32(tx.expiryHeight, s2);
    assert s2[..11] == zeros && s2[11..] == rest;
  }

  /** Told how long the transaction ids are, the parser recovers every serialized field, whatever bytes follow. */
  lemma ParseEncode(tx: Tx, idLength: nat -> nat, rest: seq<byte>)
    requires Fits(tx) && IdsHave(tx.inputs, idLength, 0)
    ensures Parse(Encode(tx) + rest, idLength) == Some((tx, rest))
  {
    hide LeBytes, VarInt, EncodeInputs, EncodeOutputs, EncodeTail, TakeUint32, TakeVarInt, TakeInputs, TakeOutputs, TakeTail;
    var s6 := EncodeTail(tx) + rest;
    var s5 := EncodeOutputs(tx.outputs) + s6;
    var s4 := VarInt(|tx.outputs|) + s5;
    var s3 := EncodeInputs(tx.inputs) + s4;
    var s2 := VarInt(|tx.inputs|) + s3;
    var s1 := LeBytes(tx.versionGroupId, 4) + s2;
    assert Encode(tx) + rest == LeBytes(tx.version, 4) + s1;
    UnwrapUint32(tx.version, s1);
    UnwrapUint32(tx.versionGroupId, s2);
    UnwrapVarInt(|tx.inputs|, s3);
    UnwrapInputs(tx.inputs, idLength, 0, s4);
    UnwrapVarInt(|tx.outputs|, s5);
    UnwrapOutputs(tx.outputs, s6);
    UnwrapTail(tx, rest);
  }

  // ----- the parser accepts nothing but encodings

  lemma RewrapLe(s: seq<byte>, n: nat)
    requires TakeLe(s, n).Some?
    ensures var (x, rest) := TakeLe(s, n).value;
            x < Pow256(n) && s == LeBytes(x, n) + rest
  {
    LeRoundTrip(s[..n]);
    assert s == s[..n] + s[n..];
  }

  lemma RewrapUint32(s: seq<byte>)
    requires TakeUint32(s).Some?
    ensures var (x, rest) := TakeUint32(s).value;
            s == LeBytes(x, 4) + rest
  {
    hide LeBytes, TakeLe, Pow256;
    RewrapLe(s, 4);
    Pow256Values();
  }

  lemma RewrapInt64(s: seq<byte>)
    requires TakeInt64(s).Some?
    ensures var (x, rest) := TakeInt64(s).value;
            s == LeBytes(x, 8) + rest
  {
    hide LeBytes, TakeLe, Pow256;
    RewrapLe(s, 8);
    Pow256Values();
    var x := TakeInt64(s).value.0;
    LeBytesWrap(x, 8);
  }

  lemma RewrapVarInt(s: seq<byte>)
    requires TakeVarInt(s).Some?
    ensures var (n, rest) := TakeVarInt(s).value;
            n < 0x1_0000_0000_0000_0000 && s == VarInt(n) + rest
  {
    hide LeBytes, LeValue, Pow256;
    Pow256Values();
    assert s == [s[0]] + s[1..];
    if s[0] >= 0xfd {
      var size := if s[0] == 0xfd then 2 else if s[0] == 0xfe then 4 else 8;
      RewrapLe(s[1..], size);
      var (n, rest) := TakeVarInt(s).value;
      assert VarInt(n) == [s[0]] + LeBytes(n, size);
      ConcatAssociates([s[0]], LeBytes(n, size), rest);
    }
  }

  lemma RewrapVarBytes(s: seq<byte>)
    requires TakeVarBytes(s).Some?
    ensures var (b, rest) := TakeVarBytes(s).value;
            |b| < 0x1_0000_0000_0000_0000 && s == VarBytes(b) + rest
  {
    hide VarInt, TakeVarInt;
    RewrapVarInt(s);
    var (n, r) := TakeVarInt(s).value;
    assert r == r[..n] + r[n..];
    ConcatAssociates(VarInt(n), r[..n], r[n..]);
  }

  lemma RewrapInput(s: seq<byte>, idLength: nat)
    requires TakeInput(s, idLength).Some?
    ensures var (i, rest) := TakeInput(s, idLength).value;
            InputFits(i) && |i.txId| == idLength && s == EncodeInput(i) + rest
  {
    hide LeBytes, VarBytes, TakeUint32, TakeVarBytes;
    var (txId, s1) := TakeBytes(s, idLength).value;
    RewrapUint32(s1);
    var (index, s2) := TakeUint32(s1).value;
    RewrapVarBytes(s2);
    var (script, s3) := TakeVarBytes(s2).value;
    RewrapUint32(s3);
    var (sequence, s4) := TakeUint32(s3).value;
    assert s == txId + (LeBytes(index, 4) + (VarBytes(script) + (LeBytes(sequence, 4) + s4)));
  }

  lemma RewrapOutput(s: seq<byte>)
    requires TakeOutput(s).Some?
    ensures var (o, rest) := TakeOutput(s).value;
            |o.scriptPubkey| < 0x1_0000_0000_0000_0000 && s == EncodeOutput(o) + rest
  {
    hide LeBytes, VarBytes, TakeInt64, TakeVarBytes;
    RewrapInt64(s);
    var (amount, s1) := TakeInt64(s).value;
    RewrapVarBytes(s1);
    ConcatAssociates(LeBytes(amount, 8), VarBytes(TakeVarBytes(s1).value.0), TakeVarBytes(s1).value.1);
  }

  lemma {:induction false} RewrapInputs(s: seq<byte>, n: nat, idLength: nat -> nat, at: nat)
    requires TakeInputs(s, n, idLength, at).Some?
    ensures var (inputs, rest) := TakeInputs(s, n, idLength, at).value;
            && |inputs| == n && IdsHave(inputs, idLength, at) && (forall i :: 0 <= i < n ==> InputFits(inputs[i]))
            && s == EncodeInputs(inputs) + rest
    decreases n
  {
    hide EncodeInput, TakeInput, InputFits;
    if n > 0 {
      RewrapInput(s, idLength(at));
      var (i, s1) := TakeInput(s, idLength(at)).value;
      RewrapInputs(s1, n - 1, idLength, at + 1);
      var (tail, rest) := TakeInputs(s1, n - 1, idLength, at + 1).value;
      assert ([i] + tail)[1..] == tail;
      ConcatAssociates(EncodeInput(i), EncodeInputs(tail), rest);
      forall k | 0 <= k < n
        ensures |([i] + tail)[k].txId| == idLength(at + k)
      {
        assert k > 0 ==> |tail[k - 1].txId| == idLength(at + 1 + (k - 1));
      }
    }
  }

  lemma {:induction false} RewrapOutputs(s: seq<byte>, n: nat)
    requires TakeOutputs(s, n).Some?
    ensures var (outputs, rest) := TakeOutputs(s, n).value;
            && |outputs| == n && (forall i :: 0 <= i < n ==> |outputs[i].scriptPubkey| < 0x1_0000_0000_0000_0000)
            && s == EncodeOutputs(outputs) + rest
    decreases n
  {
    hide EncodeOutput, TakeOutput;
    if n > 0 {
      RewrapOutput(s);
      var (o, s1) := TakeOutput(s).value;
      RewrapOutputs(s1, n - 1);
      var (tail, rest) := TakeOutputs(s1, n - 1).value;
      assert ([o] + tail)[1..] == tail;
      ConcatAssociates(EncodeOutput(o), EncodeOutputs(tail), rest);
    }
  }

  lemma RewrapTail(s: seq<byte>, tx: Tx)
    requires TakeTail(s).Some? && TakeTail(s).value.0 == (tx.lockTime, tx.expiryHeight)
    ensures s == EncodeTail(tx) + TakeTail(s).value.1
  {
    hide LeBytes, TakeUint32;
    RewrapUint32(s);
    var (lockTime, s1) := TakeUint32(s).value;
    RewrapUint32(s1);
    var (expiryHeight, s2) := TakeUint32(s1).value;
    assert VarInt(0) == [0];
    assert s2 == s2[..11] + s2[11..];
    assert s == LeBytes(lockTime, 4) + (LeBytes(expiryHeight, 4) + ((LeBytes(0, 8) + [0, 0, 0]) + s2[11..]));
  }

  /** What the parser accepts, told the lengths of transaction ids, is exactly an encoding followed by what it leaves. */
  lemma ParseIsExact(s: seq<byte>, idLength: nat -> nat, tx: Tx, rest: seq<byte>)
    ensures Parse(s, idLength) == Some((tx, rest)) <==> Fits(tx) && IdsHave(tx.inputs, idLength, 0) && s == Encode(tx) + rest
  {
    if Parse(s, idLength) == Some((tx, rest)) {
      RewrapParse(s, idLength);
    } else if Fits(tx) && IdsHave(tx.inputs, idLength, 0) {
      ParseEncode(tx, idLength, rest);
    }
  }

  lemma RewrapParse(s: seq<byte>, idLength: nat -> nat)
    requires Parse(s, idLength).Some?
    ensures var (tx, rest) := Parse(s, idLength).value;
            Fits(tx) && IdsHave(tx.inputs, idLength, 0) && s == Encode(tx) + rest
  {
    hide LeBytes, VarInt, EncodeInputs, EncodeOutputs, EncodeTail, TakeUint32, TakeVarInt, TakeInputs, TakeOutputs, TakeTail,
         IdsHave, InputFits;
    var (tx, rest) := Parse(s, idLength).value;
    RewrapUint32(s);
    var s1 := TakeUint32(s).value.1;
    RewrapUint32(s1);
    var s2 := TakeUint32(s1).value.1;
    RewrapVarInt(s2);
    var (n, s3) := TakeVarInt(s2).value;
    RewrapInputs(s3, n, idLength, 0);
    var s4 := TakeInputs(s3, n, idLength, 0).value.1;
    RewrapVarInt(s4);
    var (m, s5) := TakeVarInt(s4).value;
    RewrapOutputs(s5, m);
    var s6 := TakeOutputs(s5, m).value.1;
    RewrapTail(s6, tx);
    assert s == LeBytes(tx.version, 4) + (LeBytes(tx.versionGroupId, 4)
                + (VarInt(n) + (EncodeInputs(tx.inputs) + (VarInt(m) + (EncodeOutputs(tx.outputs) + (EncodeTail(tx) + rest))))));
  }

  ghost predicate SameIdLengths(a: seq<TxInput>, b: seq<TxInput>) {
    |a| == |b| && forall i :: 0 <= i < |a| ==> |a[i].txId| == |b[i].txId|
  }

  /**
   * Unique and prefix-free exactly up to the lengths of transaction ids, which are not encoded: where one
   * encoding is the other's beginning, the transactions are equal if and only if their ids are equally long,
   * position by position.
   */
  lemma EncodingIsUnique(tx: Tx, other: Tx, rest: seq<byte>, rest': seq<byte>)
    requires Fits(tx) && Fits(other)
    requires Encode(tx) + rest == Encode(other) + rest'
    ensures tx == other <==> SameIdLengths(tx.inputs, other.inputs)
    ensures tx == other ==> rest == rest'
  {
    hide Encode, Parse;
    if SameIdLengths(tx.inputs, other.inputs) {
      var idLength := (i: nat) => if i < |tx.inputs| then |tx.inputs[i].txId| else 0;
      ParseEncode(tx, idLength, rest);
      ParseEncode(other, idLength, rest');
    }
    if tx == other {
      assert (Encode(tx) + rest)[|Encode(tx)|..] == rest && (Encode(tx) + rest')[|Encode(tx)|..] == rest';
    }
  }

  ghost predicate Standard(tx: Tx) {
    Fits(tx) && IdsHave(tx.inputs, _ => 32, 0)
  }

  /** All ids of 32 bytes, the ones there are: one parser recovers every transaction, and encodings are unique. */
  lemma StandardIdsAreUnique(tx: Tx, other: Tx, rest: seq<byte>, rest': seq<byte>)
    requires Standard(tx)
    ensures Parse(Encode(tx) + rest, _ => 32) == Some((tx, rest))
    ensures Standard(other) && Encode(tx) + rest == Encode(other) + rest' ==> tx == other && rest == rest'
  {
    hide Encode, Parse;
    ParseEncode(tx, _ => 32, rest);
    if Standard(other) {
      ParseEncode(other, _ => 32, rest');
    }
  }

  /** Ids of unequal lengths are confused: ids of 31 and 33 zero bytes encode like two ids of 32. */
  lemma ShortIdsAreAmbiguous()
    ensures exists a: Tx, b: Tx :: a != b && Encode(a) == Encode(b)
  {
    var i31, i32, i33 := ZeroInput(31), ZeroInput(32), ZeroInput(33);
    var a := Tx(4, 0, [i32, i32], [], 0, 0);
    var b := Tx(4, 0, [i31, i33], [], 0, 0);
    ZeroInputBytes(31);
    ZeroInputBytes(32);
    ZeroInputBytes(33);
    TwoInputs(i32, i32);
    TwoInputs(i31, i33);
    assert Zeros(41) + Zeros(41) == Zeros(40) + Zeros(42);
    assert Encode(a) == Encode(b);
    assert a.inputs[0].txId != b.inputs[0].txId;
  }

  function Zeros(n: nat): (s: seq<byte>)
    ensures |s| == n
  {
    seq(n, _ => 0)
  }

  function ZeroInput(n: nat): TxInput {
    TxInput(Zeros(n), 0, [], 0)
  }

  lemma ZeroInputBytes(n: nat)
    ensures EncodeInput(ZeroInput(n)) == Zeros(n + 9)
  {
    assert LeBytes(0, 1) == [0];
    assert LeBytes(0, 2) == [0, 0];
    assert LeBytes(0, 3) == [0, 0, 0];
    assert LeBytes(0, 4) == [0, 0, 0, 0];
  }

  lemma TwoInputs(i: TxInput, j: TxInput)
    ensures EncodeInputs([i, j]) == EncodeInput(i) + EncodeInput(j)
  {
    hide EncodeInput;
    assert [i, j][1..] == [j] && [j][1..] == [];
    assert EncodeInputs([j]) == EncodeInput(j) + EncodeInputs([]);
  }
}
