/** Tron transactions that are signed, serialized and later split together. */
module TronTx {
  import opened Wrappers
  import opened Bytes

  type Encoding = seq<byte>

  /** Protocol-buffer encoding of raw data and signatures; it may fail. */
  type Marshal = (Encoding, seq<Encoding>) -> Option<Encoding>

  class Transaction {
    const rawData: Encoding
    var signatures: seq<Encoding>

    constructor (rawData: Encoding)
      ensures this.rawData == rawData && signatures == []
    {
      this.rawData, signatures := rawData, [];
    }
  }

  function Encode(tx: Transaction, marshal: Marshal): Option<Encoding>
    reads tx
  {
    marshal(tx.rawData, tx.signatures)
  }

  datatype TxMetadata = TxMetadata(hash: string, length: nat)

  datatype TxError = NoOperations | SignatureCount | EncodingFailed

  // ----- concatenating and splitting

  function Concat(parts: seq<Encoding>): Encoding {
    if parts == [] then [] else parts[0] + Concat(parts[1..])
  }

  /** Cuts bytes into pieces of the given lengths. */
  function Split(bytes: Encoding, lengths: seq<nat>): Option<seq<Encoding>> {
    if lengths == [] then (if bytes == [] then Some([]) else None)
    else if |bytes| < lengths[0] then None
    else
      match Split(bytes[lengths[0]..], lengths[1..])
      case None => None
      case Some(rest) => Some([bytes[..lengths[0]]] + rest)
  }

  function Lengths(parts: seq<Encoding>): (lengths: seq<nat>)
    ensures |lengths| == |parts|
  {
    seq(|parts|, i requires 0 <= i < |parts| => |parts[i]|)
  }

  /** Splitting at the lengths of the parts inverts concatenating them. */
  lemma {:induction false} SplitConcat(parts: seq<Encoding>)
    ensures Split(Concat(parts), Lengths(parts)) == Some(parts)
  {
    if parts != [] {
      SplitConcat(parts[1..]);
      assert Lengths(parts)[1..] == Lengths(parts[1..]);
      var bytes := Concat(parts);
      assert [parts[0]] + parts[1..] == parts;
      assert bytes[..|parts[0]|] == parts[0] && bytes[|parts[0]|..] == Concat(parts[1..]);
    }
  }

  lemma ConcatExtend(parts: seq<Encoding>, part: Encoding)
    ensures Concat(parts + [part]) == Concat(parts) + part
  {
    if parts == [] {
      assert [part][1..] == [];
    } else {
      ConcatExtend(parts[1..], part);
      assert (parts + [part])[1..] == parts[1..] + [part];
    }
  }

  // ----- signing, on values

  /** The first n transactions carry their new signatures and have their lengths recorded; the others are as before. */
  ghost predicate Recorded(raws: seq<Encoding>, was: seq<seq<Encoding>>, now: seq<seq<Encoding>>,
                           before: seq<TxMetadata>, after: seq<TxMetadata>, signatures: seq<Encoding>,
                           marshal: Marshal, n: nat) {
    && n <= |raws| == |was| == |now| == |before| == |after| == |signatures|
    && (forall i :: 0 <= i < n ==>
          var bz := marshal(raws[i], was[i] + [signatures[i]]);
          now[i] == was[i] + [signatures[i]] && bz.Some? && after[i] == TxMetadata(before[i].hash, |bz.value|))
    && forall i :: n <= i < |raws| ==> now[i] == was[i] && after[i] == before[i]
  }

  /** Transaction k is the first that does not encode with its new signature. */
  ghost predicate FailsAt(raws: seq<Encoding>, was: seq<seq<Encoding>>, now: seq<seq<Encoding>>,
                          before: seq<TxMetadata>, after: seq<TxMetadata>, signatures: seq<Encoding>,
                          marshal: Marshal, k: nat) {
    && k < |raws| == |was| == |now| == |signatures|
    && now[k] == was[k] + [signatures[k]] && marshal(raws[k], now[k]).None?
    && Recorded(raws, was, now[k := was[k]], before, after, signatures, marshal, k)
  }

  lemma NothingRecorded(raws: seq<Encoding>, was: seq<seq<Encoding>>, before: seq<TxMetadata>,
                        signatures: seq<Encoding>, marshal: Marshal)
    requires |raws| == |was| == |before| == |signatures|
    ensures Recorded(raws, was, was, before, before, signatures, marshal, 0)
  {
  }

  lemma RecordNext(raws: seq<Encoding>, was: seq<seq<Encoding>>, now: seq<seq<Encoding>>,
                   before: seq<TxMetadata>, after: seq<TxMetadata>, signatures: seq<Encoding>,
                   marshal: Marshal, i: nat)
    requires i < |raws| && Recorded(raws, was, now, before, after, signatures, marshal, i)
    ensures |now| == |after| == |signatures| == |raws| && now[i] == was[i]
    ensures var signed := now[i] + [signatures[i]];
            var bz := marshal(raws[i], signed);
            if bz.Some? then
              Recorded(raws, was, now[i := signed], before, after[i := after[i].(length := |bz.value|)], signatures, marshal, i + 1)
            else FailsAt(raws, was, now[i := signed], before, after, signatures, marshal, i)
  {
    var signed := now[i] + [signatures[i]];
    assert now[i := signed][i := was[i]] == now;
  }

  lemma AllRecorded(raws: seq<Encoding>, was: seq<seq<Encoding>>, now: seq<seq<Encoding>>,
                    before: seq<TxMetadata>, after: seq<TxMetadata>, signatures: seq<Encoding>, marshal: Marshal)
    requires Recorded(raws, was, now, before, after, signatures, marshal, |raws|)
    ensures forall i :: 0 <= i < |raws| ==> marshal(raws[i], was[i] + [signatures[i]]).Some?
  {
  }

  // ----- the pair of transactions an operation may need

  class Tx {
    var tronTxs: seq<Transaction>
    var metadata: seq<TxMetadata>

    ghost predicate Valid()
      reads this
    {
      && |tronTxs| == |metadata|
      && forall i, j :: 0 <= i < j < |tronTxs| ==> tronTxs[i] != tronTxs[j]
    }

    /** Every length in the metadata is that of the transaction as it is encoded now. */
    ghost predicate LengthsRecorded(marshal: Marshal)
      requires Valid()
      reads this, tronTxs
    {
      forall i :: 0 <= i < |tronTxs| ==>
        var bz := Encode(tronTxs[i], marshal);
        bz.Some? && metadata[i].length == |bz.value|
    }

    function Signed(): (s: seq<seq<Encoding>>)
      reads this, tronTxs
      ensures |s| == |tronTxs|
    {
      seq(|tronTxs|, i requires 0 <= i < |tronTxs| reads this, tronTxs => tronTxs[i].signatures)
    }

    function Raws(): (s: seq<Encoding>)
      reads this
      ensures |s| == |tronTxs|
    {
      seq(|tronTxs|, i requires 0 <= i < |tronTxs| reads this => tronTxs[i].rawData)
    }

    constructor ()
      ensures tronTxs == [] && metadata == []
    {
      tronTxs, metadata := [], [];
    }

    /** The length is left open, since signing changes it. */
    method AppendTx(ttx: Transaction, hash: Encoding -> string)
      requires Valid() && ttx !in tronTxs
      modifies this
      ensures Valid() && tronTxs == old(tronTxs) + [ttx]
      ensures metadata == old(metadata) + [TxMetadata(hash(ttx.rawData), 0)]
    {
      metadata := metadata + [TxMetadata(hash(ttx.rawData), 0)];
      tronTxs := tronTxs + [ttx];
    }

    /**
     * Adds one signature to each transaction and records the lengths of the signed encodings. Where one does
     * not encode, it keeps its new signature, those before it are done and those after it untouched.
     */
    method SetSignatures(signatures: seq<Encoding>, marshal: Marshal) returns (r: Result<(), TxError>)
      requires Valid()
      modifies this`metadata, tronTxs
      ensures Valid()
      ensures |signatures| != |tronTxs| ==>
                r == Err(SignatureCount) && metadata == old(metadata) && Signed() == old(Signed())
      ensures |signatures| == |tronTxs| ==>
                (r.Ok? <==> forall i :: 0 <= i < |tronTxs| ==> marshal(Raws()[i], old(Signed())[i] + [signatures[i]]).Some?)
      ensures r.Ok? ==>
                && LengthsRecorded(marshal)
                && Recorded(Raws(), old(Signed()), Signed(), old(metadata), metadata, signatures, marshal, |tronTxs|)
      ensures |signatures| == |tronTxs| && r.Err? ==>
                && r == Err(EncodingFailed)
                && exists k :: FailsAt(Raws(), old(Signed()), Signed(), old(metadata), metadata, signatures, marshal, k)
    {
      hide Recorded, FailsAt, Signed, Raws;
      if |signatures| != |tronTxs| && |tronTxs| == |metadata| {
        return Err(SignatureCount);
      }
      ghost var raws, was, oldMetadata := Raws(), Signed(), metadata;
      NothingRecorded(raws, was, oldMetadata, signatures, marshal);
      for i := 0 to |signatures|
        invariant Valid() && |metadata| == |oldMetadata|
        invariant Raws() == raws && Recorded(raws, was, Signed(), oldMetadata, metadata, signatures, marshal, i)
      {
        RecordNext(raws, was, Signed(), oldMetadata, metadata, signatures, marshal, i);
        var ok := SignOne(i, signatures[i], marshal);
        if !ok {
          return Err(EncodingFailed);
        }
      }
      AllRecorded(raws, was, Signed(), oldMetadata, metadata, signatures, marshal);
      LengthsFromRecord(was, oldMetadata, signatures, marshal);
      return Ok(());
    }

    /** The body of that loop. */
    method SignOne(i: nat, signature: Encoding, marshal: Marshal) returns (ok: bool)
      requires Valid() && i < |tronTxs|
      modifies this`metadata, tronTxs[i]
      ensures Valid() && |metadata| == |old(metadata)| && Raws() == old(Raws())
      ensures var signed := old(Signed())[i] + [signature];
              && Signed() == old(Signed())[i := signed]
              && var bz := marshal(Raws()[i], signed);
                 && ok == bz.Some?
                 && metadata == if bz.Some? then old(metadata)[i := old(metadata)[i].(length := |bz.value|)] else old(metadata)
    {
      tronTxs[i].signatures := tronTxs[i].signatures + [signature];
      var bz := Encode(tronTxs[i], marshal);
      if bz.None? {
        return false;
      }
      metadata := metadata[i := metadata[i].(length := |bz.value|)];
      return true;
    }

    lemma LengthsFromRecord(was: seq<seq<Encoding>>, oldMetadata: seq<TxMetadata>, signatures: seq<Encoding>, marshal: Marshal)
      requires Valid() && |was| == |oldMetadata| == |signatures| == |tronTxs|
      requires Recorded(Raws(), was, Signed(), oldMetadata, metadata, signatures, marshal, |tronTxs|)
      ensures LengthsRecorded(marshal)
    {
      forall i | 0 <= i < |tronTxs|
        ensures var bz := Encode(tronTxs[i], marshal); bz.Some? && metadata[i].length == |bz.value|
      {
        assert Raws()[i] == tronTxs[i].rawData && Signed()[i] == tronTxs[i].signatures;
      }
    }

    /** The encodings of all transactions, in order. */
    function Encodings(marshal: Marshal): Option<seq<Encoding>>
      reads this, tronTxs
    {
      EncodeAll(tronTxs, marshal)
    }

    /** One string of bytes: the encodings one after the other. */
    method Serialize(marshal: Marshal) returns (r: Result<Encoding, TxError>)
      ensures r == if tronTxs == [] then Err(NoOperations)
                   else if Encodings(marshal).None? then Err(EncodingFailed)
                   else Ok(Concat(Encodings(marshal).value))
    {
      if |tronTxs| == 0 {
        return Err(NoOperations);
      }
      var transactionsBytes: Encoding := [];
      ghost var parts: seq<Encoding> := [];
      for i := 0 to |tronTxs|
        invariant EncodeAll(tronTxs[..i], marshal) == Some(parts)
        invariant transactionsBytes == Concat(parts)
      {
        var bz := Encode(tronTxs[i], marshal);
        EncodeNext(tronTxs, i, marshal);
        if bz.None? {
          return Err(EncodingFailed);
        }
        ConcatExtend(parts, bz.value);
        parts := parts + [bz.value];
        transactionsBytes := transactionsBytes + bz.value;
      }
      assert tronTxs[..|tronTxs|] == tronTxs;
      return Ok(transactionsBytes);
    }

    /** A signed transaction's bytes fall apart again at the lengths its metadata records. */
    lemma SplitsAtRecordedLengths(marshal: Marshal)
      requires Valid() && LengthsRecorded(marshal)
      ensures Encodings(marshal).Some? && |Encodings(marshal).value| == |tronTxs|
      ensures forall i :: 0 <= i < |tronTxs| ==>
                Encode(tronTxs[i], marshal) == Some(Encodings(marshal).value[i])
      ensures Split(Concat(Encodings(marshal).value), RecordedLengths()) == Encodings(marshal)
    {
      EncodeEach(tronTxs, marshal);
      var parts := Encodings(marshal).value;
      assert RecordedLengths() == Lengths(parts);
      SplitConcat(parts);
    }

    function RecordedLengths(): (lengths: seq<nat>)
      reads this
    {
      seq(|metadata|, i requires 0 <= i < |metadata| reads this => metadata[i].length)
    }
  }

  function EncodeAll(txs: seq<Transaction>, marshal: Marshal): Option<seq<Encoding>>
    reads txs
  {
    if txs == [] then Some([])
    else
      var init, last := EncodeAll(txs[..|txs| - 1], marshal), Encode(txs[|txs| - 1], marshal);
      if init.None? || last.None? then None else Some(init.value + [last.value])
  }

  lemma {:induction false} EncodeEach(txs: seq<Transaction>, marshal: Marshal)
    ensures EncodeAll(txs, marshal).Some? <==> forall i :: 0 <= i < |txs| ==> Encode(txs[i], marshal).Some?
    ensures EncodeAll(txs, marshal).Some? ==>
              && |EncodeAll(txs, marshal).value| == |txs|
              && forall i :: 0 <= i < |txs| ==> Encode(txs[i], marshal) == Some(EncodeAll(txs, marshal).value[i])
  {
    if txs != [] {
      EncodeEach(txs[..|txs| - 1], marshal);
    }
  }

  lemma EncodeNext(txs: seq<Transaction>, i: nat, marshal: Marshal)
    requires i < |txs| && EncodeAll(txs[..i], marshal).Some?
    ensures EncodeAll(txs[..i + 1], marshal) ==
            if Encode(txs[i], marshal).None? then None
            else Some(EncodeAll(txs[..i], marshal).value + [Encode(txs[i], marshal).value])
    ensures Encode(txs[i], marshal).None? ==> EncodeAll(txs, marshal).None?
  {
    assert txs[..i + 1][..i] == txs[..i];
    EncodeEach(txs, marshal);
  }

  /** Builds from a nonempty list of transactions. */
  method NewTx(tronTransactions: seq<Transaction>, hash: Encoding -> string) returns (r: Result<Tx, TxError>)
    requires forall i, j :: 0 <= i < j < |tronTransactions| ==> tronTransactions[i] != tronTransactions[j]
    ensures r.Ok? <==> tronTransactions != []
    ensures r.Err? ==> r.error == NoOperations
    ensures r.Ok? ==>
              && fresh(r.value) && r.value.Valid() && r.value.tronTxs == tronTransactions
              && forall i :: 0 <= i < |tronTransactions| ==>
                   r.value.metadata[i] == TxMetadata(hash(tronTransactions[i].rawData), 0)
  {
    if |tronTransactions| == 0 {
      return Err(NoOperations);
    }
    var tx := new Tx();
    for i := 0 to |tronTransactions|
      invariant tx.Valid() && tx.tronTxs == tronTransactions[..i]
      invariant forall j :: 0 <= j < i ==> tx.metadata[j] == TxMetadata(hash(tronTransactions[j].rawData), 0)
    {
      tx.AppendTx(tronTransactions[i], hash);
    }
    return Ok(tx);
  }
}
