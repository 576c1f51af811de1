/** What CashAddr strings stand for as numbers, and exactly which strings and hashes are accepted. */
module CashAddrExact {
  import opened Wrappers
  import opened CashAddrChecksum
  import opened CashAddrCodec

  // ----- regrouping keeps the number

  /** The number that data spells in the base, with acc in front. */
  function NumberFrom(acc: nat, base: nat, data: seq<bv8>): nat
    decreases |data|
  {
    if data == [] then acc else NumberFrom(acc * base + data[0] as int, base, data[1..])
  }

  function BitsFrom(acc: nat, b: seq<bool>): nat
    decreases |b|
  {
    if b == [] then acc else BitsFrom(2 * acc + (if b[0] then 1 else 0), b[1..])
  }

  lemma {:induction false} BitsConcat(acc: nat, a: seq<bool>, b: seq<bool>)
    ensures BitsFrom(acc, a + b) == BitsFrom(BitsFrom(acc, a), b)
    decreases |a|
  {
    if a == [] {
      assert a + b == b;
    } else {
      BitsConcat(2 * acc + (if a[0] then 1 else 0), a[1..], b);
      assert (a + b)[1..] == a[1..] + b;
    }
  }

  lemma {:induction false} NumberConcat(acc: nat, base: nat, a: seq<bv8>, b: seq<bv8>)
    ensures NumberFrom(acc, base, a + b) == NumberFrom(NumberFrom(acc, base, a), base, b)
    decreases |a|
  {
    if a == [] {
      assert a + b == b;
    } else {
      NumberConcat(acc * base + a[0] as int, base, a[1..], b);
      assert (a + b)[1..] == a[1..] + b;
    }
  }

  lemma BitsOfThree(acc: nat, b: seq<bool>)
    requires |b| == 3
    ensures BitsFrom(acc, b) == 8 * acc + (if b[0] then 4 else 0) + (if b[1] then 2 else 0) + (if b[2] then 1 else 0)
  {
    assert b == [b[0]] + [b[1]] + [b[2]];
    BitsConcat(acc, [b[0]] + [b[1]], [b[2]]);
    BitsConcat(acc, [b[0]], [b[1]]);
    forall v: nat, bit: bool
      ensures BitsFrom(v, [bit]) == 2 * v + if bit then 1 else 0
    {
      assert [bit][1..] == [];
    }
  }

  lemma BitsOfFive(acc: nat, b: seq<bool>)
    requires |b| == 5
    ensures BitsFrom(acc, b) == 32 * acc + (if b[0] then 16 else 0) + (if b[1] then 8 else 0) + (if b[2] then 4 else 0)
                                + (if b[3] then 2 else 0) + (if b[4] then 1 else 0)
  {
    assert b[1..][1..] == b[2..] && b[2..][1..] == b[3..];
    BitsOfThree(2 * (2 * acc + (if b[0] then 1 else 0)) + (if b[1] then 1 else 0), b[2..]);
  }

  lemma ByteValue(x: bv8)
    ensures x as int == (if x & 128 != 0 then 128 else 0) + (if x & 64 != 0 then 64 else 0) + (if x & 32 != 0 then 32 else 0)
                        + (if x & 16 != 0 then 16 else 0) + (if x & 8 != 0 then 8 else 0) + (if x & 4 != 0 then 4 else 0)
                        + (if x & 2 != 0 then 2 else 0) + (if x & 1 != 0 then 1 else 0)
  {
  }

  lemma SymbolHasFiveBits(x: bv8)
    requires x < 32
    ensures x & 128 == 0 && x & 64 == 0 && x & 32 == 0
  {
  }

  lemma BitsOfSymbol(acc: nat, x: bv8)
    requires x < 32
    ensures BitsFrom(acc, Bits(x, 5)) == 32 * acc + x as int
  {
    hide BitsFrom;
    BitsOfFive(acc, Bits(x, 5));
    ByteValue(x);
    SymbolHasFiveBits(x);
  }

  lemma BitsOfByte(acc: nat, x: bv8)
    ensures BitsFrom(acc, Bits(x, 8)) == 256 * acc + x as int
  {
    hide BitsFrom;
    var b := Bits(x, 8);
    assert b == b[..3] + b[3..];
    BitsConcat(acc, b[..3], b[3..]);
    BitsOfThree(acc, b[..3]);
    BitsOfFive(BitsFrom(acc, b[..3]), b[3..]);
    ByteValue(x);
  }

  lemma {:induction false} SymbolsNumber(acc: nat, data: seq<bv8>)
    requires Symbols(data)
    ensures NumberFrom(acc, 32, data) == BitsFrom(acc, Expand(data, 5))
    decreases |data|
  {
    hide Bits, BitsFrom;
    if data == [] {
      NoBits(acc);
    } else {
      BitsOfSymbol(acc, data[0]);
      BitsConcat(acc, Bits(data[0], 5), Expand(data[1..], 5));
      SymbolsNumber(acc * 32 + data[0] as int, data[1..]);
    }
  }

  lemma {:induction false} BytesNumber(acc: nat, data: seq<bv8>)
    ensures NumberFrom(acc, 256, data) == BitsFrom(acc, Expand(data, 8))
    decreases |data|
  {
    hide Bits, BitsFrom;
    if data == [] {
      NoBits(acc);
    } else {
      BitsOfByte(acc, data[0]);
      BitsConcat(acc, Bits(data[0], 8), Expand(data[1..], 8));
      BytesNumber(acc * 256 + data[0] as int, data[1..]);
    }
  }

  lemma NoBits(acc: nat)
    ensures BitsFrom(acc, []) == acc
  {
  }

  function Pow2(n: nat): nat {
    if n == 0 then 1 else 2 * Pow2(n - 1)
  }

  lemma Doubled(acc: nat, p: nat)
    ensures 2 * acc * p == acc * (2 * p)
  {
  }

  lemma {:induction false} BitsOfZeros(acc: nat, n: nat)
    ensures BitsFrom(acc, Zeros(n)) == acc * Pow2(n)
    decreases n
  {
    if n > 0 {
      BitsOfZeros(2 * acc, n - 1);
      assert Zeros(n)[0] == false && Zeros(n)[1..] == Zeros(n - 1);
      assert BitsFrom(acc, Zeros(n)) == BitsFrom(2 * acc, Zeros(n - 1));
      hide Zeros, BitsFrom;
      Doubled(acc, Pow2(n - 1));
    }
  }

  /**
   * Regrouping bytes to symbols takes the fewest symbols that hold the bits, and they spell in base 32 what the
   * bytes spell in base 256, moved up by the padding.
   */
  lemma ConvertBitsNumber(data: seq<bv8>)
    ensures var symbols := ConvertBits(data, 8, 5, true);
            && symbols.Some? && Symbols(symbols.value) && 8 * |data| <= 5 * |symbols.value| < 8 * |data| + 5
            && NumberFrom(0, 32, symbols.value) == NumberFrom(0, 256, data) * Pow2(5 * |symbols.value| - 8 * |data|)
  {
    hide Expand, Regroup, BitsFrom, NumberFrom, Pow2;
    ConvertBitsRoundTrip(data);
    var b := Expand(data, 8);
    var padded := PadTo(b, 5);
    var symbols := ConvertBits(data, 8, 5, true).value;
    PaddedByFive(b);
    ExpandRegroup(padded);
    SymbolsNumber(0, symbols);
    BytesNumber(0, data);
    BitsConcat(0, b, Zeros(|padded| - |b|));
    BitsOfZeros(BitsFrom(0, b), |padded| - |b|);
  }

  lemma PaddedByFive(b: seq<bool>)
    ensures |PadTo(b, 5)| % 5 == 0
  {
  }

  /** Digits below the base are determined by how many they are and by the number they spell. */
  lemma {:induction false} DigitsDetermined(acc: nat, acc': nat, a: seq<bv8>, b: seq<bv8>)
    requires |a| == |b| && Symbols(a) && Symbols(b)
    requires NumberFrom(acc, 32, a) == NumberFrom(acc', 32, b)
    ensures acc == acc' && a == b
    decreases |a|
  {
    if a != [] {
      var x, y := a[0] as int, b[0] as int;
      DigitsDetermined(acc * 32 + x, acc' * 32 + y, a[1..], b[1..]);
      SymbolBelow(a[0]);
      SymbolBelow(b[0]);
      assert acc * 32 + x == acc' * 32 + y;
      SameSymbol(a[0], b[0]);
      assert a == [a[0]] + a[1..] && b == [b[0]] + b[1..];
    }
  }

  lemma SymbolBelow(x: bv8)
    requires x < 32
    ensures 0 <= x as int < 32
  {
  }

  lemma SameSymbol(x: bv8, y: bv8)
    ensures x as int == y as int ==> x == y
  {
  }

  // ----- regrouping symbols to bytes is undone by regrouping back

  lemma UnbitsOfByte(b: seq<bool>)
    requires |b| == 8
    ensures Bits(Unbits(b), 8) == b
  {
  }

  lemma {:induction false} ExpandRegroupBytes(b: seq<bool>)
    requires |b| % 8 == 0
    ensures Expand(Regroup(b, 8), 8) == b
    decreases |b|
  {
    hide Bits, Unbits;
    if b != [] {
      UnbitsOfByte(b[..8]);
      ExpandRegroupBytes(b[8..]);
      var data := Regroup(b, 8);
      assert data[0] == Unbits(b[..8]) && data[1..] == Regroup(b[8..], 8);
      assert b == b[..8] + b[8..];
    }
  }

  lemma ConvertBack(symbols: seq<bv8>)
    requires Symbols(symbols) && ConvertBits(symbols, 5, 8, false).Some?
    ensures var bytes := ConvertBits(symbols, 5, 8, false).value;
            && 8 * |bytes| <= 5 * |symbols| <= 8 * |bytes| + 4
            && ConvertBits(bytes, 8, 5, true) == Some(symbols)
  {
    hide Expand, Regroup, BitsFrom, NumberFrom, Pow2;
    var bytes := ConvertBits(symbols, 5, 8, false).value;
    var b := Expand(symbols, 5);
    var whole := CutTo(b, 8);
    WholeBytes(b);
    ExpandRegroupBytes(whole);
    var k := |b| - |whole|;
    assert b == whole + Zeros(k) by {
      assert b == b[..|whole|] + b[|whole|..];
    }
    SymbolsNumber(0, symbols);
    BytesNumber(0, bytes);
    BitsConcat(0, whole, Zeros(k));
    BitsOfZeros(BitsFrom(0, whole), k);
    ConvertBitsNumber(bytes);
    var back := ConvertBits(bytes, 8, 5, true).value;
    assert |back| == |symbols|;
    DigitsDetermined(0, 0, back, symbols);
  }

  lemma WholeBytes(b: seq<bool>)
    ensures |CutTo(b, 8)| % 8 == 0
  {
  }

  // ----- which strings decode

  lemma DecodesBySymbols(a: string, b: string, network: Network)
    requires DecodeSymbols(AddressPart(a)) == DecodeSymbols(AddressPart(b))
    ensures DecodeBchAddress(a, network) == DecodeBchAddress(b, network)
  {
  }

  /** The decoder returns a version and a hash exactly for the strings alike to the encoding of these. */
  lemma DecodeIsExact(addr: string, version: bv8, hash: seq<bv8>, network: Network)
    requires (version == 0 || version == 8) && |hash| == 20 && network != OtherNet
    ensures EncodeBchAddress(version, hash, network).Ok?
    ensures DecodeBchAddress(addr, network) == Ok([version] + hash) <==>
            Alike(AddressPart(addr), EncodeBchAddress(version, hash, network).value)
  {
    hide DecodeBchAddress, EncodeBchAddress, AddressPart, Alike;
    VersionEncodes(version, hash, network);
    var encoded := EncodeBchAddress(version, hash, network).value;
    DecodeEncode(version, hash, network);
    EncodedPart(version, hash, network);
    DecodeSame(AddressPart(addr), encoded);
    if Alike(AddressPart(addr), encoded) {
      DecodesBySymbols(addr, encoded, network);
    }
    if DecodeBchAddress(addr, network) == Ok([version] + hash) {
      DecodedIsEncoded(addr, version, hash, network);
    }
  }

  lemma VersionEncodes(version: bv8, hash: seq<bv8>, network: Network)
    requires (version == 0 || version == 8) && |hash| == 20 && network != OtherNet
    ensures EncodeBchAddress(version, hash, network).Ok?
  {
    hide EncodeBchAddress;
    StandardAddressesEncode(version, hash, network);
  }

  /** An encoding has no colon, and its symbols are the regrouped bytes with their checksum. */
  lemma EncodedPart(version: bv8, hash: seq<bv8>, network: Network)
    requires EncodeBchAddress(version, hash, network).Ok?
    ensures var encoded, data := EncodeBchAddress(version, hash, network).value, ConvertBits([version] + hash, 8, 5, true);
            && AddressPart(encoded) == encoded && data.Some?
            && DecodeSymbols(encoded) == WithChecksum(AddressPrefix(network).value, data.value)
  {
    hide ConvertBits, AddressPart, EncodeSymbols, DecodeSymbols, ChecksumSymbols, Checksum, PrefixSymbols;
    var prefix := AddressPrefix(network).value;
    ConvertBitsRoundTrip([version] + hash);
    var data := ConvertBits([version] + hash, 8, 5, true).value;
    ChecksumSymbolsAreSymbols(Checksum(PrefixSymbols(prefix) + data + ZEROS));
    DecodeEncodeSymbols(WithChecksum(prefix, data));
    AddressPartOf(prefix, EncodeBchAddress(version, hash, network).value);
  }

  lemma DecodedIsEncoded(addr: string, version: bv8, hash: seq<bv8>, network: Network)
    requires DecodeBchAddress(addr, network) == Ok([version] + hash) && EncodeBchAddress(version, hash, network).Ok?
    ensures DecodeSymbols(AddressPart(addr)) == DecodeSymbols(EncodeBchAddress(version, hash, network).value)
  {
    hide ConvertBits, ChecksumHolds, AddressPart, EncodeBchAddress, DecodeSymbols, ChecksumSymbols, Checksum, PrefixSymbols;
    var decoded, prefix := DecodeSymbols(AddressPart(addr)), AddressPrefix(network).value;
    DecodedLongEnough(network, AddressPart(addr));
    DecodedAreSymbols(AddressPart(addr));
    var data := decoded[..|decoded| - 8];
    ConvertBack(data);
    EncodedPart(version, hash, network);
    var expected := WithChecksum(prefix, data);
    AppendedChecksumHolds(prefix, data);
    ChecksumSymbolsAreSymbols(Checksum(PrefixSymbols(prefix) + data + ZEROS));
    CorruptionDetected(prefix, decoded, expected, |data|, |decoded|);
  }

  // ----- which hashes encode

  /**
   * A hash encodes on a known network exactly when its length is in the four-byte range of the version's low three
   * bits, which for 0 reaches down to 17 bytes because the division truncates.
   */
  lemma EncodableLengths(version: bv8, hash: seq<bv8>, network: Network)
    ensures var code, n := version as int % 8, |hash|;
            var fits := if code == 0 then 17 <= n < 24 else 20 + 4 * code <= n < 24 + 4 * code;
            && (EncodeBchAddress(version, hash, network).Ok? <==> fits && network != OtherNet)
            && (!fits ==> EncodeBchAddress(version, hash, network) == Err(InvalidVersion))
  {
  }

  /** Hash lengths by the size bits of a version, as the specification of CashAddr has them. */
  function SpecifiedLength(code: nat): nat
    requires code < 8
  {
    if code < 4 then 20 + 4 * code else 8 * code + 8
  }

  /** Of the specified combinations of size bits and hash length, those beyond 32 bytes are refused. */
  lemma LongHashesRefused(version: bv8, hash: seq<bv8>, network: Network)
    requires |hash| == SpecifiedLength(version as int % 8) && network != OtherNet
    ensures EncodeBchAddress(version, hash, network).Ok? <==> |hash| <= 32
  {
    hide EncodeBchAddress;
    EncodableLengths(version, hash, network);
  }

  /** Of an address with several colons the part between the first two counts. */
  lemma SecondPart(prefix: string, part: string, rest: string)
    requires ':' !in prefix && ':' !in part
    ensures AddressPart(prefix + ":" + part + ":" + rest) == part
  {
    var tail := part + (":" + rest);
    var addr := prefix + ":" + part + ":" + rest;
    assert addr == prefix + (":" + tail);
    UpToColonOf(prefix, ":" + tail);
    assert addr[|prefix|] == ':' && addr[|prefix| + 1..] == tail;
    UpToColonOf(part, ":" + rest);
  }
}
