/** CashAddr strings: alphabet, bit regrouping, checksummed addresses and their decoding. */
module CashAddrCodec {
  import opened Wrappers
  import opened CashAddrChecksum

  // ----- bit regrouping, by its meaning: the same bits, most significant first, in groups of another width

  predicate Width(w: nat) {
    w == 5 || w == 8
  }

  function Bits(x: bv8, w: nat): (b: seq<bool>)
    requires Width(w)
    ensures |b| == w
  {
    var low := [x & 16 != 0, x & 8 != 0, x & 4 != 0, x & 2 != 0, x & 1 != 0];
    if w == 5 then low else [x & 128 != 0, x & 64 != 0, x & 32 != 0] + low
  }

  function Unbits(b: seq<bool>): bv8
    requires Width(|b|)
  {
    var n := |b|;
    var low: bv8 :=
      (if b[n - 5] then 16 else 0) | (if b[n - 4] then 8 else 0) | (if b[n - 3] then 4 else 0)
      | (if b[n - 2] then 2 else 0) | (if b[n - 1] then 1 else 0);
    if n == 5 then low
    else (if b[0] then 128 else 0) | (if b[1] then 64 else 0) | (if b[2] then 32 else 0) | low
  }

  lemma BitsUnbits(x: bv8)
    ensures Unbits(Bits(x, 8)) == x
  {
  }

  lemma UnbitsBits(b: seq<bool>)
    requires |b| == 5
    ensures Bits(Unbits(b), 5) == b
    ensures Unbits(b) < 32
  {
  }

  /** n divides into groups of w bits with this many left over. */
  function Leftover(n: nat, w: nat): nat
    requires Width(w)
  {
    if w == 5 then n % 5 else n % 8
  }

  function Expand(data: seq<bv8>, w: nat): (b: seq<bool>)
    requires Width(w)
    ensures |b| == if w == 5 then 5 * |data| else 8 * |data|
  {
    if data == [] then [] else Bits(data[0], w) + Expand(data[1..], w)
  }

  function Regroup(b: seq<bool>, w: nat): (data: seq<bv8>)
    requires Width(w) && Leftover(|b|, w) == 0
    ensures |b| == if w == 5 then 5 * |data| else 8 * |data|
  {
    if b == [] then [] else [Unbits(b[..w])] + Regroup(b[w..], w)
  }

  function Zeros(n: nat): (b: seq<bool>)
    ensures |b| == n
  {
    seq(n, _ => false)
  }

  function PadTo(b: seq<bool>, w: nat): (p: seq<bool>)
    requires Width(w)
    ensures Leftover(|p|, w) == 0
    ensures |b| <= |p| < |b| + w && p == b + Zeros(|p| - |b|)
  {
    b + Zeros(if Leftover(|b|, w) == 0 then 0 else w - Leftover(|b|, w))
  }

  /** The bits of the complete groups of w. */
  function CutTo(b: seq<bool>, w: nat): (c: seq<bool>)
    requires Width(w)
    ensures Leftover(|c|, w) == 0
    ensures |c| + Leftover(|b|, w) == |b| && c == b[..|c|]
  {
    b[..|b| - Leftover(|b|, w)]
  }

  /** An unpadded remainder is refused when it is longer than four bits or not all zero. */
  function ConvertBits(data: seq<bv8>, from: nat, to: nat, pad: bool): Option<seq<bv8>>
    requires Width(from) && Width(to)
  {
    var b := Expand(data, from);
    if pad then Some(Regroup(PadTo(b, to), to))
    else
      var whole := CutTo(b, to);
      var rest := b[|whole|..];
      if |rest| > 4 || rest != Zeros(|rest|) then None else Some(Regroup(whole, to))
  }

  lemma {:induction false} RegroupExpand(data: seq<bv8>)
    ensures Regroup(Expand(data, 8), 8) == data
  {
    hide Bits, Unbits;
    if data != [] {
      BitsUnbits(data[0]);
      RegroupExpand(data[1..]);
      var b := Expand(data, 8);
      assert b[..8] == Bits(data[0], 8) && b[8..] == Expand(data[1..], 8);
    }
  }

  lemma {:induction false} ExpandRegroup(b: seq<bool>)
    requires |b| % 5 == 0
    ensures Expand(Regroup(b, 5), 5) == b
    ensures Symbols(Regroup(b, 5))
  {
    hide Bits, Unbits;
    if b != [] {
      UnbitsBits(b[..5]);
      ExpandRegroup(b[5..]);
      var data := Regroup(b, 5);
      assert data[0] == Unbits(b[..5]) && data[1..] == Regroup(b[5..], 5);
      assert b == b[..5] + b[5..];
    }
  }

  /** Regrouping bytes into padded symbols loses nothing, for byte strings of any length. */
  lemma ConvertBitsRoundTrip(data: seq<bv8>)
    ensures var symbols := ConvertBits(data, 8, 5, true);
            symbols.Some? && Symbols(symbols.value) && ConvertBits(symbols.value, 5, 8, false) == Some(data)
  {
    hide Bits, Unbits, Expand, Regroup;
    var b := Expand(data, 8);
    var padded := PadTo(b, 5);
    ExpandRegroup(padded);
    RegroupExpand(data);
    LeftoverOfPadding(|data|, |padded| - |b|);
    assert CutTo(padded, 8) == b;
    assert padded[|b|..] == Zeros(|padded| - |b|);
  }

  lemma LeftoverOfPadding(n: nat, padding: nat)
    requires padding < 5
    ensures Leftover(8 * n + padding, 8) == padding
  {
  }

  // ----- the alphabet

  const ALPHABET := "qpzry9x8gf2tvdw0s3jn54khce6mua7l"

  /** The position of c in the alphabet at or after i; 0 for a character that is not there, as a Go map read gives. */
  function IndexFrom(c: char, i: nat): (k: nat)
    requires i <= 32
    ensures k < 32
    decreases 32 - i
  {
    if i == 32 then 0 else if ALPHABET[i] == c then i else IndexFrom(c, i + 1)
  }

  function ReverseLookup(c: char): bv8 {
    IndexFrom(c, 0) as bv8
  }

  lemma AlphabetDistinct(m: nat, n: nat)
    requires m < n < 32
    ensures ALPHABET[m] != ALPHABET[n]
  {
  }

  lemma AlphabetHasNoColon(m: nat)
    requires m < 32
    ensures ALPHABET[m] != ':'
  {
  }

  lemma {:induction false} IndexOfLetter(i: nat, k: nat)
    requires k <= i < 32
    ensures IndexFrom(ALPHABET[i], k) == i
    decreases i - k
  {
    if k < i {
      AlphabetDistinct(k, i);
      IndexOfLetter(i, k + 1);
    }
  }

  lemma LookupLetter(d: bv8)
    requires d < 32
    ensures d as int < 32 && ReverseLookup(ALPHABET[d as int]) == d
    ensures ALPHABET[d as int] != ':'
  {
    IndexOfLetter(d as int, 0);
    AlphabetHasNoColon(d as int);
  }

  lemma LookupSmall(c: char)
    ensures ReverseLookup(c) < 32
  {
  }

  lemma {:induction false} LookupFrom(c: char, i: nat)
    requires i <= 32
    ensures IndexFrom(c, i) < 32 == |ALPHABET|
    ensures ALPHABET[IndexFrom(c, i)] == c
            || (IndexFrom(c, i) == 0 && forall k :: i <= k < 32 ==> ALPHABET[k] != c)
    decreases 32 - i
  {
    AlphabetSize();
    if i < 32 {
      LookupFrom(c, i + 1);
    }
  }

  lemma AlphabetSize()
    ensures |ALPHABET| == 32
  {
  }

  /** Characters that decode like the letter of symbol 0: that letter itself and everything outside the alphabet. */
  predicate ReadsAsZero(c: char) {
    c == 'q' || c !in ALPHABET
  }

  lemma IndexSame(c: char, d: char)
    ensures |ALPHABET| == 32
    ensures ALPHABET[IndexFrom(c, 0)] == c <==> c in ALPHABET
    ensures IndexFrom(c, 0) == IndexFrom(d, 0) <==> c == d || (ReadsAsZero(c) && ReadsAsZero(d))
  {
    hide IndexFrom;
    LookupFrom(c, 0);
    LookupFrom(d, 0);
  }

  /** Two characters decode to one symbol exactly when they are the same or both read as zero. */
  lemma LookupSame(c: char, d: char)
    ensures ReverseLookup(c) as int < 32
    ensures ALPHABET[ReverseLookup(c) as int] == c <==> c in ALPHABET
    ensures ReverseLookup(c) == ReverseLookup(d) <==> c == d || (ReadsAsZero(c) && ReadsAsZero(d))
  {
    hide IndexFrom, ReadsAsZero;
    IndexSame(c, d);
    SmallBytes(IndexFrom(c, 0), IndexFrom(d, 0));
  }

  lemma SmallBytes(i: nat, j: nat)
    requires i < 32 && j < 32
    ensures (i as bv8) as int == i && (i as bv8 == j as bv8 <==> i == j)
  {
  }

  function DecodeSymbols(address: string): (v: seq<bv8>)
    ensures |v| == |address|
  {
    seq(|address|, i requires 0 <= i < |address| => ReverseLookup(address[i]))
  }

  method DecodeBchString(address: string) returns (data: seq<bv8>)
    ensures data == DecodeSymbols(address)
  {
    data := [];
    for i := 0 to |address|
      invariant data == DecodeSymbols(address)[..i]
    {
      data := data + [ReverseLookup(address[i])];
    }
  }

  lemma SymbolIndex(v: seq<bv8>, i: nat)
    requires Symbols(v) && i < |v|
    ensures v[i] as int < 32
  {
    LookupLetter(v[i]);
  }

  function EncodeSymbols(data: seq<bv8>): (s: string)
    requires Symbols(data)
    ensures |s| == |data|
  {
    seq(|data|, i requires 0 <= i < |data| => SymbolIndex(data, i); ALPHABET[data[i] as int])
  }

  method EncodeToBchString(data: seq<bv8>) returns (addr: string)
    requires Symbols(data)
    ensures addr == EncodeSymbols(data)
  {
    addr := [];
    for i := 0 to |data|
      invariant addr == EncodeSymbols(data)[..i]
    {
      SymbolIndex(data, i);
      addr := addr + [ALPHABET[data[i] as int]];
    }
  }

  lemma DecodeEncodeSymbols(data: seq<bv8>)
    requires Symbols(data)
    ensures DecodeSymbols(EncodeSymbols(data)) == data
    ensures ':' !in EncodeSymbols(data)
  {
    forall i | 0 <= i < |data|
      ensures ReverseLookup(EncodeSymbols(data)[i]) == data[i] && EncodeSymbols(data)[i] != ':'
    {
      LookupLetter(data[i]);
    }
  }

  predicate InAlphabet(s: string) {
    forall i :: 0 <= i < |s| ==> s[i] in ALPHABET
  }

  /** Equal but for characters that both read as zero. */
  predicate Alike(a: string, b: string) {
    |a| == |b| && forall i :: 0 <= i < |a| ==> a[i] == b[i] || (ReadsAsZero(a[i]) && ReadsAsZero(b[i]))
  }

  /** Encoding inverts decoding exactly on strings over the alphabet. */
  lemma EncodeDecodeString(s: string)
    ensures Symbols(DecodeSymbols(s))
    ensures EncodeSymbols(DecodeSymbols(s)) == s <==> InAlphabet(s)
  {
    hide ReverseLookup;
    DecodedAreSymbols(s);
    forall i | 0 <= i < |s|
      ensures EncodeSymbols(DecodeSymbols(s))[i] == s[i] <==> s[i] in ALPHABET
    {
      LookupSame(s[i], s[i]);
    }
  }

  /** Strings decode alike exactly when they are alike, and over the alphabet only when they are equal. */
  lemma DecodeSame(a: string, b: string)
    ensures DecodeSymbols(a) == DecodeSymbols(b) <==> Alike(a, b)
    ensures InAlphabet(a) && InAlphabet(b) ==> (Alike(a, b) <==> a == b)
  {
    hide ReverseLookup, ReadsAsZero;
    var va, vb := DecodeSymbols(a), DecodeSymbols(b);
    if |a| == |b| {
      forall i | 0 <= i < |a|
        ensures va[i] == vb[i] <==> a[i] == b[i] || (ReadsAsZero(a[i]) && ReadsAsZero(b[i]))
      {
        LookupSame(a[i], b[i]);
      }
    }
    forall i | 0 <= i < |a| && i < |b| && a[i] in ALPHABET && b[i] in ALPHABET && ReadsAsZero(a[i]) && ReadsAsZero(b[i])
      ensures a[i] == b[i]
    {
      OnlyLetterZero(a[i]);
      OnlyLetterZero(b[i]);
    }
  }

  lemma OnlyLetterZero(c: char)
    requires ReadsAsZero(c) && c in ALPHABET
    ensures c == 'q'
  {
  }

  /** A character outside the alphabet goes unnoticed where a 'q' stood. */
  lemma UnknownReadsAsQ()
    ensures 'b' !in ALPHABET && DecodeSymbols("b") == DecodeSymbols("q")
  {
    LookupSame('b', 'q');
  }

  // ----- prefixes

  datatype Network = MainNet | TestNet | RegTest | OtherNet

  datatype AddressError =
    | InvalidNetwork
    | InvalidVersion
    | InvalidBits
    | ChecksumMismatch
    | UnknownAddressType
    | UnknownSize

  function AddressPrefix(network: Network): Result<string, AddressError> {
    match network
    case MainNet => Ok("bitcoincash")
    case TestNet => Ok("bchtest")
    case RegTest => Ok("bchreg")
    case OtherNet => Err(InvalidNetwork)
  }

  /** byte(c) & 0x1f: the low five bits. */
  function PrefixSymbol(c: char): bv8 {
    (c as int % 32) as bv8
  }

  /** The low five bits of each prefix character, then a zero. */
  function PrefixSymbols(prefix: string): seq<bv8> {
    seq(|prefix|, i requires 0 <= i < |prefix| => PrefixSymbol(prefix[i])) + [0]
  }

  method EncodePrefix(prefixString: string) returns (prefixBytes: array<bv8>)
    ensures prefixBytes[..] == PrefixSymbols(prefixString)
  {
    prefixBytes := new bv8[|prefixString| + 1](_ => 0);
    for i := 0 to |prefixString|
      invariant forall k :: 0 <= k < i ==> prefixBytes[k] == PrefixSymbol(prefixString[k])
    {
      prefixBytes[i] := PrefixSymbol(prefixString[i]);
    }
    prefixBytes[|prefixString|] := 0;
  }

  predicate ChecksumHolds(prefix: string, payload: seq<bv8>) {
    Checksum(PrefixSymbols(prefix) + payload) == 0
  }

  method VerifyChecksum(prefix: string, payload: seq<bv8>) returns (ok: bool)
    ensures ok == ChecksumHolds(prefix, payload)
  {
    var prefixBytes := EncodePrefix(prefix);
    var mod := PolyMod(prefixBytes[..] + payload);
    ok := mod == 0;
  }

  function WithChecksum(prefix: string, payload: seq<bv8>): seq<bv8> {
    payload + ChecksumSymbols(Checksum(PrefixSymbols(prefix) + payload + ZEROS))
  }

  method AppendBchChecksum(prefix: string, payload: seq<bv8>) returns (r: seq<bv8>)
    ensures r == WithChecksum(prefix, payload)
    ensures ChecksumHolds(prefix, r)
  {
    hide Checksum, ChecksumSymbol;
    var prefixBytes := EncodePrefix(prefix);
    var prefixedPayload := prefixBytes[..] + payload;
    var mod := PolyMod(prefixedPayload + ZEROS);
    var checksum := new bv8[8](_ => 0);
    for i := 0 to 8
      invariant forall k :: 0 <= k < i ==> checksum[k] == ChecksumSymbol(mod, k)
    {
      checksum[i] := ChecksumSymbol(mod, i);
    }
    assert checksum[..] == ChecksumSymbols(mod);
    r := payload + checksum[..];
    AppendedChecksumHolds(prefix, payload);
  }

  /** Appending always yields a verifying payload: any prefix, any payload bytes, any length. */
  lemma AppendedChecksumHolds(prefix: string, payload: seq<bv8>)
    ensures ChecksumHolds(prefix, WithChecksum(prefix, payload))
  {
    hide Checksum, ChecksumSymbol, ChecksumSymbols;
    var v := PrefixSymbols(prefix) + payload;
    ChecksumVerifies(v);
    assert PrefixSymbols(prefix) + WithChecksum(prefix, payload) == v + ChecksumSymbols(Checksum(v + ZEROS));
  }

  /** Differences confined to eight consecutive symbols are detected whatever the prefix and the length. */
  lemma CorruptionDetected(prefix: string, payload: seq<bv8>, other: seq<bv8>, start: nat, end: nat)
    requires |payload| == |other| && start <= end <= |payload| && end - start <= 8
    requires payload[..start] == other[..start] && payload[end..] == other[end..]
    requires Symbols(payload) && Symbols(other)
    requires ChecksumHolds(prefix, payload)
    ensures ChecksumHolds(prefix, other) <==> payload == other
  {
    hide Checksum;
    var p := PrefixSymbols(prefix);
    var n := |p|;
    assert (p + payload)[..n + start] == p + payload[..start] && (p + other)[..n + start] == p + other[..start];
    assert (p + payload)[n + end..] == payload[end..] && (p + other)[n + end..] == other[end..];
    assert (p + payload)[n + start..n + end] == payload[start..end];
    assert (p + other)[n + start..n + end] == other[start..end];
    BurstDetected(p + payload, p + other, n + start, n + end);
    assert (p + payload)[n..] == payload && (p + other)[n..] == other;
  }

  /**
   * On strings: a corruption within eight consecutive characters goes undetected exactly when the strings are
   * alike, so over the alphabet every one is detected.
   */
  lemma StringCorruptionDetected(prefix: string, a: string, b: string, start: nat, end: nat)
    requires |a| == |b| && start <= end <= |a| && end - start <= 8
    requires a[..start] == b[..start] && a[end..] == b[end..]
    requires ChecksumHolds(prefix, DecodeSymbols(a))
    ensures ChecksumHolds(prefix, DecodeSymbols(b)) <==> Alike(a, b)
    ensures InAlphabet(a) && InAlphabet(b) ==> (ChecksumHolds(prefix, DecodeSymbols(b)) <==> a == b)
  {
    hide ChecksumHolds, ReverseLookup, Alike, InAlphabet;
    var va, vb := DecodeSymbols(a), DecodeSymbols(b);
    DecodedAreSymbols(a);
    DecodedAreSymbols(b);
    SameEnds(a, b, start, end);
    CorruptionDetected(prefix, va, vb, start, end);
    DecodeSame(a, b);
  }

  lemma SameEnds(a: string, b: string, start: nat, end: nat)
    requires |a| == |b| && start <= end <= |a|
    requires a[..start] == b[..start] && a[end..] == b[end..]
    ensures DecodeSymbols(a)[..start] == DecodeSymbols(b)[..start]
    ensures DecodeSymbols(a)[end..] == DecodeSymbols(b)[end..]
  {
    forall i | 0 <= i < |a| && (i < start || end <= i)
      ensures a[i] == b[i]
    {
      if i < start {
        assert a[..start][i] == b[..start][i];
      } else {
        assert a[end..][i - end] == b[end..][i - end];
      }
    }
  }

  // ----- no string of fewer than eight symbols verifies, so the decoder's slice never underflows

  /** The register after each network's prefix. */
  function PrefixState(network: Network): bv64 {
    match network
    case MainNet => 0xf669cd6d15
    case TestNet => 0x8823fe40e1
    case _ => 0x8868914e0
  }

  lemma PrefixReaches(network: Network)
    requires AddressPrefix(network).Ok?
    ensures Run(1, PrefixSymbols(AddressPrefix(network).value)) == PrefixState(network)
  {
    match network
    case MainNet => MainNetPrefix();
    case TestNet => TestNetPrefix();
    case _ => RegTestPrefix();
  }

  /** Zeros fed to the register one by one, given what each step makes of the last state. */
  lemma SevenZeros(s: seq<bv64>, n: nat)
    requires |s| == 8 && n < 8 && forall i :: 0 <= i < 7 ==> Step(s[i], 0) == s[i + 1]
    ensures Run(s[0], ZEROS[..n]) == s[n]
  {
    hide Step;
    if n == 0 {
      assert ZEROS[..0] == [];
    } else {
      SevenZeros(s, n - 1);
      assert ZEROS[..n] == ZEROS[..n - 1] + [0];
      RunConcat(s[0], ZEROS[..n - 1], [0]);
      assert Run(s[n - 1], [0]) == Run(Step(s[n - 1], 0), []);
    }
  }

  lemma MainNetPrefix()
    ensures Run(1, PrefixSymbols("bitcoincash")) == 0xf669cd6d15
  {
    MainNetSymbols();
    assert Run(1, [2, 9, 20, 3, 15, 9, 14, 3, 1, 19, 8, 0]) == 0xf669cd6d15;
  }

  lemma MainNetSymbols()
    ensures PrefixSymbols("bitcoincash") == [2, 9, 20, 3, 15, 9, 14, 3, 1, 19, 8, 0]
  {
  }

  lemma MainNetSteps()
    ensures Step(0xf669cd6d15, 0) == 0xf7d1778e5e && Step(0xf7d1778e5e, 0) == 0xc0c62be73e
    ensures Step(0xc0c62be73e, 0) == 0xa8a494e118 && Step(0xa8a494e118, 0) == 0x61113cfad5
    ensures Step(0x61113cfad5, 0) == 0x7f376b0bcc && Step(0x7f376b0bcc, 0) == 0x5ab8443f6f
    ensures Step(0x5ab8443f6f, 0) == 0x1863fd18cb
  {
  }

  lemma MainNetZeros(n: nat)
    requires n < 8
    ensures !Low(Xor(Run(0xf669cd6d15, ZEROS[..n]), 1), n)
  {
    hide Step, Run;
    MainNetSteps();
    SevenZeros([0xf669cd6d15, 0xf7d1778e5e, 0xc0c62be73e, 0xa8a494e118,
                0x61113cfad5, 0x7f376b0bcc, 0x5ab8443f6f, 0x1863fd18cb], n);
  }

  lemma TestNetPrefix()
    ensures Run(1, PrefixSymbols("bchtest")) == 0x8823fe40e1
  {
    TestNetSymbols();
    assert Run(1, [2, 3, 8, 20, 5, 19, 20, 0]) == 0x8823fe40e1;
  }

  lemma TestNetSymbols()
    ensures PrefixSymbols("bchtest") == [2, 3, 8, 20, 5, 19, 20, 0]
  {
  }

  lemma TestNetSteps()
    ensures Step(0x8823fe40e1, 0) == 0x82c2377631 && Step(0x82c2377631, 0) == 0x4609ad2250
    ensures Step(0x4609ad2250, 0) == 0x6f1b0fa8a8 && Step(0x6f1b0fa8a8, 0) == 0x2683bdca0d
    ensures Step(0x2683bdca0d, 0) == 0x2349e6f264 && Step(0x2349e6f264, 0) == 0x9a0281ff44
    ensures Step(0x9a0281ff44, 0) == 0xbf5aad1b73
  {
  }

  lemma TestNetZeros(n: nat)
    requires n < 8
    ensures !Low(Xor(Run(0x8823fe40e1, ZEROS[..n]), 1), n)
  {
    hide Step, Run;
    TestNetSteps();
    SevenZeros([0x8823fe40e1, 0x82c2377631, 0x4609ad2250, 0x6f1b0fa8a8,
                0x2683bdca0d, 0x2349e6f264, 0x9a0281ff44, 0xbf5aad1b73], n);
  }

  lemma RegTestPrefix()
    ensures Run(1, PrefixSymbols("bchreg")) == 0x8868914e0
  {
    RegTestSymbols();
    assert Run(1, [2, 3, 8, 18, 5, 7, 0]) == 0x8868914e0;
  }

  lemma RegTestSymbols()
    ensures PrefixSymbols("bchreg") == [2, 3, 8, 18, 5, 7, 0]
  {
  }

  lemma RegTestSteps()
    ensures Step(0x8868914e0, 0) == 0x88239e1261 && Step(0x88239e1261, 0) == 0x82ce3d2631
    ensures Step(0x82ce3d2631, 0) == 0x4788e72250 && Step(0x4788e72250, 0) == 0x5f324fa8a8
    ensures Step(0x5f324fa8a8, 0) == 0xa9228fe02b && Step(0xa9228fe02b, 0) == 0x51d25cdcb5
    ensures Step(0x51d25cdcb5, 0) == 0xedd25dedea
  {
  }

  lemma RegTestZeros(n: nat)
    requires n < 8
    ensures !Low(Xor(Run(0x8868914e0, ZEROS[..n]), 1), n)
  {
    hide Step, Run;
    RegTestSteps();
    SevenZeros([0x8868914e0, 0x88239e1261, 0x82ce3d2631, 0x4788e72250,
                0x5f324fa8a8, 0xa9228fe02b, 0x51d25cdcb5, 0xedd25dedea], n);
  }

  lemma PrefixZeros(network: Network, n: nat)
    requires AddressPrefix(network).Ok? && n < 8
    ensures !Low(Xor(Run(PrefixState(network), ZEROS[..n]), 1), n)
  {
    hide Run, Low, Xor;
    match network
    case MainNet => MainNetZeros(n);
    case TestNet => TestNetZeros(n);
    case _ => RegTestZeros(n);
  }

  lemma ShortNeverVerifies(network: Network, payload: seq<bv8>)
    requires AddressPrefix(network).Ok? && Symbols(payload) && |payload| < 8
    ensures !ChecksumHolds(AddressPrefix(network).value, payload)
  {
    hide Run, Low, Xor, PrefixState, AddressPrefix, PrefixSymbols;
    var prefix, n := PrefixSymbols(AddressPrefix(network).value), |payload|;
    var s, zeros := PrefixState(network), ZEROS[..n];
    PrefixReaches(network);
    RunConcat(1, prefix, payload);
    NoGap(s);
    WindowSeparates(s, s, payload, zeros, 0);
    PrefixZeros(network, n);
    Commute(1, Run(s, zeros));
    XorZero(Run(s, payload), 1);
  }

  // ----- addresses

  /** Go's division, which truncates toward zero. */
  function TruncatedQuotient(a: int, b: int): int
    requires b > 0
  {
    if a >= 0 then a / b else -(-a / b)
  }

  function EncodeBchAddress(version: bv8, hash: seq<bv8>, network: Network): Result<string, AddressError> {
    if TruncatedQuotient(|hash| - 20, 4) != version as int % 8 then Err(InvalidVersion)
    else
      var data := ConvertBits([version] + hash, 8, 5, true);
      match AddressPrefix(network)
      case Err(e) => Err(e)
      case Ok(prefix) =>
        ConvertBitsRoundTrip([version] + hash);
        ChecksumSymbolsAreSymbols(Checksum(PrefixSymbols(prefix) + data.value + ZEROS));
        Ok(EncodeSymbols(WithChecksum(prefix, data.value)))
  }

  lemma ChecksumSymbolsAreSymbols(mod: bv64)
    ensures Symbols(ChecksumSymbols(mod))
  {
    forall i | 0 <= i < 8
      ensures ChecksumSymbol(mod, i) < 32
    {
      FiveBits(Leading(mod, i + 1));
    }
  }

  lemma FiveBits(x: bv64)
    ensures (x & 0x1f) as bv8 < 32
  {
  }

  /** The text before the first colon of s. */
  function UpToColon(s: string): (r: string)
    ensures |r| <= |s|
    ensures ':' in s ==> |r| < |s|
  {
    if s == "" || s[0] == ':' then "" else [s[0]] + UpToColon(s[1..])
  }

  /** The second colon-separated part if there is one, otherwise the whole address. */
  function AddressPart(addr: string): string {
    if ':' in addr then UpToColon(addr[|UpToColon(addr)| + 1..]) else addr
  }

  lemma {:induction false} UpToColonOf(p: string, s: string)
    requires ':' !in p && (s == "" || s[0] == ':')
    ensures UpToColon(p + s) == p
  {
    if p == "" {
      assert p + s == s;
    } else {
      UpToColonOf(p[1..], s);
      assert (p + s)[1..] == p[1..] + s;
    }
  }

  lemma AddressPartOf(prefix: string, encoded: string)
    requires ':' !in prefix && ':' !in encoded
    ensures AddressPart(encoded) == encoded
    ensures AddressPart(prefix + ":" + encoded) == encoded
  {
    var addr := prefix + ":" + encoded;
    assert addr[|prefix|] == ':';
    UpToColonOf(prefix, ":" + encoded);
    assert addr == prefix + (":" + encoded);
    assert addr[|prefix| + 1..] == encoded == encoded + "";
    UpToColonOf(encoded, "");
  }

  /** The cashaddr path of the decoder, reached when the string is no legacy address. */
  function DecodeBchAddress(addr: string, network: Network): Result<seq<bv8>, AddressError> {
    var part := AddressPart(addr);
    var decoded := DecodeSymbols(part);
    match AddressPrefix(network)
    case Err(e) => Err(e)
    case Ok(prefix) =>
      if !ChecksumHolds(prefix, decoded) then Err(ChecksumMismatch)
      else
        DecodedLongEnough(network, part);
        match ConvertBits(decoded[..|decoded| - 8], 5, 8, false)
        case None => Err(InvalidBits)
        case Some(addrBytes) =>
          if |addrBytes| - 1 != 20 then Err(UnknownSize)
          else if addrBytes[0] == 0 || addrBytes[0] == 8 then Ok(addrBytes)
          else Err(UnknownAddressType)
  }

  lemma DecodedLongEnough(network: Network, part: string)
    requires AddressPrefix(network).Ok? && ChecksumHolds(AddressPrefix(network).value, DecodeSymbols(part))
    ensures |DecodeSymbols(part)| >= 8
  {
    DecodedAreSymbols(part);
    if |DecodeSymbols(part)| < 8 {
      ShortNeverVerifies(network, DecodeSymbols(part));
    }
  }

  lemma DecodedAreSymbols(part: string)
    ensures Symbols(DecodeSymbols(part))
  {
    forall i | 0 <= i < |part|
      ensures ReverseLookup(part[i]) < 32
    {
      LookupSmall(part[i]);
    }
  }

  /**
   * Decoding inverts encoding, with or without the network prefix: a 20-byte hash comes back with its
   * version for versions 0 and 8, and every other encodable address is refused for the stated reason.
   */
  lemma DecodeEncode(version: bv8, hash: seq<bv8>, network: Network)
    requires EncodeBchAddress(version, hash, network).Ok?
    ensures var encoded := EncodeBchAddress(version, hash, network).value;
            var full := AddressPrefix(network).value + ":" + encoded;
            DecodeBchAddress(encoded, network) == DecodeBchAddress(full, network) ==
            if |hash| != 20 then Err(UnknownSize)
            else if version == 0 || version == 8 then Ok([version] + hash)
            else Err(UnknownAddressType)
  {
    hide Checksum, ChecksumSymbols, PrefixSymbols, ConvertBits, ChecksumHolds, AddressPart, EncodeSymbols, DecodeSymbols;
    var prefix := AddressPrefix(network).value;
    var bytes := [version] + hash;
    ConvertBitsRoundTrip(bytes);
    var data := ConvertBits(bytes, 8, 5, true).value;
    ChecksumSymbolsAreSymbols(Checksum(PrefixSymbols(prefix) + data + ZEROS));
    var payload := WithChecksum(prefix, data);
    var encoded := EncodeSymbols(payload);
    DecodeEncodeSymbols(payload);
    AppendedChecksumHolds(prefix, data);
    AddressPartOf(prefix, encoded);
    assert payload[..|payload| - 8] == data;
    assert ':' in prefix + ":" + encoded by {
      assert (prefix + ":" + encoded)[|prefix|] == ':';
    }
  }

  /**
   * On addresses: of those that differ from a decodable one within eight consecutive characters, the decoder
   * refuses all but the alike ones, which decode to the same bytes. Over the alphabet it refuses every one.
   */
  lemma AddressCorruptionDetected(addr: string, other: string, network: Network, start: nat, end: nat)
    requires DecodeBchAddress(addr, network).Ok?
    requires var a, b := AddressPart(addr), AddressPart(other);
             && |a| == |b| && start <= end <= |a| && end - start <= 8
             && a[..start] == b[..start] && a[end..] == b[end..]
    ensures var a, b := AddressPart(addr), AddressPart(other);
            && DecodeBchAddress(other, network) ==
               (if Alike(a, b) then DecodeBchAddress(addr, network) else Err(ChecksumMismatch))
            && (InAlphabet(a) && InAlphabet(b) ==> (Alike(a, b) <==> a == b))
  {
    hide ChecksumHolds, ReverseLookup, Alike, InAlphabet, AddressPart;
    var a, b := AddressPart(addr), AddressPart(other);
    StringCorruptionDetected(AddressPrefix(network).value, a, b, start, end);
    DecodeSame(a, b);
  }

  /** Versions 0 and 8 are encodable for every 20-byte hash on every known network. */
  lemma StandardAddressesEncode(version: bv8, hash: seq<bv8>, network: Network)
    requires |hash| == 20
    ensures EncodeBchAddress(version, hash, network).Ok? <==> version as int % 8 == 0 && network != OtherNet
  {
  }

  // ----- decoded bytes to an address script

  /** LegacyBytes stands for the hand-off to base58, which is not part of this model. */
  datatype BchAddress = PubKeyHash(hash: seq<bv8>) | ScriptHash(hash: seq<bv8>) | LegacyBytes(bytes: seq<bv8>)

  function BchAddressFromBytes(addrBytes: seq<bv8>): Result<BchAddress, AddressError> {
    if |addrBytes| - 1 != 20 then Ok(LegacyBytes(addrBytes))
    else if addrBytes[0] == 0 then Ok(PubKeyHash(addrBytes[1..21]))
    else if addrBytes[0] == 8 then Ok(ScriptHash(addrBytes[1..21]))
    else Err(UnknownAddressType)
  }

  /** A P2PKH or P2SH address survives encoding, decoding and classification. */
  lemma AddressRoundTrip(hash: seq<bv8>, network: Network, script: bool)
    requires |hash| == 20 && network != OtherNet
    ensures var version: bv8 := if script then 8 else 0;
            var encoded := EncodeBchAddress(version, hash, network);
            encoded.Ok? && DecodeBchAddress(encoded.value, network).Ok?
            && BchAddressFromBytes(DecodeBchAddress(encoded.value, network).value)
               == Ok(if script then ScriptHash(hash) else PubKeyHash(hash))
  {
    hide EncodeBchAddress, DecodeBchAddress;
    var version: bv8 := if script then 8 else 0;
    StandardAddressesEncode(version, hash, network);
    DecodeEncode(version, hash, network);
    assert ([version] + hash)[1..21] == hash;
  }
}
