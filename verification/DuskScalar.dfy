/** Hash-to-scalar reduction and scalar byte conversions. Scalars are the integers modulo q. */
module DuskScalar {
  import opened Wrappers
  import opened Bytes
  import opened DuskMontgomery

  type Scalar = x: int | 0 <= x < Q

  const R2 := Limbs(0xc999_e990_f3f2_9c6d, 0x2b6c_edcb_8792_5c23, 0x05d3_1496_7254_398f, 0x0748_d9d9_9f59_ff11)
  const R3 := Limbs(0xc62c_1807_439b_73af, 0x1b3e_0d18_8cf0_6990, 0x73d1_3c71_c7b5_f418, 0x6e2a_5bb9_c8db_33e9)

  // ----- the field operations of the circl library, by their meaning

  function ScalarMul(a: Scalar, b: Scalar): Scalar { a * b % Q }

  function ScalarAdd(a: Scalar, b: Scalar): Scalar { (a + b) % Q }

  function SetBytes(be: seq<byte>): Scalar { BeValue(be) % Q }

  // ----- limbs and bytes

  /** The number whose 64-bit words are x, least significant first. */
  function WordsValue(x: seq<u64>): (v: int)
    ensures v >= 0
  {
    if x == [] then 0 else x[0] + WORD * WordsValue(x[1..])
  }

  /** Writes one word big-endian at an offset and nothing else. */
  method PutUint64(b: array<byte>, at: nat, word: u64)
    requires at + 8 <= b.Length
    modifies b
    ensures b[..] == old(b[..at]) + BeBytes(word, 8) + old(b[at + 8..])
  {
    hide BeBytes;
    var bytes := BeBytes(word, 8);
    ghost var before := b[..];
    forall j | 0 <= j < 8 {
      b[at + j] := bytes[j];
    }
    assert b[..at] == before[..at] && b[at..at + 8] == bytes && b[at + 8..] == before[at + 8..];
  }

  lemma AppendWord(done: seq<byte>, word: u64)
    ensures BeValue(done + BeBytes(word, 8)) == word + WORD * BeValue(done)
  {
    hide BeValue, BeBytes, Pow256;
    BeValueConcat(done, BeBytes(word, 8));
    Pow256Values();
    BeValueOfBytes(word, 8);
  }

  /** The big-endian bytes written for a little-endian word list stand for the same number. */
  method Uint64Le2BytesBe(x: seq<u64>) returns (b: array<byte>)
    ensures b.Length == 8 * |x|
    ensures BeValue(b[..]) == WordsValue(x)
  {
    b := new byte[8 * |x|](_ => 0);
    var n := |x|;
    for i := 0 to n
      invariant BeValue(b[..8 * i]) == WordsValue(x[n - i..])
    {
      ghost var done := b[..8 * i];
      PutUint64(b, 8 * i, x[n - 1 - i]);
      AppendWord(done, x[n - 1 - i]);
      assert b[..8 * (i + 1)] == done + BeBytes(x[n - 1 - i], 8);
      assert x[n - (i + 1)..][1..] == x[n - i..];
    }
    assert b[..] == b[..8 * n];
    assert x == x[0..];
  }

  lemma WordsOfLimbs(x: seq<u64>)
    requires |x| == 4
    ensures WordsValue(x) == LimbsOf(x).Value()
  {
    assert x[1..][1..] == x[2..] && x[2..][1..] == x[3..] && x[3..][1..] == [];
    assert WordsValue(x[3..]) == x[3];
    assert WordsValue(x[2..]) == x[2] + WORD * x[3];
    assert WordsValue(x[1..]) == x[1] + WORD * x[2] + WORD * WORD * x[3];
  }

  /** Leaves the Montgomery domain: divides by 2^256 modulo q. */
  method ScalarFromMont(input: Limbs) returns (s: Scalar)
    ensures s == MontProduct(input.Value(), 1)
  {
    var out := MontMulByOne(input);
    var bytesBe := Uint64Le2BytesBe(out[..]);
    s := SetBytes(bytesBe[..]);
    RemainderUnique(BeValue(bytesBe[..]), 0, BeValue(bytesBe[..]));
  }

  method MontMulByOne(input: Limbs) returns (out: array<u64>)
    ensures out.Length == 4 && WordsValue(out[..]) == MontProduct(input.Value(), 1)
  {
    var arg, one := new u64[4](_ => 0), new u64[4](_ => 0);
    out := new u64[4](_ => 0);
    arg[0], arg[1], arg[2], arg[3] := input.l0, input.l1, input.l2, input.l3;
    one[0] := 1;
    assert LimbsOf(arg[..]) == input && LimbsOf(one[..]) == Limbs(1, 0, 0, 0);
    OneIsOne();
    FiatScMontMul(out, arg, one);
    WordsOfLimbs(out[..]);
  }

  lemma OneIsOne()
    ensures Limbs(1, 0, 0, 0).Value() == 1 <= Q
  {
  }

  function LimbsFromLe(bytes: seq<byte>): (r: Limbs)
    requires |bytes| == 32
    ensures r.Value() == LeValue(bytes)
  {
    WordsFromLe(bytes);
    Limbs(LeValue(bytes[0..8]), LeValue(bytes[8..16]), LeValue(bytes[16..24]), LeValue(bytes[24..32]))
  }

  lemma WordsFromLe(bytes: seq<byte>)
    requires |bytes| == 32
    ensures LeValue(bytes[0..8]) < WORD && LeValue(bytes[8..16]) < WORD
    ensures LeValue(bytes[16..24]) < WORD && LeValue(bytes[24..32]) < WORD
    ensures LeValue(bytes) == LeValue(bytes[0..8])
      + 0x1_0000000000000000 * LeValue(bytes[8..16])
      + 0x1_0000000000000000_0000000000000000 * LeValue(bytes[16..24])
      + 0x1_0000000000000000_0000000000000000_0000000000000000 * LeValue(bytes[24..32])
  {
    FirstWord(bytes);
    FirstWord(bytes[8..]);
    FirstWord(bytes[16..]);
    FirstWord(bytes[24..]);
    assert bytes[8..][..8] == bytes[8..16] && bytes[16..][..8] == bytes[16..24] && bytes[24..][..8] == bytes[24..32];
    assert bytes[8..][8..] == bytes[16..] && bytes[16..][8..] == bytes[24..] && bytes[24..][8..] == [];
    assert bytes[..8] == bytes[0..8];
  }

  lemma FirstWord(bytes: seq<byte>)
    requires |bytes| >= 8
    ensures LeValue(bytes[..8]) < WORD
    ensures LeValue(bytes) == LeValue(bytes[..8]) + WORD * LeValue(bytes[8..])
  {
    Pow256Values();
    LeRoundTrip(bytes[..8]);
    LeValueConcat(bytes[..8], bytes[8..]);
    assert bytes == bytes[..8] + bytes[8..];
  }

  /**
   * The reduction of a 64-byte digest: the two halves leave the Montgomery domain and are
   * recombined with R2 and R3. The result is the little-endian digest modulo q.
   */
  method Blake2bScalarReduce(digest: seq<byte>) returns (result: Scalar)
    requires |digest| == 64
    ensures result == LeValue(digest) % Q
  {
    var scalarMont1 := LimbsFromLe(digest[..32]);
    var d1 := ScalarFromMont(scalarMont1);
    var r2 := ScalarFromMont(R2);
    var p1 := ScalarMul(d1, r2);
    var scalarMont2 := LimbsFromLe(digest[32..]);
    var d2 := ScalarFromMont(scalarMont2);
    var r3 := ScalarFromMont(R3);
    var p2 := ScalarMul(d2, r3);
    result := ScalarAdd(p1, p2);

    Recombine(scalarMont1.Value(), scalarMont2.Value());
    HalvesOfDigest(digest);
  }

  lemma HalvesOfDigest(digest: seq<byte>)
    requires |digest| == 64
    ensures LeValue(digest) == LeValue(digest[..32]) + RADIX * LeValue(digest[32..])
  {
    assert digest == digest[..32] + digest[32..];
    LeValueConcat(digest[..32], digest[32..]);
    Pow256Values();
  }

  lemma Recombine(low: int, high: int)
    ensures ScalarAdd(ScalarMul(MontProduct(low, 1), MontProduct(R2.Value(), 1)),
                      ScalarMul(MontProduct(high, 1), MontProduct(R3.Value(), 1)))
            == (low + RADIX * high) % Q
  {
    RecombineLow(low);
    RecombineHigh(high);
    SumOfRemainders(low, RADIX * high);
  }

  lemma RecombineLow(x: int)
    ensures MontProduct(x, 1) * MontProduct(R2.Value(), 1) % Q == x % Q
  {
    var r2 := MontProduct(R2.Value(), 1);
    ProductOfRemainder(x * RADIX_INVERSE, r2);
    var c := (RADIX_INVERSE * r2 - 1) / Q;
    assert RADIX_INVERSE * r2 == 1 + c * Q;
    MultipleVanishes(x, RADIX_INVERSE, r2, 1, c);
  }

  lemma RecombineHigh(x: int)
    ensures MontProduct(x, 1) * MontProduct(R3.Value(), 1) % Q == RADIX * x % Q
  {
    var r3 := 0x748d9d99f59ff1105d314967254398f2b6cedcb87925c23c999e990f3f29c6d;
    R3LeavesRadixSquared();
    ProductOfRemainder(x * RADIX_INVERSE, r3);
    var c := (RADIX_INVERSE * r3 - RADIX) / Q;
    assert RADIX_INVERSE * r3 == RADIX + c * Q;
    MultipleVanishes(x, RADIX_INVERSE, r3, RADIX, c);
  }

  /** R3 is 2^768 modulo q, so out of the Montgomery domain it is 2^512 modulo q. */
  lemma R3LeavesRadixSquared()
    ensures MontProduct(R3.Value(), 1) == RADIX * RADIX % Q == 0x748d9d99f59ff1105d314967254398f2b6cedcb87925c23c999e990f3f29c6d
  {
    RemainderUnique(R3.Value() * 1 * RADIX_INVERSE,
      0x1a5d745d54f492c6d28245a73bb8ef588785754e7bde4168a63ae4e20aa88f53,
      0x748d9d99f59ff1105d314967254398f2b6cedcb87925c23c999e990f3f29c6d);
    RemainderUnique(RADIX * RADIX,
      0x2355094edfede377c38b5dcb707e08ed365043eb4be4bad7142737a020c0d6393,
      0x748d9d99f59ff1105d314967254398f2b6cedcb87925c23c999e990f3f29c6d);
  }

  lemma ProductOfRemainder(a: int, b: int)
    ensures (a % Q) * b % Q == a * b % Q
  {
    var k := a / Q;
    assert a * b == (k * b) * Q + (a % Q) * b;
    RemainderShift((a % Q) * b, k * b);
  }

  lemma MultipleVanishes(x: int, i: int, r: int, y: int, c: int)
    requires i * r == y + c * Q
    ensures x * i * r % Q == x * y % Q
  {
    assert x * i * r == x * (i * r) == x * y + (x * c) * Q;
    RemainderShift(x * y, x * c);
  }

  lemma RemainderShift(n: int, k: int)
    ensures (n + k * Q) % Q == n % Q
  {
  }

  lemma SumOfRemainders(a: int, b: int)
    ensures (a % Q + b % Q) % Q == (a + b) % Q
  {
    RemainderShift(a % Q + b % Q, a / Q + b / Q);
  }

  // ----- scalar to little-endian bytes

  datatype MarshalError = MarshalFailed | LengthNotMultipleOfEight

  /** Byte-swaps word by word from the end; the result is the whole marshalled string reversed. */
  method ScalarToLeBytes(marshalled: Option<seq<byte>>) returns (r: Result<seq<byte>, MarshalError>)
    ensures marshalled.None? ==> r == Err(MarshalFailed)
    ensures marshalled.Some? && |marshalled.value| % 8 != 0 ==> r == Err(LengthNotMultipleOfEight)
    ensures marshalled.Some? && |marshalled.value| % 8 == 0 ==>
              r == Ok(Reverse(marshalled.value)) && LeValue(r.value) == BeValue(marshalled.value)
  {
    if marshalled.None? {
      return Err(MarshalFailed);
    }
    var bytes := marshalled.value;
    if |bytes| % 8 != 0 {
      return Err(LengthNotMultipleOfEight);
    }
    hide Reverse, LeBytes, BeValue, LeValue;
    var leBytes := [];
    var i := |bytes|;
    NothingReversed(bytes);
    while i > 0
      invariant 0 <= i <= |bytes| && i % 8 == 0
      invariant leBytes == Reverse(bytes[i..])
    {
      var word := bytes[i - 8..i];
      WordSwap(word);
      ReverseWord(bytes, i);
      leBytes := leBytes + LeBytes(BeValue(word), 8);
      i := i - 8;
    }
    assert bytes[0..] == bytes;
    BeIsReversedLe(bytes);
    return Ok(leBytes);
  }

  lemma NothingReversed(bytes: seq<byte>)
    ensures Reverse(bytes[|bytes|..]) == []
  {
  }

  lemma ReverseWord(bytes: seq<byte>, i: nat)
    requires 8 <= i <= |bytes|
    ensures Reverse(bytes[i - 8..]) == Reverse(bytes[i..]) + Reverse(bytes[i - 8..i])
  {
    ReverseConcat(bytes[i - 8..i], bytes[i..]);
    assert bytes[i - 8..] == bytes[i - 8..i] + bytes[i..];
  }

  lemma WordSwap(word: seq<byte>)
    ensures LeBytes(BeValue(word), |word|) == Reverse(word)
  {
    BeIsReversedLe(word);
    LeRoundTrip(Reverse(word));
  }
}
