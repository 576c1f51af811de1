/** Montgomery multiplication for the BLS12-381 scalar field, on four 64-bit limbs. */
module DuskMontgomery {
  import opened Bytes
  import opened Numbers

  /** One 64-bit machine word, as an integer. */
  const WORD: int := 0x1_0000_0000_0000_0000

  /** The group order q of BLS12-381 and the Montgomery radix 2^256. */
  const Q: int := 0x73eda753299d7d483339d80809a1d80553bda402fffe5bfeffffffff00000001
  const RADIX: int := 0x1_0000000000000000_0000000000000000_0000000000000000_0000000000000000

  /** The inverse of the radix modulo q. */
  const RADIX_INVERSE: int := 0x1bbe869330009d577204078a4f77266aab6fca8f09dc705f13f75b69fe75c040

  /** Little-endian limbs: l0 is the least significant word. */
  datatype Limbs = Limbs(l0: u64, l1: u64, l2: u64, l3: u64) {
    function Value(): (v: int)
      ensures 0 <= v < RADIX
    {
      l0
      + 0x1_0000000000000000 * l1
      + 0x1_0000000000000000_0000000000000000 * l2
      + 0x1_0000000000000000_0000000000000000_0000000000000000 * l3
    }
  }

  /** A five-word running value. */
  datatype Wide = Wide(w0: u64, w1: u64, w2: u64, w3: u64, w4: u64) {
    function Value(): int {
      Limbs(w0, w1, w2, w3).Value() + RADIX * w4
    }
  }

  const MODULUS := Limbs(0xffffffff00000001, 0x53bda402fffe5bfe, 0x3339d80809a1d805, 0x73eda753299d7d48)

  function LimbsOf(s: seq<u64>): Limbs
    requires |s| == 4
  {
    Limbs(s[0], s[1], s[2], s[3])
  }

  /** x and y leave the same remainder modulo q. */
  predicate Congruent(x: int, y: int) {
    (x - y) % Q == 0
  }

  /** The field element that Montgomery multiplication stands for: a * b / 2^256 modulo q. */
  function MontProduct(a: int, b: int): (r: int)
    ensures 0 <= r < Q
  {
    a * b * RADIX_INVERSE % Q
  }

  // ----- word operations of the math/bits package

  lemma ProductBound(x: u64, y: u64)
    ensures 0 <= x * y <= 0xffff_ffff_ffff_ffff * 0xffff_ffff_ffff_ffff
  {
    MulMonotone(0, x, y);
    MulMonotone(x, 0xffff_ffff_ffff_ffff, y);
  }

  method Mul64(x: u64, y: u64) returns (hi: u64, lo: u64)
    ensures WORD * hi + lo == x * y
    ensures hi <= WORD - 2
  {
    ProductBound(x, y);
    var product := x * y;
    hi, lo := product / WORD, product % WORD;
  }

  method Add64(x: u64, y: u64, carry: u64) returns (sum: u64, carryOut: u64)
    requires carry <= 1
    ensures sum + WORD * carryOut == x + y + carry
    ensures carryOut <= 1
  {
    sum, carryOut := (x + y + carry) % WORD, (x + y + carry) / WORD;
  }

  method Sub64(x: u64, y: u64, borrow: u64) returns (diff: u64, borrowOut: u64)
    requires borrow <= 1
    ensures diff - WORD * borrowOut == x - y - borrow
    ensures borrowOut <= 1
  {
    diff := (x - y - borrow) % WORD;
    borrowOut := if x < y + borrow then 1 else 0;
  }

  /** Go's unchecked addition of two words, which wraps. */
  function WrappingAdd(x: u64, y: u64): u64 {
    (x + y) % WORD
  }

  /** The branch-free selection, on the bits of the words. */
  function CselectU64(b: bv64, x: bv64, y: bv64): bv64 {
    (x & !(0 - b)) | (y & (0 - b))
  }

  lemma CselectSelects(b: bv64, x: bv64, y: bv64)
    requires b == 0 || b == 1
    ensures CselectU64(b, x, y) == if b == 0 then x else y
  {
    if b == 0 {
      assert 0 - b == 0;
      assert !(0 - b) == 0xffff_ffff_ffff_ffff;
      MaskAll(x, y);
    } else {
      assert 0 - b == 0xffff_ffff_ffff_ffff;
      assert !(0 - b) == 0;
      MaskAll(y, x);
    }
  }

  lemma MaskAll(x: bv64, y: bv64)
    ensures (x & 0xffff_ffff_ffff_ffff) | (y & 0) == x == (y & 0) | (x & 0xffff_ffff_ffff_ffff)
  {
  }

  /** What CselectSelects shows the selection to be, on integer words. */
  function Select(b: u64, x: u64, y: u64): u64 {
    if b == 0 then x else y
  }

  // ----- the three repeating blocks of the unrolled code

  /** One word times four words; the top word is added unchecked and does not wrap. */
  method MulWord(x: u64, y: Limbs) returns (row: Wide)
    ensures row.Value() == x * y.Value()
  {
    var hi3, lo3 := Mul64(x, y.l3);
    var hi2, lo2 := Mul64(x, y.l2);
    var hi1, lo1 := Mul64(x, y.l1);
    var hi0, lo0 := Mul64(x, y.l0);
    var s1, c1 := Add64(hi0, lo1, 0);
    var s2, c2 := Add64(hi1, lo2, c1);
    var s3, c3 := Add64(hi2, lo3, c2);
    assert c3 + hi3 < WORD;
    row := Wide(lo0, s1, s2, s3, WrappingAdd(c3, hi3));
    RowDistributes(x, y);
    CarryChain(x * y.l0, x * y.l1, x * y.l2, x * y.l3, hi0, lo0, hi1, lo1, hi2, lo2, hi3, lo3, s1, c1, s2, c2, s3, c3, row);
  }

  method MulModulus(x: u64) returns (row: Wide)
    ensures row.Value() == x * Q
  {
    row := MulWord(x, MODULUS);
    ModulusIsQ();
  }

  lemma ModulusIsQ()
    ensures MODULUS.Value() == Q
  {
  }

  lemma CarryChain(p0: int, p1: int, p2: int, p3: int,
                   hi0: u64, lo0: u64, hi1: u64, lo1: u64, hi2: u64, lo2: u64, hi3: u64, lo3: u64,
                   s1: u64, c1: u64, s2: u64, c2: u64, s3: u64, c3: u64, row: Wide)
    requires WORD * hi0 + lo0 == p0 && WORD * hi1 + lo1 == p1 && WORD * hi2 + lo2 == p2 && WORD * hi3 + lo3 == p3
    requires s1 + WORD * c1 == hi0 + lo1
    requires s2 + WORD * c2 == hi1 + lo2 + c1
    requires s3 + WORD * c3 == hi2 + lo3 + c2
    requires row == Wide(lo0, s1, s2, s3, row.w4) && row.w4 == c3 + hi3
    ensures row.Value() == p0
      + 0x1_0000000000000000 * p1
      + 0x1_0000000000000000_0000000000000000 * p2
      + 0x1_0000000000000000_0000000000000000_0000000000000000 * p3
  {
  }

  lemma RowDistributes(x: int, y: Limbs)
    ensures x * y.Value() == x * y.l0
      + 0x1_0000000000000000 * (x * y.l1)
      + 0x1_0000000000000000_0000000000000000 * (x * y.l2)
      + 0x1_0000000000000000_0000000000000000_0000000000000000 * (x * y.l3)
  {
  }

  method AddWide(a: Wide, b: Wide) returns (sum: Wide, carry: u64)
    ensures sum.Value() + RADIX * WORD * carry == a.Value() + b.Value()
    ensures carry <= 1
  {
    var s0, c0 := Add64(a.w0, b.w0, 0);
    var s1, c1 := Add64(a.w1, b.w1, c0);
    var s2, c2 := Add64(a.w2, b.w2, c1);
    var s3, c3 := Add64(a.w3, b.w3, c2);
    var s4, c4 := Add64(a.w4, b.w4, c3);
    sum, carry := Wide(s0, s1, s2, s3, s4), c4;
  }

  function HighPart(x: Wide): int {
    x.w1 + 0x1_0000000000000000 * x.w2
    + 0x1_0000000000000000_0000000000000000 * x.w3
    + 0x1_0000000000000000_0000000000000000_0000000000000000 * x.w4
  }

  /** 0xfffffffeffffffff is -1/q modulo 2^64, so adding lo * q to w clears its low word. */
  lemma LowWordClears(w: u64, hi: u64, lo: u64, sum: u64, k: int)
    requires WORD * hi + lo == w * 0xfffffffeffffffff
    requires sum + WORD * k == w + lo * Q
    ensures sum == 0
  {
    var z := 0xfffffffe00000001 * w - 0xffffffff00000001 * hi + lo * (Q / WORD) - k;
    assert sum == WORD * z;
  }

  /** Adds the multiple of q that clears the low word, then drops that word. */
  method ReduceWord(t: Wide, carry: u64) returns (next: Wide, ghost m: u64)
    requires carry <= 1
    ensures WORD * next.Value() == t.Value() + RADIX * WORD * carry + m * Q
  {
    var hi, lo := Mul64(t.w0, 0xfffffffeffffffff);
    m := lo;
    var row := MulModulus(lo);
    var sum, c := AddWide(t, row);
    next := Wide(sum.w1, sum.w2, sum.w3, sum.w4, WrappingAdd(c, carry));
    ReduceStep(t, hi, lo, sum, c, carry, next);
  }

  lemma ReduceStep(t: Wide, hi: u64, lo: u64, sum: Wide, c: u64, carry: u64, next: Wide)
    requires WORD * hi + lo == t.w0 * 0xfffffffeffffffff
    requires sum.Value() + RADIX * WORD * c == t.Value() + lo * Q
    requires c <= 1 && carry <= 1
    requires next == Wide(sum.w1, sum.w2, sum.w3, sum.w4, WrappingAdd(c, carry))
    ensures WORD * next.Value() == t.Value() + RADIX * WORD * carry + lo * Q
  {
    hide HighPart, Wide.Value;
    assert next.w4 == c + carry;
    SplitLowWord(t);
    SplitLowWord(sum);
    LowWordClears(t.w0, hi, lo, sum.w0, HighPart(sum) + RADIX * c - HighPart(t));
    DropLowWord(sum, c + carry);
  }

  lemma SplitLowWord(x: Wide)
    ensures x.Value() == x.w0 + WORD * HighPart(x)
  {
  }

  lemma DropLowWord(sum: Wide, top: u64)
    requires sum.w0 == 0
    ensures WORD * Wide(sum.w1, sum.w2, sum.w3, sum.w4, top).Value() == sum.Value() + RADIX * WORD * top
  {
  }

  // ----- the multiplication

  /** One round: the running value t absorbs x * b and loses its low word. */
  method Round(t: Wide, x: u64, b: Limbs) returns (next: Wide, ghost m: u64)
    ensures WORD * next.Value() == t.Value() + x * b.Value() + m * Q
  {
    var row := MulWord(x, b);
    var sum, carry := AddWide(t, row);
    next, m := ReduceWord(sum, carry);
  }

  lemma RoundKeepsBound(t: int, x: u64, b: int, m: u64, next: int)
    requires 0 <= t < b + Q && 0 <= b
    requires WORD * next == t + x * b + m * Q
    ensures 0 <= next < b + Q
  {
    assert x * b <= 0xffff_ffff_ffff_ffff * b;
    assert 0 <= x * b;
  }

  lemma ValueTimes(a: Limbs, b: int)
    ensures a.Value() * b == a.l0 * b
      + 0x1_0000000000000000 * (a.l1 * b)
      + 0x1_0000000000000000_0000000000000000 * (a.l2 * b)
      + 0x1_0000000000000000_0000000000000000_0000000000000000 * (a.l3 * b)
  {
  }

  lemma RoundsTelescope(p0: int, p1: int, p2: int, p3: int, m0: u64, m1: u64, m2: u64, m3: u64,
                        t1: int, t2: int, t3: int, t4: int)
    requires WORD * t1 == p0 + m0 * Q
    requires WORD * t2 == t1 + p1 + m1 * Q
    requires WORD * t3 == t2 + p2 + m2 * Q
    requires WORD * t4 == t3 + p3 + m3 * Q
    ensures RADIX * t4 == p0
      + 0x1_0000000000000000 * p1
      + 0x1_0000000000000000_0000000000000000 * p2
      + 0x1_0000000000000000_0000000000000000_0000000000000000 * p3
      + Limbs(m0, m1, m2, m3).Value() * Q
  {
  }

  /** The final conditional subtraction of q, selected by the last borrow. */
  method SubtractModulus(t: Wide) returns (out: Limbs)
    requires t.Value() < Q + RADIX
    ensures out.Value() == if t.Value() < Q then t.Value() else t.Value() - Q
  {
    var d0, u0 := Sub64(t.w0, MODULUS.l0, 0);
    var d1, u1 := Sub64(t.w1, MODULUS.l1, u0);
    var d2, u2 := Sub64(t.w2, MODULUS.l2, u1);
    var d3, u3 := Sub64(t.w3, MODULUS.l3, u2);
    var _, u4 := Sub64(t.w4, 0, u3);
    out := Limbs(Select(u4, d0, t.w0), Select(u4, d1, t.w1), Select(u4, d2, t.w2), Select(u4, d3, t.w3));
    ModulusIsQ();
    BorrowChain(t, Limbs(d0, d1, d2, d3), u3);
  }

  lemma BorrowChain(t: Wide, d: Limbs, u3: u64)
    requires t.Value() < Q + RADIX
    requires u3 <= 1
    requires Limbs(t.w0, t.w1, t.w2, t.w3).Value() - Q == d.Value() - RADIX * u3
    ensures t.w4 < u3 <==> t.Value() < Q
    ensures t.w4 >= u3 ==> d.Value() == t.Value() - Q
    ensures t.w4 < u3 ==> t.w4 == 0
  {
  }

  /**
   * The four unrolled rounds. Whatever the two operands are, the result is congruent to
   * a * b / 2^256; it is below q as soon as b is at most q, with no bound on a.
   */
  method MontMul(a: Limbs, b: Limbs) returns (out: Limbs)
    ensures Congruent(out.Value() * RADIX, a.Value() * b.Value())
    ensures out.Value() < if b.Value() <= Q then Q else b.Value()
    ensures b.Value() <= Q ==> out.Value() == MontProduct(a.Value(), b.Value())
  {
    var row := MulWord(a.l0, b);
    var t1, m0 := ReduceWord(row, 0);
    RoundKeepsBound(0, a.l0, b.Value(), m0, t1.Value());
    var t2, m1 := Round(t1, a.l1, b);
    RoundKeepsBound(t1.Value(), a.l1, b.Value(), m1, t2.Value());
    var t3, m2 := Round(t2, a.l2, b);
    RoundKeepsBound(t2.Value(), a.l2, b.Value(), m2, t3.Value());
    var t4, m3 := Round(t3, a.l3, b);
    RoundKeepsBound(t3.Value(), a.l3, b.Value(), m3, t4.Value());

    out := SubtractModulus(t4);
    ghost var m := Limbs(m0, m1, m2, m3).Value();
    assert RADIX * t4.Value() == a.Value() * b.Value() + m * Q by {
      ValueTimes(a, b.Value());
      RoundsTelescope(a.l0 * b.Value(), a.l1 * b.Value(), a.l2 * b.Value(), a.l3 * b.Value(),
                      m0, m1, m2, m3, t1.Value(), t2.Value(), t3.Value(), t4.Value());
    }
    FinalSubtraction(a.Value(), b.Value(), m, t4.Value(), out.Value());
  }

  lemma FinalSubtraction(a: int, b: int, m: int, t: int, out: int)
    requires RADIX * t == a * b + m * Q
    requires 0 <= t < b + Q
    requires out == if t < Q then t else t - Q
    ensures Congruent(out * RADIX, a * b)
    ensures out < if b <= Q then Q else b
    ensures b <= Q ==> out == MontProduct(a, b)
  {
    var k := if t < Q then m else m - RADIX;
    MultipleOfQ(a * b, m, t, out, k);
    if b <= Q {
      hide MontProduct;
      MontProductUnique(out, a, b);
    }
  }

  lemma MultipleOfQ(p: int, m: int, t: int, out: int, k: int)
    requires RADIX * t == p + m * Q
    requires (out == t && k == m) || (out == t - Q && k == m - RADIX)
    ensures RADIX * out - p == k * Q && Congruent(out * RADIX, p)
  {
  }

  lemma MontProductUnique(x: int, a: int, b: int)
    requires 0 <= x < Q
    requires Congruent(x * RADIX, a * b)
    ensures x == MontProduct(a, b)
  {
    var k := (x * RADIX - a * b) / Q;
    var j := (RADIX * RADIX_INVERSE - 1) / Q;
    assert RADIX * RADIX_INVERSE == 1 + j * Q;
    var p := a * b;
    assert p == x * RADIX - k * Q;
    assert p * RADIX_INVERSE == x + (x * j - k * RADIX_INVERSE) * Q;
    RemainderUnique(p * RADIX_INVERSE, x * j - k * RADIX_INVERSE, x);
  }

  lemma RemainderUnique(n: int, k: int, r: int)
    requires n == k * Q + r && 0 <= r < Q
    ensures n % Q == r
  {
  }

  /** The source's signature: limbs are read from two arrays and written to a third, which may alias them. */
  method FiatScMontMul(out1: array<u64>, arg1: array<u64>, arg2: array<u64>)
    requires out1.Length == 4 && arg1.Length == 4 && arg2.Length == 4
    modifies out1
    ensures var a, b := old(LimbsOf(arg1[..]).Value()), old(LimbsOf(arg2[..]).Value());
            && Congruent(LimbsOf(out1[..]).Value() * RADIX, a * b)
            && LimbsOf(out1[..]).Value() < (if b <= Q then Q else b)
            && (b <= Q ==> LimbsOf(out1[..]).Value() == MontProduct(a, b))
  {
    var out := MontMul(
      Limbs(arg1[0], arg1[1], arg1[2], arg1[3]), Limbs(arg2[0], arg2[1], arg2[2], arg2[3]));
    out1[0], out1[1], out1[2], out1[3] := out.l0, out.l1, out.l2, out.l3;
    assert LimbsOf(out1[..]) == out;
  }
}
