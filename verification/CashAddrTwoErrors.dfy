/** Two wrong symbols in a word or an address, however far apart, and when the checksum tells them. */
module CashAddrTwoErrors {
  import opened Numbers
  import opened Wrappers
  import opened CashAddrChecksum
  import opened CashAddrField
  import opened CashAddrOrder
  import opened CashAddrCodec

  // ----- after how many zeros a lone symbol is a lone symbol again

  /** After n zeros the register started from 1 holds a single symbol. */
  predicate Returns(n: nat) {
    Single(Advance(1, n))
  }

  lemma {:induction false} AdvanceNonzero(x: bv64, n: nat)
    requires Within(x) && x != 0
    ensures Advance(x, n) != 0
    decreases n
  {
    hide Shift, Within;
    if n > 0 {
      ShiftedWithin(x);
      ShiftNonzero(x);
      AdvanceNonzero(Shift(x), n - 1);
    }
  }

  lemma ShiftNonzero(x: bv64)
    requires Within(x) && x != 0
    ensures Shift(x) != 0
  {
    StepZero(0);
    if Step(x, 0) == 0 {
      StepInjective(x, 0, 0);
    }
  }

  /** Whether a symbol returns does not depend on the symbol. */
  lemma ReturnsAlike(x: bv64, n: nat)
    requires Single(x) && x != 0
    ensures Single(Advance(x, n)) <==> Returns(n)
  {
    hide Advance, Scale, Within, Single;
    OneWithin();
    var d := AsSymbol(x);
    AdvanceScale(d, 1, n);
    ScaledSingle(d, Advance(1, n));
  }

  /** Numbers of zeros after which symbols return are closed under sum and difference. */
  lemma ReturnsSum(m: nat, n: nat)
    requires Returns(m)
    ensures Returns(m + n) <==> Returns(n)
  {
    hide Advance, Within, Single;
    OneWithin();
    AdvanceNonzero(1, m);
    ReturnsAlike(Advance(1, m), n);
    AdvanceSum(1, m, n);
  }

  lemma {:induction false} ReturnsMultiple(m: nat, q: nat)
    requires Returns(m)
    ensures Returns(m * q)
  {
    hide Returns;
    if q == 0 {
      ReturnsNone();
    } else {
      ReturnsMultiple(m, q - 1);
      ReturnsSum(m, m * (q - 1));
      assert m + m * (q - 1) == m * q;
    }
  }

  lemma ReturnsNone()
    ensures Returns(0)
  {
  }

  /** Euclid's algorithm, by subtraction. */
  lemma {:induction false} CommonReturn(a: nat, b: nat) returns (g: nat, p: nat, q: nat)
    requires Returns(a) && Returns(b) && a > 0 && b > 0
    ensures g > 0 && Returns(g) && a == p * g && b == q * g
    decreases a + b
  {
    hide Returns;
    if a == b {
      g, p, q := a, 1, 1;
    } else if a < b {
      ReturnsSum(a, b - a);
      g, p, q := CommonReturn(a, b - a);
      assert b == (p + q) * g;
      q := p + q;
    } else {
      ReturnsSum(b, a - b);
      g, p, q := CommonReturn(a - b, b);
      assert a == (p + q) * g;
      p := p + q;
    }
  }

  // ----- divisors of 1025

  lemma Remainders(a: nat, r: nat, b: nat, s: nat)
    ensures (5 * a + r) * (5 * b + s) == 5 * (a * (5 * b + s) + r * b) + r * s
  {
  }

  lemma FiveDivides(x: nat, y: nat)
    requires x * y % 5 == 0 && y % 5 != 0
    ensures x % 5 == 0
  {
    var r, s := x % 5, y % 5;
    Remainders(x / 5, r, y / 5, s);
    assert r * s % 5 == 0;
    assert r == 0 || (r == 1 && r * s == s) || (r == 2 && r * s == 2 * s) || (r == 3 && r * s == 3 * s)
           || (r == 4 && r * s == 4 * s);
  }

  lemma FortyOneIsPrime(k: nat, q: nat)
    requires k * q == 41
    ensures k == 1 || q == 1
  {
    if k >= 7 && q >= 7 {
      MulMonotone(7, k, q);
    } else if k < 7 {
      assert k == 0 || k == 1 || (k == 2 && k * q == 2 * q) || (k == 3 && k * q == 3 * q) || (k == 4 && k * q == 4 * q)
             || (k == 5 && k * q == 5 * q) || (k == 6 && k * q == 6 * q);
    } else {
      assert q == 0 || q == 1 || (q == 2 && k * q == 2 * k) || (q == 3 && k * q == 3 * k) || (q == 4 && k * q == 4 * k)
             || (q == 5 && k * q == 5 * k) || (q == 6 && k * q == 6 * k);
    }
  }

  /** A proper divisor of 1025 divides 205 or 25. */
  lemma ProperDivisor(g: nat, q: nat) returns (t: nat)
    requires g * q == 1025 && q != 1
    ensures g * t == 205 || g * t == 25
  {
    if q % 5 == 0 {
      t := q / 5;
      assert g * q == 5 * (g * t);
    } else {
      FiveDivides(g, q);
      var h := g / 5;
      assert 5 * (h * q) == g * q;
      FiveDivides(h, q);
      var k := h / 5;
      assert 5 * (k * q) == h * q;
      FortyOneIsPrime(k, q);
      t := 1;
    }
  }

  lemma FirstReturn()
    ensures !Returns(25) && !Returns(205) && Returns(1025)
  {
    hide Advance;
    Order();
    OneIsSingle();
  }

  lemma OneIsSingle()
    ensures Single(1)
  {
  }

  lemma ReturnsLate(n: nat)
    requires Returns(n) && n > 0
    ensures n % 1025 == 0
  {
    hide Returns;
    FirstReturn();
    var g, p, q := CommonReturn(n, 1025);
    if q == 1 {
      assert n == p * 1025;
    } else {
      var t := ProperDivisor(g, q);
      ReturnsMultiple(g, t);
      assert false;
    }
  }

  /** A symbol returns exactly after a multiple of 1025 zeros. */
  lemma ReturnsExactly(n: nat)
    ensures Returns(n) <==> n % 1025 == 0
  {
    hide Returns;
    if n % 1025 == 0 {
      FirstReturn();
      ReturnsMultiple(1025, n / 1025);
    } else if Returns(n) {
      ReturnsLate(n);
    }
  }

  // ----- two words that differ at two positions

  /** v and w have the same length and differ at most at i and at i + n, where they hold symbols. */
  predicate DifferAt(v: seq<bv8>, w: seq<bv8>, i: nat, n: nat) {
    && 0 < n && |v| == |w| && i + n < |v|
    && v[i] < 32 && w[i] < 32 && v[i + n] < 32 && w[i + n] < 32
    && v[..i] == w[..i] && v[i + 1..i + n] == w[i + 1..i + n] && v[i + n + 1..] == w[i + n + 1..]
  }

  /** The difference of the registers after the second position. */
  function Gap(d: bv8, e: bv8, n: nat): bv64 {
    Xor(Advance(d as bv64, n), e as bv64)
  }

  /** Different symbols, the same symbols between, and different symbols again. */
  lemma GapAfter(s: bv64, v: seq<bv8>, w: seq<bv8>, n: nat)
    requires 0 < n && |v| == |w| == n + 1 && v[1..n] == w[1..n]
    ensures Xor(Run(s, v), Run(s, w)) == Gap(v[0] ^ w[0], v[n] ^ w[n], n)
  {
    hide Step, Xor, Shift, Advance;
    var middle, a, b := v[1..n], Step(s, v[0]), Step(s, w[0]);
    FirstGap(s, v[0], w[0]);
    RunGap(a, b, middle);
    LastGap(Run(a, middle), Run(b, middle), v[n], w[n]);
    AdvanceOnce((v[0] ^ w[0]) as bv64, n);
    RunEnds(s, v);
    RunEnds(s, w);
  }

  lemma AdvanceOnce(x: bv64, n: nat)
    requires n > 0
    ensures Advance(x, n) == Shift(Advance(x, n - 1))
  {
    hide Shift;
    AdvanceLast(x, n - 1);
  }

  lemma RunEnds(s: bv64, v: seq<bv8>)
    requires |v| >= 2
    ensures Run(s, v) == Step(Run(Step(s, v[0]), v[1..|v| - 1]), v[|v| - 1])
  {
    hide Step;
    var tail := v[1..];
    assert tail == v[1..|v| - 1] + [v[|v| - 1]];
    RunConcat(Step(s, v[0]), v[1..|v| - 1], [v[|v| - 1]]);
    var c := Run(Step(s, v[0]), v[1..|v| - 1]);
    assert Run(c, [v[|v| - 1]]) == Run(Step(c, v[|v| - 1]), []);
  }

  lemma FirstGap(s: bv64, d: bv8, e: bv8)
    ensures Xor(Step(s, d), Step(s, e)) == (d ^ e) as bv64
  {
    hide Step, Xor;
    StepXor(s, s, d, e);
    XorNone(s);
    StepZero(d ^ e);
  }

  lemma LastGap(a: bv64, b: bv64, d: bv8, e: bv8)
    ensures Xor(Step(a, d), Step(b, e)) == Xor(Shift(Xor(a, b)), (d ^ e) as bv64)
  {
    hide Step, Xor;
    StepXor(a, b, d, e);
    StepAdds(Xor(a, b), d ^ e);
  }

  /** A difference is undone by another one n places on only where symbols return. */
  lemma GapVanishes(d: bv8, e: bv8, n: nat)
    requires d < 32 && e < 32 && Gap(d, e, n) == 0
    ensures Returns(n) || (d == 0 && e == 0)
  {
    hide Xor, Advance, Returns, Single;
    XorZero(Advance(d as bv64, n), e as bv64);
    WideSymbol(d);
    WideSymbol(e);
    if d == 0 {
      AdvanceZero(n);
    } else {
      ReturnsAlike(d as bv64, n);
    }
  }

  lemma WideSymbol(d: bv8)
    requires d < 32
    ensures Single(d as bv64) && (d as bv64 == 0 <==> d == 0)
  {
  }

  lemma Window(v: seq<bv8>, i: nat, n: nat)
    requires 0 < n && i + n < |v|
    ensures var window := v[i..i + n + 1];
            window[0] == v[i] && window[1..n] == v[i + 1..i + n] && window[n] == v[i + n]
  {
    var window := v[i..i + n + 1];
    assert |window[1..n]| == |v[i + 1..i + n]|;
    forall k | 0 <= k < n - 1
      ensures window[1..n][k] == v[i + 1..i + n][k]
    {
    }
  }

  /** Two wrong symbols are told from none, in words of any length, unless they are a multiple of 1025 apart. */
  lemma TwoErrorsDetected(v: seq<bv8>, w: seq<bv8>, i: nat, n: nat)
    requires DifferAt(v, w, i, n) && n % 1025 != 0
    ensures Checksum(v) == Checksum(w) <==> v == w
  {
    hide Run, Within, Xor, Returns, Gap;
    var s := Run(1, v[..i]);
    RunThree(1, v, i, i + n + 1);
    RunThree(1, w, i, i + n + 1);
    CancelRight(Run(1, v), Run(1, w), 1);
    if Run(1, v) == Run(1, w) {
      var inV, inW := v[i..i + n + 1], w[i..i + n + 1];
      OneWithin();
      RunWithin(1, v[..i]);
      RunWithin(s, inV);
      RunWithin(s, inW);
      RunInjective(Run(s, inV), Run(s, inW), v[i + n + 1..]);
      Window(v, i, n);
      Window(w, i, n);
      GapAfter(s, inV, inW, n);
      XorZero(Run(s, inV), Run(s, inW));
      SymbolGap(v[i], w[i]);
      SymbolGap(v[i + n], w[i + n]);
      GapVanishes(v[i] ^ w[i], v[i + n] ^ w[i + n], n);
      ReturnsExactly(n);
      SameWord(v, w, i, n);
    }
  }

  lemma SameWord(v: seq<bv8>, w: seq<bv8>, i: nat, n: nat)
    requires DifferAt(v, w, i, n) && v[i] == w[i] && v[i + n] == w[i + n]
    ensures v == w
  {
    assert v == v[..i] + [v[i]] + v[i + 1..i + n] + [v[i + n]] + v[i + n + 1..];
    assert w == w[..i] + [w[i]] + w[i + 1..i + n] + [w[i + n]] + w[i + n + 1..];
  }

  lemma {:induction false} FullTurns(k: nat)
    ensures Advance(1, 1025 * k) == 1
  {
    hide Advance;
    if k == 0 {
      AdvanceNone(1);
    } else {
      FullTurns(k - 1);
      Order();
      AdvanceSum(1, 1025 * (k - 1), 1025);
    }
  }

  lemma AdvanceNone(x: bv64)
    ensures Advance(x, 0) == x
  {
  }

  lemma Replaced(v: seq<bv8>, i: nat, n: nat, d: bv8, e: bv8)
    requires 0 < n && i + n < |v| && v[i] < 32 && v[i + n] < 32 && d < 32 && e < 32
    ensures var w := v[i := d][i + n := e];
            DifferAt(v, w, i, n) && w[i] == d && w[i + n] == e
  {
  }

  lemma FlipLast(d: bv8)
    requires d < 32
    ensures (d ^ 1) < 32 && d ^ (d ^ 1) == 1 && d ^ 1 != d
  {
  }

  /** At such a distance every word has another one that the checksum does not tell from it. */
  lemma TwoErrorsMissed(v: seq<bv8>, i: nat, n: nat) returns (w: seq<bv8>)
    requires 0 < n && n % 1025 == 0 && i + n < |v| && v[i] < 32 && v[i + n] < 32
    ensures DifferAt(v, w, i, n) && w != v && Checksum(w) == Checksum(v)
  {
    hide Run, Advance, Xor, DifferAt;
    w := v[i := v[i] ^ 1][i + n := v[i + n] ^ 1];
    FlipLast(v[i]);
    FlipLast(v[i + n]);
    Replaced(v, i, n, v[i] ^ 1, v[i + n] ^ 1);
    Window(v, i, n);
    Window(w, i, n);
    var s, inV, inW := Run(1, v[..i]), v[i..i + n + 1], w[i..i + n + 1];
    RunThree(1, v, i, i + n + 1);
    RunThree(1, w, i, i + n + 1);
    GapAfter(s, inV, inW, n);
    FullTurns(n / 1025);
    XorNone(1);
    XorZero(Run(s, inV), Run(s, inW));
  }

  // ----- addresses

  /** Equal but for the characters at i and j. */
  predicate EqualBut(a: string, b: string, i: nat, j: nat) {
    |a| == |b| && i < j < |a| && forall k :: 0 <= k < |a| && k != i && k != j ==> a[k] == b[k]
  }

  lemma DecodedDiffer(prefix: seq<bv8>, a: string, b: string, i: nat, j: nat)
    requires EqualBut(a, b, i, j)
    ensures DifferAt(prefix + DecodeSymbols(a), prefix + DecodeSymbols(b), |prefix| + i, j - i)
  {
    hide ReverseLookup;
    DecodedAreSymbols(a);
    DecodedAreSymbols(b);
  }

  lemma ConvertedLength(data: seq<bv8>)
    ensures var bytes := ConvertBits(data, 5, 8, false);
            bytes.Some? ==> 8 * |bytes.value| <= 5 * |data| <= 8 * |bytes.value| + 4
  {
    var b := Expand(data, 5);
    assert |b[|CutTo(b, 8)|..]| == |b| - |CutTo(b, 8)|;
  }

  /** What decodes to an address has 42 characters. */
  lemma AddressLength(addr: string, network: Network)
    requires DecodeBchAddress(addr, network).Ok?
    ensures |AddressPart(addr)| == 42
  {
    hide ChecksumHolds, ConvertBits, AddressPart;
    DecodedLongEnough(network, AddressPart(addr));
    var decoded := DecodeSymbols(AddressPart(addr));
    ConvertedLength(decoded[..|decoded| - 8]);
  }

  /**
   * Of the addresses that differ from a decodable one in any two characters, the decoder refuses all but the
   * alike ones, which decode to the same bytes. Over the alphabet it refuses every one.
   */
  lemma AddressTwoErrorsDetected(addr: string, other: string, network: Network, i: nat, j: nat)
    requires DecodeBchAddress(addr, network).Ok?
    requires EqualBut(AddressPart(addr), AddressPart(other), i, j)
    ensures var a, b := AddressPart(addr), AddressPart(other);
            && DecodeBchAddress(other, network) ==
               (if Alike(a, b) then DecodeBchAddress(addr, network) else Err(ChecksumMismatch))
            && (InAlphabet(a) && InAlphabet(b) ==> (Alike(a, b) <==> a == b))
  {
    hide Checksum, ReverseLookup, Alike, InAlphabet, AddressPart, DifferAt, EqualBut, PrefixSymbols;
    var a, b := AddressPart(addr), AddressPart(other);
    var prefix := PrefixSymbols(AddressPrefix(network).value);
    AddressLength(addr, network);
    DecodedDiffer(prefix, a, b, i, j);
    assert 0 < j - i < 42 by { Places(a, b, i, j); }
    TwoErrorsDetected(prefix + DecodeSymbols(a), prefix + DecodeSymbols(b), |prefix| + i, j - i);
    assert (prefix + DecodeSymbols(a))[|prefix|..] == DecodeSymbols(a);
    assert (prefix + DecodeSymbols(b))[|prefix|..] == DecodeSymbols(b);
    DecodeSame(a, b);
  }

  lemma Places(a: string, b: string, i: nat, j: nat)
    requires EqualBut(a, b, i, j)
    ensures i < j < |a|
  {
  }
}
