/**
 * The CashAddr register fed zeros, as multiplication in a field: states are eight symbols of the field of 32
 * elements, scaling them by a symbol commutes with a step, and powers of the step are products of states.
 */
module CashAddrField {
  import opened CashAddrChecksum

  // ----- one step is linear

  function Shift(x: bv64): bv64 {
    Step(x, 0)
  }

  lemma Exchange(a: bv64, b: bv64, c: bv64, d: bv64)
    ensures Xor(Xor(a, b), Xor(c, d)) == Xor(Xor(a, c), Xor(b, d))
  {
    hide Xor;
    Associate(a, b, Xor(c, d));
    Associate(b, c, d);
    Commute(b, c);
    Associate(c, b, d);
    Associate(a, c, Xor(b, d));
  }

  lemma BitXor(t: bv8, u: bv8, mask: bv8)
    requires mask == 0x01 || mask == 0x02 || mask == 0x04 || mask == 0x08 || mask == 0x10
    ensures (t ^ u) & mask > 0 <==> (t & mask > 0) != (u & mask > 0)
  {
  }

  lemma PickXor(t: bv8, u: bv8, mask: bv8, generator: bv64)
    requires mask == 0x01 || mask == 0x02 || mask == 0x04 || mask == 0x08 || mask == 0x10
    ensures Pick(t ^ u, mask, generator) == Xor(Pick(t, mask, generator), Pick(u, mask, generator))
  {
    hide Xor;
    BitXor(t, u, mask);
    XorNone(generator);
    XorNone(0);
    XorNothing(generator);
  }

  lemma FeedbackXor(t: bv8, u: bv8)
    ensures Feedback(t ^ u) == Xor(Feedback(t), Feedback(u))
  {
    hide Xor, Pick;
    var t0, t1, t2 := Pick(t, 0x01, 0x98f2bc8e61), Pick(t, 0x02, 0x79b76d99e2), Pick(t, 0x04, 0xf33e5fb3c4);
    var t3, t4 := Pick(t, 0x08, 0xae2eabe2a8), Pick(t, 0x10, 0x1e4f43e470);
    var u0, u1, u2 := Pick(u, 0x01, 0x98f2bc8e61), Pick(u, 0x02, 0x79b76d99e2), Pick(u, 0x04, 0xf33e5fb3c4);
    var u3, u4 := Pick(u, 0x08, 0xae2eabe2a8), Pick(u, 0x10, 0x1e4f43e470);
    PickXor(t, u, 0x01, 0x98f2bc8e61);
    PickXor(t, u, 0x02, 0x79b76d99e2);
    PickXor(t, u, 0x04, 0xf33e5fb3c4);
    PickXor(t, u, 0x08, 0xae2eabe2a8);
    PickXor(t, u, 0x10, 0x1e4f43e470);
    Exchange(t0, t1, u0, u1);
    Exchange(Xor(t0, t1), t2, Xor(u0, u1), u2);
    Exchange(Xor(Xor(t0, t1), t2), t3, Xor(Xor(u0, u1), u2), u3);
    Exchange(Xor(Xor(Xor(t0, t1), t2), t3), t4, Xor(Xor(Xor(u0, u1), u2), u3), u4);
  }

  lemma TopXor(a: bv64, b: bv64)
    ensures Top(Xor(a, b)) == Top(a) ^ Top(b)
  {
  }

  lemma StepXor(a: bv64, b: bv64, d: bv8, e: bv8)
    ensures Step(Xor(a, b), d ^ e) == Xor(Step(a, d), Step(b, e))
  {
    hide Xor, Mix, Feedback, Top;
    TopXor(a, b);
    FeedbackXor(Top(a), Top(b));
    MixGap(a, b, d, e);
    Exchange(Mix(a, d), Feedback(Top(a)), Mix(b, e), Feedback(Top(b)));
  }

  lemma SameSymbol(d: bv8)
    ensures d ^ d == 0
  {
  }

  lemma ShiftXor(a: bv64, b: bv64)
    ensures Shift(Xor(a, b)) == Xor(Shift(a), Shift(b))
  {
    hide Xor, Step;
    SameSymbol(0);
    StepXor(a, b, 0, 0);
  }

  // ----- scaling every symbol of a state by one symbol

  /** Each of the eight symbols times the generator of the field of 32 elements. */
  function Twice(x: bv64): bv64 {
    Xor(Doubled(x), Xor(Carry(x), HighCarry(x)))
  }

  function Doubled(x: bv64): bv64 {
    (x & 0x7b_def7_bdef) << 1
  }

  /** The top bit of a symbol gives back 1 and 8. */
  function Carry(x: bv64): bv64 {
    (x >> 4) & 0x08_4210_8421
  }

  function HighCarry(x: bv64): bv64 {
    (x >> 1) & 0x42_1084_2108
  }

  lemma DoubledXor(a: bv64, b: bv64)
    ensures Doubled(Xor(a, b)) == Xor(Doubled(a), Doubled(b))
  {
  }

  lemma CarryXor(a: bv64, b: bv64)
    ensures Carry(Xor(a, b)) == Xor(Carry(a), Carry(b))
  {
  }

  lemma HighCarryXor(a: bv64, b: bv64)
    ensures HighCarry(Xor(a, b)) == Xor(HighCarry(a), HighCarry(b))
  {
  }

  lemma TwiceXor(a: bv64, b: bv64)
    ensures Twice(Xor(a, b)) == Xor(Twice(a), Twice(b))
  {
    hide Xor, Doubled, Carry, HighCarry;
    DoubledXor(a, b);
    CarryXor(a, b);
    HighCarryXor(a, b);
    Exchange(Carry(a), HighCarry(a), Carry(b), HighCarry(b));
    Exchange(Doubled(a), Xor(Carry(a), HighCarry(a)), Doubled(b), Xor(Carry(b), HighCarry(b)));
  }

  lemma TwiceWithin(x: bv64)
    ensures Within(Twice(x))
  {
  }

  lemma PartsMix(x: bv64)
    requires Within(x)
    ensures Doubled(Mix(x, 0)) == Mix(Doubled(x), 0)
    ensures Carry(Mix(x, 0)) == Mix(Carry(x), 0)
    ensures HighCarry(Mix(x, 0)) == Mix(HighCarry(x), 0)
  {
  }

  lemma TwiceMix(x: bv64)
    requires Within(x)
    ensures Twice(Mix(x, 0)) == Mix(Twice(x), 0)
  {
    hide Xor, Mix, Doubled, Carry, HighCarry, Within;
    PartsMix(x);
    SameSymbol(0);
    MixGap(Carry(x), HighCarry(x), 0, 0);
    MixGap(Doubled(x), Xor(Carry(x), HighCarry(x)), 0, 0);
  }

  function TwiceSymbol(t: bv8): bv8 {
    ((t & 0x0f) << 1) ^ (if t & 0x10 > 0 then 0x09 else 0)
  }

  lemma TopTwice(x: bv64)
    requires Within(x)
    ensures Top(Twice(x)) == TwiceSymbol(Top(x)) && Top(x) < 32
  {
  }

  lemma FeedbackTwiceLow(t: bv8)
    requires t < 16
    ensures Twice(Feedback(t)) == Feedback(TwiceSymbol(t))
  {
  }

  lemma FeedbackTwiceHigh()
    ensures Twice(Feedback(0x10)) == Feedback(TwiceSymbol(0x10))
  {
    assert TwiceSymbol(0x10) == 0x09;
    TopGenerator();
    NinthFeedback();
    hide *;
  }

  lemma TopGenerator()
    ensures Feedback(0x10) == 0x1e4f43e470 && Twice(0x1e4f43e470) == 0x36dc176cc9
  {
  }

  lemma NinthFeedback()
    ensures Feedback(0x09) == 0x36dc176cc9
  {
    OneAndFourth();
    hide Feedback, Xor;
    FeedbackXor(0x01, 0x08);
  }

  lemma OneAndFourth()
    ensures Feedback(0x01) == 0x98f2bc8e61 && Feedback(0x08) == 0xae2eabe2a8
    ensures Xor(0x98f2bc8e61, 0xae2eabe2a8) == 0x36dc176cc9
  {
  }

  lemma SplitTop(t: bv8)
    requires 16 <= t < 32
    ensures t & 0x0f < 16 && t == (t & 0x0f) ^ 0x10
    ensures TwiceSymbol(t) == TwiceSymbol(t & 0x0f) ^ TwiceSymbol(0x10)
  {
  }

  lemma FeedbackTwice(t: bv8)
    requires t < 32
    ensures Twice(Feedback(t)) == Feedback(TwiceSymbol(t))
  {
    hide Feedback, Twice, TwiceSymbol, Xor;
    if t < 16 {
      FeedbackTwiceLow(t);
    } else {
      var low := t & 0x0f;
      SplitTop(t);
      FeedbackTwiceLow(low);
      FeedbackTwiceHigh();
      FeedbackXor(low, 0x10);
      TwiceXor(Feedback(low), Feedback(0x10));
      FeedbackXor(TwiceSymbol(low), TwiceSymbol(0x10));
    }
  }

  lemma TwiceFeedback(x: bv64)
    requires Within(x)
    ensures Twice(Feedback(Top(x))) == Feedback(Top(Twice(x)))
  {
    hide Feedback, Top, Twice, TwiceSymbol, Within;
    TopTwice(x);
    FeedbackTwice(Top(x));
  }

  lemma ShiftTwice(x: bv64)
    requires Within(x)
    ensures Shift(Twice(x)) == Twice(Shift(x))
  {
    hide Xor, Mix, Feedback, Top, Twice, Within;
    TwiceMix(x);
    TwiceFeedback(x);
    TwiceXor(Mix(x, 0), Feedback(Top(x)));
  }

  /** Each symbol of x times d. */
  function Scale(d: bv8, x: bv64): bv64 {
    var x2 := Twice(x);
    var x4 := Twice(x2);
    var x8 := Twice(x4);
    Xor(Xor(Xor(Xor(Pick(d, 0x01, x), Pick(d, 0x02, x2)), Pick(d, 0x04, x4)), Pick(d, 0x08, x8)),
        Pick(d, 0x10, Twice(x8)))
  }

  lemma ShiftPick(d: bv8, mask: bv8, x: bv64)
    ensures Shift(Pick(d, mask, x)) == Pick(d, mask, Shift(x))
  {
    assert Shift(0) == 0;
  }

  lemma ShiftScale(d: bv8, x: bv64)
    requires Within(x)
    ensures Shift(Scale(d, x)) == Scale(d, Shift(x))
  {
    hide Xor, Pick, Shift, Twice, Within;
    var x2 := Twice(x);
    var x4 := Twice(x2);
    var x8 := Twice(x4);
    var p0, p1, p2 := Pick(d, 0x01, x), Pick(d, 0x02, x2), Pick(d, 0x04, x4);
    var p3, p4 := Pick(d, 0x08, x8), Pick(d, 0x10, Twice(x8));
    TwiceWithin(x);
    TwiceWithin(x2);
    TwiceWithin(x4);
    ShiftTwice(x);
    ShiftTwice(x2);
    ShiftTwice(x4);
    ShiftTwice(x8);
    ShiftPick(d, 0x01, x);
    ShiftPick(d, 0x02, x2);
    ShiftPick(d, 0x04, x4);
    ShiftPick(d, 0x08, x8);
    ShiftPick(d, 0x10, Twice(x8));
    ShiftXor(p0, p1);
    ShiftXor(Xor(p0, p1), p2);
    ShiftXor(Xor(Xor(p0, p1), p2), p3);
    ShiftXor(Xor(Xor(Xor(p0, p1), p2), p3), p4);
  }

  /** A state of nothing but its last symbol. */
  predicate Single(x: bv64) {
    x < 32
  }

  lemma ScaleOne(d: bv8)
    requires d < 32
    ensures Scale(d, 1) == d as bv64
  {
  }

  lemma AsSymbol(x: bv64) returns (d: bv8)
    requires Single(x) && x != 0
    ensures 0 < d < 32 && x == Scale(d, 1)
  {
    d := x as bv8;
    ScaleOne(d);
  }

  lemma TwiceSingle(x: bv64)
    requires Single(x)
    ensures Single(Twice(x))
  {
  }

  lemma PickSingle(d: bv8, mask: bv8, x: bv64)
    requires Single(x)
    ensures Single(Pick(d, mask, x))
  {
  }

  lemma XorSingle(x: bv64, y: bv64)
    requires Single(x) && Single(y)
    ensures Single(Xor(x, y))
  {
  }

  lemma ScaleSymbol(d: bv8, x: bv64)
    requires Single(x)
    ensures Single(Scale(d, x))
  {
    hide Xor, Pick, Twice, Single;
    var x2 := Twice(x);
    var x4 := Twice(x2);
    var x8 := Twice(x4);
    TwiceSingle(x);
    TwiceSingle(x2);
    TwiceSingle(x4);
    TwiceSingle(x8);
    PickSingle(d, 0x01, x);
    PickSingle(d, 0x02, x2);
    PickSingle(d, 0x04, x4);
    PickSingle(d, 0x08, x8);
    PickSingle(d, 0x10, Twice(x8));
    var p0, p1, p2 := Pick(d, 0x01, x), Pick(d, 0x02, x2), Pick(d, 0x04, x4);
    var p3, p4 := Pick(d, 0x08, x8), Pick(d, 0x10, Twice(x8));
    XorSingle(p0, p1);
    XorSingle(Xor(p0, p1), p2);
    XorSingle(Xor(Xor(p0, p1), p2), p3);
    XorSingle(Xor(Xor(Xor(p0, p1), p2), p3), p4);
  }

  lemma SingleWithin(x: bv64)
    requires Single(x)
    ensures Within(x)
  {
  }

  /** The symbol k places above the last. */
  function SymbolAt(x: bv64, k: nat): bv64
    requires k < 8
  {
    match k
    case 0 => x & 31
    case 1 => (x >> 5) & 31
    case 2 => (x >> 10) & 31
    case 3 => (x >> 15) & 31
    case 4 => (x >> 20) & 31
    case 5 => (x >> 25) & 31
    case 6 => (x >> 30) & 31
    case 7 => (x >> 35) & 31
  }

  lemma SymbolTwice(x: bv64, k: nat)
    requires k < 8
    ensures SymbolAt(Twice(x), k) == Twice(SymbolAt(x, k))
  {
    match k
    case 0 =>
    case 1 =>
    case 2 =>
    case 3 =>
    case 4 =>
    case 5 =>
    case 6 =>
    case _ =>
  }

  lemma SymbolXor(x: bv64, y: bv64, k: nat)
    requires k < 8
    ensures SymbolAt(Xor(x, y), k) == Xor(SymbolAt(x, k), SymbolAt(y, k))
  {
    match k
    case 0 =>
    case 1 =>
    case 2 =>
    case 3 =>
    case 4 =>
    case 5 =>
    case 6 =>
    case _ =>
  }

  lemma SymbolPick(d: bv8, mask: bv8, x: bv64, k: nat)
    requires k < 8
    ensures SymbolAt(Pick(d, mask, x), k) == Pick(d, mask, SymbolAt(x, k))
  {
  }

  lemma SymbolScale(d: bv8, x: bv64, k: nat)
    requires k < 8
    ensures SymbolAt(Scale(d, x), k) == Scale(d, SymbolAt(x, k))
  {
    hide Xor, Pick, SymbolAt, Twice;
    var x2 := Twice(x);
    var x4 := Twice(x2);
    var x8 := Twice(x4);
    var p0, p1, p2 := Pick(d, 0x01, x), Pick(d, 0x02, x2), Pick(d, 0x04, x4);
    var p3, p4 := Pick(d, 0x08, x8), Pick(d, 0x10, Twice(x8));
    SymbolTwice(x, k);
    SymbolTwice(x2, k);
    SymbolTwice(x4, k);
    SymbolTwice(x8, k);
    SymbolPick(d, 0x01, x, k);
    SymbolPick(d, 0x02, x2, k);
    SymbolPick(d, 0x04, x4, k);
    SymbolPick(d, 0x08, x8, k);
    SymbolPick(d, 0x10, Twice(x8), k);
    SymbolXor(p0, p1, k);
    SymbolXor(Xor(p0, p1), p2, k);
    SymbolXor(Xor(Xor(p0, p1), p2), p3, k);
    SymbolXor(Xor(Xor(Xor(p0, p1), p2), p3), p4, k);
  }

  lemma ScaleNonzero(d: bv8, s: bv64)
    requires 0 < d < 32 && 0 < s < 32
    ensures Scale(d, s) != 0
  {
  }

  lemma BeyondSymbol(x: bv64)
    requires Within(x)
    ensures Single(x) <==> forall k :: 1 <= k < 8 ==> SymbolAt(x, k) == 0
  {
    assert Single(x) ==> forall k :: 1 <= k < 8 ==> SymbolAt(x, k) == 0;
    if forall k :: 1 <= k < 8 ==> SymbolAt(x, k) == 0 {
      assert SymbolAt(x, 1) == 0 && SymbolAt(x, 2) == 0 && SymbolAt(x, 3) == 0 && SymbolAt(x, 4) == 0;
      assert SymbolAt(x, 5) == 0 && SymbolAt(x, 6) == 0 && SymbolAt(x, 7) == 0;
    }
  }

  lemma SymbolSmall(x: bv64, k: nat)
    requires k < 8
    ensures SymbolAt(x, k) < 32
  {
  }

  /** Scaling leaves only the last symbol exactly where there was only that. */
  lemma ScaledSingle(d: bv8, x: bv64)
    requires 0 < d < 32 && Within(x)
    ensures Single(Scale(d, x)) <==> Single(x)
  {
    hide Scale, SymbolAt, Within, Single;
    if Single(x) {
      ScaleSymbol(d, x);
    } else if Single(Scale(d, x)) {
      SingleWithin(Scale(d, x));
      BeyondSymbol(x);
      BeyondSymbol(Scale(d, x));
      var k :| 1 <= k < 8 && SymbolAt(x, k) != 0;
      SymbolScale(d, x, k);
      SymbolSmall(x, k);
      ScaleNonzero(d, SymbolAt(x, k));
    }
  }

  // ----- zeros fed to the register

  /** The state after n zeros. */
  function Advance(x: bv64, n: nat): bv64
    decreases n
  {
    if n == 0 then x else Advance(Shift(x), n - 1)
  }

  lemma {:induction false} AdvanceSum(x: bv64, m: nat, n: nat)
    ensures Advance(x, m + n) == Advance(Advance(x, m), n)
    decreases m
  {
    hide Shift;
    if m > 0 {
      AdvanceSum(Shift(x), m - 1, n);
    }
  }

  lemma ShiftedWithin(x: bv64)
    ensures Within(Shift(x))
  {
    hide Step, Within;
    StepWithin(x, 0);
  }

  lemma {:induction false} AdvanceXor(x: bv64, y: bv64, n: nat)
    ensures Advance(Xor(x, y), n) == Xor(Advance(x, n), Advance(y, n))
    decreases n
  {
    hide Shift, Xor;
    if n > 0 {
      ShiftXor(x, y);
      AdvanceXor(Shift(x), Shift(y), n - 1);
    }
  }

  lemma {:induction false} AdvanceScale(d: bv8, x: bv64, n: nat)
    requires Within(x)
    ensures Advance(Scale(d, x), n) == Scale(d, Advance(x, n)) && Within(Advance(x, n))
    decreases n
  {
    hide Shift, Scale, Within;
    if n > 0 {
      ShiftScale(d, x);
      ShiftedWithin(x);
      AdvanceScale(d, Shift(x), n - 1);
    }
  }

  /** Two runs over the same symbols differ by what the difference they start with becomes on zeros. */
  lemma {:induction false} RunGap(a: bv64, b: bv64, v: seq<bv8>)
    ensures Xor(Run(a, v), Run(b, v)) == Advance(Xor(a, b), |v|)
    decreases |v|
  {
    hide Step, Xor;
    if v != [] {
      SameSymbol(v[0]);
      StepXor(a, b, v[0], v[0]);
      RunGap(Step(a, v[0]), Step(b, v[0]), v[1..]);
    }
  }

  // ----- products of states, from which high powers follow

  function HornerStep(y: bv64, r: bv64, d: bv8): bv64 {
    Xor(Shift(r), Scale(d, y))
  }

  /** r, advanced by |v| places, plus the state v spells times y. */
  function Horner(y: bv64, r: bv64, v: seq<bv8>): bv64
    decreases |v|
  {
    if v == [] then r else Horner(y, HornerStep(y, r, v[0]), v[1..])
  }

  lemma StepZero(d: bv8)
    ensures Step(0, d) == d as bv64
  {
  }

  lemma StepAdds(c: bv64, d: bv8)
    ensures Step(c, d) == Xor(Shift(c), d as bv64)
  {
    hide Step, Xor;
    StepXor(0, c, d, 0);
    StepZero(d);
    XorNone(c);
    SymbolXorZero(d);
    Commute(d as bv64, Step(c, 0));
  }

  lemma {:induction false} AdvanceHorner(c: bv64, v: seq<bv8>, n: nat)
    requires Symbols(v)
    ensures Advance(Run(c, v), n) == Horner(Advance(1, n), Advance(c, n), v)
    decreases |v|
  {
    hide Step, Shift, Xor, Scale, Within;
    if v != [] {
      var d := v[0];
      AdvanceHorner(Step(c, d), v[1..], n);
      StepAdds(c, d);
      AdvanceXor(Shift(c), d as bv64, n);
      OneWithin();
      ScaleOne(d);
      AdvanceScale(d, 1, n);
      AdvanceLast(c, n);
    }
  }

  lemma AdvanceLast(c: bv64, n: nat)
    ensures Advance(Shift(c), n) == Shift(Advance(c, n))
  {
    hide Shift;
    AdvanceSum(c, n, 1);
    assert Advance(Advance(c, n), 1) == Advance(Shift(Advance(c, n)), 0);
  }

  lemma {:induction false} AdvanceZero(n: nat)
    ensures Advance(0, n) == 0
  {
    if n > 0 {
      AdvanceZero(n - 1);
    }
  }

  lemma Product(m: nat, n: nat, v: seq<bv8>)
    requires Symbols(v) && Run(0, v) == Advance(1, m)
    ensures Advance(1, m + n) == Horner(Advance(1, n), 0, v)
  {
    hide Run, Horner, Advance;
    AdvanceSum(1, m, n);
    AdvanceHorner(0, v, n);
    AdvanceZero(n);
  }

  lemma {:induction false} AdvanceThrough(s: seq<bv64>)
    requires s != [] && forall i :: 0 <= i < |s| - 1 ==> Shift(s[i]) == s[i + 1]
    ensures Advance(s[0], |s| - 1) == s[|s| - 1]
  {
    hide Shift;
    if |s| > 1 {
      AdvanceThrough(s[1..]);
    }
  }

  lemma {:induction false} HornerThrough(y: bv64, r: seq<bv64>, v: seq<bv8>)
    requires |r| == |v| + 1 && forall i :: 0 <= i < |v| ==> HornerStep(y, r[i], v[i]) == r[i + 1]
    ensures Horner(y, r[0], v) == r[|v|]
  {
    hide HornerStep;
    if v != [] {
      HornerThrough(y, r[1..], v[1..]);
    }
  }
}
