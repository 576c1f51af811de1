/**
 * The 40-bit CashAddr checksum: a BCH code over 5-bit symbols, and what it detects.
 * Lemmas about one step work on the bits; the others hide the bit operations and combine those.
 */
module CashAddrChecksum {

  function Xor(a: bv64, b: bv64): bv64 {
    a ^ b
  }

  function Pick(t: bv8, mask: bv8, generator: bv64): bv64 {
    if t & mask > 0 then generator else 0
  }

  function Feedback(t: bv8): bv64 {
    Xor(Xor(Xor(Xor(Pick(t, 0x01, 0x98f2bc8e61), Pick(t, 0x02, 0x79b76d99e2)), Pick(t, 0x04, 0xf33e5fb3c4)),
            Pick(t, 0x08, 0xae2eabe2a8)), Pick(t, 0x10, 0x1e4f43e470))
  }

  /** byte(c >> 35). */
  function Top(c: bv64): bv8 {
    ((c >> 35) & 0xff) as bv8
  }

  function Mix(c: bv64, d: bv8): bv64 {
    ((c & 0x07ffffffff) << 5) ^ (d as bv64)
  }

  /** A state of 40 bits. */
  predicate Within(c: bv64) {
    c < 0x100_0000_0000
  }

  function Step(c: bv64, d: bv8): bv64 {
    Xor(Mix(c, d), Feedback(Top(c)))
  }

  /** The state after feeding v to the register, starting from c. */
  function Run(c: bv64, v: seq<bv8>): bv64
    decreases |v|
  {
    if v == [] then c else Run(Step(c, v[0]), v[1..])
  }

  function Checksum(v: seq<bv8>): bv64 {
    Xor(Run(1, v), 1)
  }

  /** The register loop, with its five conditional feedbacks. */
  method PolyMod(v: seq<bv8>) returns (r: bv64)
    ensures r == Checksum(v)
  {
    hide Step, Xor;
    var c: bv64 := 1;
    for i := 0 to |v|
      invariant Run(1, v) == Run(c, v[i..])
    {
      c := PolyStep(c, v[i]);
      assert v[i..][1..] == v[i + 1..];
    }
    r := Xor(c, 1);
  }

  method PolyStep(c: bv64, d: bv8) returns (r: bv64)
    ensures r == Step(c, d)
  {
    hide Mix, Top, Xor;
    var c0 := Top(c);
    r := Mix(c, d);
    AssociateFeedback(r, c0);
    XorNothing(r);
    if c0 & 0x01 > 0 { r := Xor(r, 0x98f2bc8e61); }
    XorNothing(r);
    if c0 & 0x02 > 0 { r := Xor(r, 0x79b76d99e2); }
    XorNothing(r);
    if c0 & 0x04 > 0 { r := Xor(r, 0xf33e5fb3c4); }
    XorNothing(r);
    if c0 & 0x08 > 0 { r := Xor(r, 0xae2eabe2a8); }
    XorNothing(r);
    if c0 & 0x10 > 0 { r := Xor(r, 0x1e4f43e470); }
  }

  lemma XorNothing(x: bv64)
    ensures Xor(x, 0) == x
  {
  }

  lemma Associate(x: bv64, y: bv64, z: bv64)
    ensures Xor(Xor(x, y), z) == Xor(x, Xor(y, z))
  {
  }

  lemma AssociateFeedback(x: bv64, t: bv8)
    ensures Xor(x, Feedback(t))
      == Xor(Xor(Xor(Xor(Xor(x, Pick(t, 0x01, 0x98f2bc8e61)), Pick(t, 0x02, 0x79b76d99e2)),
                     Pick(t, 0x04, 0xf33e5fb3c4)), Pick(t, 0x08, 0xae2eabe2a8)), Pick(t, 0x10, 0x1e4f43e470))
  {
    hide Xor, Pick;
    var p0, p1, p2 := Pick(t, 0x01, 0x98f2bc8e61), Pick(t, 0x02, 0x79b76d99e2), Pick(t, 0x04, 0xf33e5fb3c4);
    var p3, p4 := Pick(t, 0x08, 0xae2eabe2a8), Pick(t, 0x10, 0x1e4f43e470);
    Associate(x, p0, p1);
    Associate(x, Xor(p0, p1), p2);
    Associate(x, Xor(Xor(p0, p1), p2), p3);
    Associate(x, Xor(Xor(Xor(p0, p1), p2), p3), p4);
  }

  lemma {:induction false} RunConcat(c: bv64, v: seq<bv8>, w: seq<bv8>)
    ensures Run(c, v + w) == Run(Run(c, v), w)
    decreases |v|
  {
    hide Step;
    if v == [] {
      assert v + w == w;
    } else {
      RunConcat(Step(c, v[0]), v[1..], w);
      assert (v + w)[1..] == v[1..] + w;
    }
  }

  lemma PickIs(c: bv64, generator: bv64)
    ensures Pick(Top(c), 0x01, generator) == if c & 0x08_0000_0000 != 0 then generator else 0
    ensures Pick(Top(c), 0x02, generator) == if c & 0x10_0000_0000 != 0 then generator else 0
    ensures Pick(Top(c), 0x04, generator) == if c & 0x20_0000_0000 != 0 then generator else 0
    ensures Pick(Top(c), 0x08, generator) == if c & 0x40_0000_0000 != 0 then generator else 0
    ensures Pick(Top(c), 0x10, generator) == if c & 0x80_0000_0000 != 0 then generator else 0
  {
  }

  /** One step on the bits: shift by a symbol, take in the next, and add a constant for each bit shifted out. */
  lemma StepIs(c: bv64, d: bv8)
    ensures Step(c, d) == Xor(((c & 0x07_ffff_ffff) << 5) ^ (d as bv64),
                              Xor(Xor(Xor(Xor(if c & 0x08_0000_0000 != 0 then 0x98f2bc8e61 else 0,
                                              if c & 0x10_0000_0000 != 0 then 0x79b76d99e2 else 0),
                                          if c & 0x20_0000_0000 != 0 then 0xf33e5fb3c4 else 0),
                                      if c & 0x40_0000_0000 != 0 then 0xae2eabe2a8 else 0),
                                  if c & 0x80_0000_0000 != 0 then 0x1e4f43e470 else 0))
  {
    PickIs(c, 0x98f2bc8e61);
    PickIs(c, 0x79b76d99e2);
    PickIs(c, 0xf33e5fb3c4);
    PickIs(c, 0xae2eabe2a8);
    PickIs(c, 0x1e4f43e470);
    hide Pick, Top, Xor;
  }

  lemma StepWithin(c: bv64, d: bv8)
    ensures Within(Step(c, d))
  {
  }

  lemma {:induction false} RunWithin(c: bv64, v: seq<bv8>)
    requires Within(c)
    ensures Within(Run(c, v))
    decreases |v|
  {
    hide Step, Within;
    if v != [] {
      StepWithin(c, v[0]);
      RunWithin(Step(c, v[0]), v[1..]);
    }
  }

  // ----- two runs side by side: the exclusive or of their states

  lemma CancelBoth(x: bv64, y: bv64, f: bv64)
    ensures Xor(Xor(x, f), Xor(y, f)) == Xor(x, y)
  {
    hide Xor;
    Commute(y, f);
    Associate(Xor(x, f), f, y);
    XorTwice(x, f);
  }

  lemma Commute(x: bv64, y: bv64)
    ensures Xor(x, y) == Xor(y, x)
  {
  }

  lemma XorTwice(x: bv64, f: bv64)
    ensures Xor(Xor(x, f), f) == x
  {
  }

  lemma MixGap(a: bv64, b: bv64, d: bv8, e: bv8)
    ensures Xor(Mix(a, d), Mix(b, e)) == Mix(Xor(a, b), d ^ e)
  {
  }

  /** With equal feedback the difference of two states just shifts and takes in the symbols' difference. */
  lemma StepGap(a: bv64, b: bv64, d: bv8, e: bv8)
    requires Top(a) == Top(b)
    ensures Xor(Step(a, d), Step(b, e)) == Mix(Xor(a, b), d ^ e)
  {
    hide Feedback, Top, Mix, Xor;
    CancelBoth(Mix(a, d), Mix(b, e), Feedback(Top(a)));
    MixGap(a, b, d, e);
  }

  lemma XorNone(b: bv64)
    ensures Xor(0, b) == b && Xor(b, b) == 0
  {
  }

  lemma XorZero(a: bv64, b: bv64)
    ensures Xor(a, b) == 0 <==> a == b
  {
    hide Xor;
    XorTwice(a, b);
    XorNone(b);
  }

  lemma SymbolGap(d: bv8, e: bv8)
    requires d < 32 && e < 32
    ensures d ^ e < 32
    ensures d ^ e == 0 <==> d == e
  {
  }

  // ----- the step is injective in the state

  /** The five generators are independent in their low 5 bits. */
  lemma FeedbackDetermines(t: bv8, u: bv8)
    requires t < 32 && u < 32 && Feedback(t) & 31 == Feedback(u) & 31
    ensures t == u
  {
  }

  lemma LowBits(a: bv64, b: bv64, d: bv8, f: bv64, g: bv64)
    requires Xor(Mix(a, d), f) == Xor(Mix(b, d), g)
    ensures f & 31 == g & 31
  {
  }

  lemma TopSmall(a: bv64)
    requires Within(a)
    ensures Top(a) < 32
  {
  }

  lemma TopAndMix(a: bv64, b: bv64, d: bv8)
    requires Within(a) && Within(b)
    requires Top(a) == Top(b) && Mix(Xor(a, b), d ^ d) == 0
    ensures a == b
  {
  }

  lemma StepInjective(a: bv64, b: bv64, d: bv8)
    requires Within(a) && Within(b)
    requires Step(a, d) == Step(b, d)
    ensures a == b
  {
    hide Feedback, Top, Mix, Within, Xor;
    TopSmall(a);
    TopSmall(b);
    LowBits(a, b, d, Feedback(Top(a)), Feedback(Top(b)));
    FeedbackDetermines(Top(a), Top(b));
    StepGap(a, b, d, d);
    XorZero(Step(a, d), Step(b, d));
    TopAndMix(a, b, d);
  }

  lemma {:induction false} RunInjective(a: bv64, b: bv64, v: seq<bv8>)
    requires Within(a) && Within(b)
    requires Run(a, v) == Run(b, v)
    ensures a == b
    decreases |v|
  {
    hide Step, Within;
    if v != [] {
      StepWithin(a, v[0]);
      StepWithin(b, v[0]);
      RunInjective(Step(a, v[0]), Step(b, v[0]), v[1..]);
      StepInjective(a, b, v[0]);
    }
  }

  // ----- eight symbols never reach the feedback taps

  predicate Symbols(v: seq<bv8>) {
    forall i :: 0 <= i < |v| ==> v[i] < 32
  }

  /** x < 2^(5k): a difference that has not left the low k symbols. */
  predicate Low(x: bv64, k: nat) {
    match k
    case 0 => x == 0
    case 1 => x < 0x20
    case 2 => x < 0x400
    case 3 => x < 0x8000
    case 4 => x < 0x10_0000
    case 5 => x < 0x200_0000
    case 6 => x < 0x4000_0000
    case 7 => x < 0x8_0000_0000
    case _ => x < 0x100_0000_0000
  }

  lemma LowKeepsTop(a: bv64, b: bv64, k: nat)
    requires k < 8 && Low(Xor(a, b), k)
    ensures Top(a) == Top(b)
  {
  }

  lemma LowGrows(x: bv64, d: bv8, k: nat)
    requires k < 8 && Low(x, k) && d < 32
    ensures Low(Mix(x, d), k + 1)
    ensures Mix(x, d) == 0 <==> x == 0 && d == 0
  {
    match k
    case 0 =>
    case 1 =>
    case 2 =>
    case 3 =>
    case 4 =>
    case 5 =>
    case 6 =>
    case _ =>
  }

  lemma GapStep(a: bv64, b: bv64, d: bv8, e: bv8, k: nat)
    requires k < 8 && Low(Xor(a, b), k) && d < 32 && e < 32
    ensures Low(Xor(Step(a, d), Step(b, e)), k + 1)
    ensures Step(a, d) == Step(b, e) <==> a == b && d == e
  {
    hide Step, Low, Mix, Top, Xor;
    SymbolGap(d, e);
    LowGrows(Xor(a, b), d ^ e, k);
    LowKeepsTop(a, b, k);
    StepGap(a, b, d, e);
    XorZero(a, b);
    XorZero(Step(a, d), Step(b, e));
  }

  /** From one state, different windows of at most eight symbols lead to different states. */
  lemma {:induction false} WindowSeparates(a: bv64, b: bv64, v: seq<bv8>, w: seq<bv8>, k: nat)
    requires |v| == |w| && k + |v| <= 8 && Symbols(v) && Symbols(w)
    requires Low(Xor(a, b), k)
    ensures Run(a, v) == Run(b, w) <==> a == b && v == w
    ensures Low(Xor(Run(a, v), Run(b, w)), k + |v|)
    decreases |v|
  {
    hide Step, Low, Xor;
    if v != [] {
      GapStep(a, b, v[0], w[0], k);
      WindowSeparates(Step(a, v[0]), Step(b, w[0]), v[1..], w[1..], k + 1);
      assert v == [v[0]] + v[1..] && w == [w[0]] + w[1..];
    }
  }

  /**
   * Burst detection, for words of any length: changing symbols only inside one window of eight
   * consecutive positions always changes the checksum.
   */
  lemma BurstDetected(v: seq<bv8>, w: seq<bv8>, start: nat, end: nat)
    requires |v| == |w| && start <= end <= |v| && end - start <= 8
    requires v[..start] == w[..start] && v[end..] == w[end..]
    requires Symbols(v[start..end]) && Symbols(w[start..end])
    ensures Checksum(v) == Checksum(w) <==> v == w
  {
    hide Low, Run, Within, Xor;
    var s := Run(1, v[..start]);
    RunThree(1, v, start, end);
    RunThree(1, w, start, end);
    var a, b := Run(s, v[start..end]), Run(s, w[start..end]);
    OneWithin();
    RunWithin(1, v[..start]);
    RunWithin(s, v[start..end]);
    RunWithin(s, w[start..end]);
    NoGap(s);
    WindowSeparates(s, s, v[start..end], w[start..end], 0);
    CancelRight(Run(1, v), Run(1, w), 1);
    if Run(1, v) == Run(1, w) {
      RunInjective(a, b, v[end..]);
      assert v == v[..start] + v[start..end] + v[end..];
      assert w == w[..start] + w[start..end] + w[end..];
    }
  }

  lemma OneWithin()
    ensures Within(1)
  {
  }

  lemma NoGap(s: bv64)
    ensures Low(Xor(s, s), 0)
  {
  }

  lemma CancelRight(x: bv64, y: bv64, f: bv64)
    ensures Xor(x, f) == Xor(y, f) <==> x == y
  {
  }

  lemma RunThree(c: bv64, v: seq<bv8>, start: nat, end: nat)
    requires start <= end <= |v|
    ensures Run(c, v) == Run(Run(Run(c, v[..start]), v[start..end]), v[end..])
  {
    hide Run;
    assert v == v[..start] + (v[start..end] + v[end..]);
    RunConcat(c, v[..start], v[start..end] + v[end..]);
    RunConcat(Run(c, v[..start]), v[start..end], v[end..]);
  }

  // ----- the appended checksum

  /** byte((mod >> (5 * (7 - i))) & 0x1f). */
  function ChecksumSymbol(mod: bv64, i: nat): bv8
    requires i < 8
  {
    (Leading(mod, i + 1) & 0x1f) as bv8
  }

  function ChecksumSymbols(mod: bv64): (s: seq<bv8>)
    ensures |s| == 8
  {
    seq(8, i requires 0 <= i < 8 => ChecksumSymbol(mod, i))
  }

  function Drop5(x: bv64): bv64 {
    x >> 5
  }

  /** mod >> 5 * (8 - k), five bits at a time: the leading 5k of the 40 checksum bits. */
  function Leading(mod: bv64, k: nat): bv64
    decreases 8 - k
  {
    if k >= 8 then mod else Drop5(Leading(mod, k + 1))
  }

  lemma LeadingIsShift(mod: bv64)
    requires Within(mod)
    ensures Leading(mod, 7) == mod >> 5 && Leading(mod, 6) == mod >> 10 && Leading(mod, 5) == mod >> 15
    ensures Leading(mod, 4) == mod >> 20 && Leading(mod, 3) == mod >> 25 && Leading(mod, 2) == mod >> 30
    ensures Leading(mod, 1) == mod >> 35 && Leading(mod, 0) == 0
  {
    hide Within, Drop5;
    DropAgain(mod);
    assert Leading(mod, 7) == mod >> 5;
    assert Leading(mod, 6) == mod >> 10;
    assert Leading(mod, 5) == mod >> 15;
    assert Leading(mod, 4) == mod >> 20;
    assert Leading(mod, 3) == mod >> 25;
    assert Leading(mod, 2) == mod >> 30;
    assert Leading(mod, 1) == mod >> 35;
  }

  lemma DropAgain(x: bv64)
    requires Within(x)
    ensures Drop5(x) == x >> 5 && Drop5(x >> 5) == x >> 10 && Drop5(x >> 10) == x >> 15
    ensures Drop5(x >> 15) == x >> 20 && Drop5(x >> 20) == x >> 25 && Drop5(x >> 25) == x >> 30
    ensures Drop5(x >> 30) == x >> 35 && Drop5(x >> 35) == 0
  {
  }

  lemma {:induction false} LeadingWithin(mod: bv64, k: nat)
    requires Within(mod)
    ensures Within(Leading(mod, k))
    decreases 8 - k
  {
    hide Within, Drop5;
    if k < 8 {
      LeadingWithin(mod, k + 1);
      ShiftWithin(Leading(mod, k + 1));
    }
  }

  lemma ShiftWithin(x: bv64)
    requires Within(x)
    ensures Within(Drop5(x))
  {
  }

  lemma SplitSymbol(x: bv64)
    requires Within(x)
    ensures Low(Drop5(x), 7)
    ensures x == Mix(Drop5(x), (x & 0x1f) as bv8)
  {
  }

  lemma LeadingStep(mod: bv64, k: nat)
    requires k < 8 && Within(mod)
    ensures Low(Leading(mod, k), 7)
    ensures Leading(mod, k + 1) == Mix(Leading(mod, k), ChecksumSymbol(mod, k))
  {
    hide Low, Mix, Within, Drop5;
    LeadingWithin(mod, k + 1);
    SplitSymbol(Leading(mod, k + 1));
  }

  const ZEROS: seq<bv8> := [0, 0, 0, 0, 0, 0, 0, 0]

  /** After k symbols the two runs differ by exactly the leading checksum bits. */
  lemma {:induction false} ChecksumRuns(s: bv64, mod: bv64, k: nat)
    requires Within(mod) && k <= 8
    ensures Xor(Run(s, ChecksumSymbols(mod)[..k]), Run(s, ZEROS[..k])) == Leading(mod, k)
  {
    hide Step, Leading, ChecksumSymbol, Low, Mix, Xor, Within, Top;
    var cs := ChecksumSymbols(mod);
    if k == 0 {
      assert cs[..0] == [] == ZEROS[..0];
      LeadingNone(s, mod);
    } else {
      ChecksumRuns(s, mod, k - 1);
      LeadingStep(mod, k - 1);
      assert cs[..k] == cs[..k - 1] + [cs[k - 1]] && ZEROS[..k] == ZEROS[..k - 1] + [0];
      var a, b := Run(s, cs[..k - 1]), Run(s, ZEROS[..k - 1]);
      RunConcat(s, cs[..k - 1], [cs[k - 1]]);
      RunConcat(s, ZEROS[..k - 1], [0]);
      assert Run(a, [cs[k - 1]]) == Step(a, cs[k - 1]) && Run(b, [0]) == Step(b, 0);
      LowKeepsTop(a, b, 7);
      StepGap(a, b, cs[k - 1], 0);
      SymbolXorZero(cs[k - 1]);
    }
  }

  lemma LeadingNone(s: bv64, mod: bv64)
    requires Within(mod)
    ensures Xor(s, s) == Leading(mod, 0)
  {
    LeadingIsShift(mod);
  }

  lemma SymbolXorZero(d: bv8)
    ensures d ^ 0 == d
  {
  }

  /** Feeding the eight checksum symbols instead of eight zeros returns the register to 1. */
  lemma ChecksumVerifies(v: seq<bv8>)
    ensures Checksum(v + ChecksumSymbols(Checksum(v + ZEROS))) == 0
  {
    hide Run, Leading, ChecksumSymbols, Xor, Within;
    var s := Run(1, v);
    RunConcat(1, v, ZEROS);
    var z := Run(s, ZEROS);
    OneWithin();
    RunWithin(1, v);
    RunWithin(s, ZEROS);
    var mod := Xor(z, 1);
    XorOneWithin(z);
    var cs := ChecksumSymbols(mod);
    ChecksumRuns(s, mod, 8);
    assert cs[..8] == cs && ZEROS[..8] == ZEROS;
    RunConcat(1, v, cs);
    ReturnsToOne(Run(s, cs), z);
  }

  lemma XorOneWithin(z: bv64)
    requires Within(z)
    ensures Within(Xor(z, 1))
  {
  }

  lemma ReturnsToOne(c: bv64, z: bv64)
    requires Xor(c, z) == Leading(Xor(z, 1), 8)
    ensures Xor(c, 1) == 0
  {
  }
}
