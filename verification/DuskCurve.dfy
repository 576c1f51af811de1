/** The two double-and-add loops, over any group with an associative addition and an identity. */
module DuskCurve {
  import opened Bytes
  import opened Numbers

  datatype Group<!T> = Group(zero: T, add: (T, T) -> T)

  ghost predicate Neutral<T>(g: Group<T>, x: T) {
    g.add(x, g.zero) == x == g.add(g.zero, x)
  }

  ghost predicate Associates<T>(g: Group<T>, x: T, y: T, z: T) {
    g.add(g.add(x, y), z) == g.add(x, g.add(y, z))
  }

  ghost predicate IsGroup<T(!new)>(g: Group<T>) {
    && (forall x :: Neutral(g, x))
    && (forall x, y, z :: Associates(g, x, y, z))
  }

  /** n * P: the n-fold sum of P. */
  function Times<T>(g: Group<T>, n: nat, P: T): T {
    if n == 0 then g.zero else g.add(P, Times(g, n - 1, P))
  }

  lemma {:induction false} TimesAdd<T(!new)>(g: Group<T>, m: nat, n: nat, P: T)
    requires IsGroup(g)
    ensures g.add(Times(g, m, P), Times(g, n, P)) == Times(g, m + n, P)
  {
    if m == 0 {
      assert Neutral(g, Times(g, n, P));
    } else {
      TimesAdd(g, m - 1, n, P);
      assert Associates(g, P, Times(g, m - 1, P), Times(g, n, P));
    }
  }

  /** One step of either loop: double, then add P when the bit is set. */
  method DoubleAndAdd<T(!new)>(g: Group<T>, Q: T, bit: int, P: T, ghost n: nat) returns (Q': T)
    requires IsGroup(g)
    requires bit == 0 || bit == 1
    requires Q == Times(g, n, P)
    ensures Q' == Times(g, 2 * n + bit, P)
  {
    TimesAdd(g, n, n, P);
    TimesAdd(g, 2 * n, 1, P);
    assert Times(g, 1, P) == g.add(P, Times(g, 0, P)) == P by {
      assert Neutral(g, P);
    }
    Q' := g.add(Q, Q);
    if bit != 0 {
      Q' := g.add(Q', P);
    }
  }

  /** b >> j on a byte, one halving at a time. */
  function ShiftRight(b: byte, j: nat): byte {
    if j == 0 then b else ShiftRight(b, j - 1) / 2
  }

  function Bit(b: byte, j: nat): int {
    ShiftRight(b, j) % 2
  }

  lemma ShiftTable(b: byte)
    ensures ShiftRight(b, 1) == b / 2 && ShiftRight(b, 2) == b / 4
    ensures ShiftRight(b, 3) == b / 8 && ShiftRight(b, 4) == b / 16
    ensures ShiftRight(b, 5) == b / 32 && ShiftRight(b, 6) == b / 64
    ensures ShiftRight(b, 7) == b / 128 && ShiftRight(b, 8) == 0
  {
    assert ShiftRight(b, 1) == b / 2;
    assert ShiftRight(b, 2) == b / 4;
    assert ShiftRight(b, 3) == b / 8;
    assert ShiftRight(b, 4) == b / 16;
    assert ShiftRight(b, 5) == b / 32;
    assert ShiftRight(b, 6) == b / 64;
    assert ShiftRight(b, 7) == b / 128;
  }

  /** The number v extended by bits from - 1, ..., j of b, most significant first. */
  function Feed(v: nat, b: byte, from: nat, j: nat): nat
    requires j <= from <= 8
    decreases from - j
  {
    if j == from then v else 2 * Feed(v, b, from, j + 1) + Bit(b, j)
  }

  lemma FeedWholeByte(v: nat, b: byte)
    ensures Feed(v, b, 8, 0) == 256 * v + b
  {
    ShiftTable(b);
    FeedSix(v, b, 8);
    FeedOne(v, b, 8, 6);
    FeedOne(v, b, 8, 7);
  }

  lemma FeedAllButTop(b: byte)
    ensures Feed(0, b, 7, 0) == b % 128
  {
    ShiftTable(b);
    FeedSix(0, b, 7);
    FeedOne(0, b, 7, 6);
  }

  lemma FeedOne(v: nat, b: byte, from: nat, j: nat)
    requires j < from <= 8
    ensures Feed(v, b, from, j) - ShiftRight(b, j) == 2 * (Feed(v, b, from, j + 1) - ShiftRight(b, j + 1))
  {
    assert ShiftRight(b, j + 1) == ShiftRight(b, j) / 2;
  }

  lemma FeedSix(v: nat, b: byte, from: nat)
    requires 6 <= from <= 8
    ensures Feed(v, b, from, 0) - b == 64 * (Feed(v, b, from, 6) - ShiftRight(b, 6))
  {
    FeedOne(v, b, from, 0);
    FeedOne(v, b, from, 1);
    FeedOne(v, b, from, 2);
    FeedOne(v, b, from, 3);
    FeedOne(v, b, from, 4);
    FeedOne(v, b, from, 5);
  }

  // ----- most significant byte first

  /** The number formed by the first i bits of k. */
  function LeadingBits(k: seq<byte>, i: nat): nat
    requires i <= 8 * |k|
  {
    if i % 8 == 0 then BeValue(k[..i / 8]) else Feed(BeValue(k[..i / 8]), k[i / 8], 8, 8 - i % 8)
  }

  lemma LeadingBitsStep(k: seq<byte>, i: nat)
    requires i < 8 * |k|
    ensures LeadingBits(k, i + 1) == 2 * LeadingBits(k, i) + Bit(k[i / 8], 7 - i % 8)
  {
    hide BeValue, Bit;
    var n, r := i / 8, i % 8;
    if r == 7 {
      assert (i + 1) / 8 == n + 1 && (i + 1) % 8 == 0;
      NextByte(k, n);
      FeedWholeByte(BeValue(k[..n]), k[n]);
    } else {
      assert (i + 1) / 8 == n && (i + 1) % 8 == r + 1;
    }
  }

  lemma NextByte(k: seq<byte>, n: nat)
    requires n < |k|
    ensures BeValue(k[..n + 1]) == 256 * BeValue(k[..n]) + k[n]
  {
    assert k[..n + 1][..n] == k[..n];
  }

  method ScalarMultShort<T(!new)>(g: Group<T>, k: seq<byte>, P: T) returns (Q: T)
    requires IsGroup(g)
    ensures Q == Times(g, BeValue(k), P)
  {
    Q := g.zero;
    var N := 8 * |k|;
    for i := 0 to N
      invariant Q == Times(g, LeadingBits(k, i), P)
    {
      ghost var n := LeadingBits(k, i);
      LeadingBitsStep(k, i);
      Q := DoubleAndAdd(g, Q, Bit(k[i / 8], 7 - i % 8), P, n);
    }
    assert k[..|k|] == k;
  }

  // ----- least significant byte first, top bit skipped

  /** k with the top bit of its last byte cleared. */
  function ClearTop(k: seq<byte>): (c: seq<byte>)
    ensures |c| == |k|
  {
    if k == [] then [] else k[..|k| - 1] + [k[|k| - 1] % 128]
  }

  /** Clearing the top bit is reducing modulo 2^(8n - 1). */
  lemma ClearTopValue(k: seq<byte>)
    requires k != []
    ensures LeValue(ClearTop(k)) == LeValue(k) - 128 * Pow256(|k| - 1) * (k[|k| - 1] / 128)
    ensures LeValue(ClearTop(k)) == LeValue(k) % (128 * Pow256(|k| - 1))
  {
    var n, top := |k| - 1, k[|k| - 1];
    assert k == k[..n] + [top];
    LastDigit(k[..n], top);
    LastDigit(k[..n], top % 128);
    TopDigit(Pow256(n), LeValue(k[..n]), top, LeValue(k), LeValue(ClearTop(k)));
  }

  lemma LastDigit(low: seq<byte>, top: byte)
    ensures LeValue(low + [top]) == LeValue(low) + Pow256(|low|) * top
    ensures LeValue(low) < Pow256(|low|)
  {
    LeValueConcat(low, [top]);
    SingleByte(top);
    LeRoundTrip(low);
  }

  lemma SingleByte(b: byte)
    ensures LeValue([b]) == b
  {
  }

  lemma TopDigit(p: int, low: int, top: byte, whole: int, cleared: int)
    requires 0 <= low < p
    requires whole == low + p * top && cleared == low + p * (top % 128)
    ensures cleared == whole - 128 * p * (top / 128)
    ensures cleared == whole % (128 * p)
  {
    var t, q := top % 128, top / 128;
    assert top == 128 * q + t;
    assert p * top == 128 * p * q + p * t by {
      assert p * (128 * q + t) == p * (128 * q) + p * t;
    }
    MulMonotone(t, 127, p);
    MulMonotone(0, t, p);
    RemainderOf(low + p * top, 128 * p, q, low + p * t);
  }

  lemma RemainderOf(n: int, m: int, q: int, r: int)
    requires 0 <= r < m && n == m * q + r
    ensures n % m == r
  {
    var d := n / m - q;
    assert m * d == r - n % m by {
      assert n == m * (n / m) + n % m;
      assert m * d == m * (n / m) - m * q;
    }
    if d >= 1 {
      MulMonotone(1, d, m);
    } else if d <= -1 {
      MulMonotone(d, -1, m);
    }
  }

  method ScalarMultShorti<T(!new)>(g: Group<T>, k: seq<byte>, P: T) returns (Q: T)
    requires IsGroup(g)
    ensures Q == Times(g, LeValue(ClearTop(k)), P)
  {
    Q := g.zero;
    ghost var c := ClearTop(k);
    var i := |k| - 1;
    while i >= 0
      invariant -1 <= i < |k|
      invariant Q == Times(g, LeValue(c[i + 1..]), P)
    {
      Q := AddByte(g, Q, k[i], i == |k| - 1, P, LeValue(c[i + 1..]));
      assert c[i] == if i == |k| - 1 then k[i] % 128 else k[i];
      assert c[i..][1..] == c[i + 1..];
      i := i - 1;
    }
    assert c[0..] == c;
  }

  /** The inner loop over the bits of one byte. */
  method AddByte<T(!new)>(g: Group<T>, Q: T, b: byte, first: bool, P: T, ghost v: nat) returns (Q': T)
    requires IsGroup(g)
    requires Q == Times(g, v, P)
    requires first ==> v == 0
    ensures Q' == Times(g, 256 * v + (if first then b % 128 else b), P)
  {
    Q' := Q;
    ghost var from := if first then 7 else 8;
    ghost var acc := v;
    var j := 7;
    while j >= 0
      invariant -1 <= j <= 7
      invariant acc == if j == 7 then v else Feed(v, b, from, j + 1)
      invariant Q' == Times(g, acc, P)
    {
      if first && j == 7 {
        j := j - 1;
        continue;
      }
      Q' := DoubleAndAdd(g, Q', Bit(b, j), P, acc);
      acc := 2 * acc + Bit(b, j);
      j := j - 1;
    }
    if first {
      FeedAllButTop(b);
    } else {
      FeedWholeByte(v, b);
    }
  }

  /** On reversed bytes the two loops multiply by the same number exactly when the skipped bit is clear. */
  lemma LoopsAgree(k: seq<byte>)
    requires k != []
    ensures LeValue(ClearTop(k)) == BeValue(Reverse(k)) <==> k[|k| - 1] < 128
  {
    BeIsReversedLe(Reverse(k));
    assert Reverse(Reverse(k)) == k;
    ClearTopValue(k);
    if k[|k| - 1] >= 128 {
      assert k[|k| - 1] / 128 == 1;
    }
  }
}
