/** Machine words, byte strings and the numbers they stand for in either byte order. */
module Bytes {

  type byte = x: int | 0 <= x < 256

  type uint32 = x: int | 0 <= x < 0x1_0000_0000

  type u64 = x: int | 0 <= x < 0x1_0000_0000_0000_0000

  function Pow256(n: nat): (p: int)
    ensures p >= 1
  {
    if n == 0 then 1 else 256 * Pow256(n - 1)
  }

  function LeValue(s: seq<byte>): (v: int)
    ensures v >= 0
  {
    if s == [] then 0 else s[0] + 256 * LeValue(s[1..])
  }

  function BeValue(s: seq<byte>): (v: int)
    ensures v >= 0
  {
    if s == [] then 0 else 256 * BeValue(s[..|s| - 1]) + s[|s| - 1]
  }

  /** The n low bytes of x, least significant first; higher bytes are cut off as a fixed-width write does. */
  function LeBytes(x: int, n: nat): (s: seq<byte>)
    ensures |s| == n
    decreases n
  {
    if n == 0 then [] else [x % 256] + LeBytes(x / 256, n - 1)
  }

  function Reverse<T>(s: seq<T>): (r: seq<T>)
    ensures |r| == |s|
    ensures forall i :: 0 <= i < |s| ==> r[i] == s[|s| - 1 - i]
  {
    seq(|s|, i requires 0 <= i < |s| => s[|s| - 1 - i])
  }

  function BeBytes(x: int, n: nat): (s: seq<byte>)
    ensures |s| == n
  {
    Reverse(LeBytes(x, n))
  }

  lemma {:induction false} BeIsReversedLe(s: seq<byte>)
    ensures BeValue(s) == LeValue(Reverse(s))
  {
    if s != [] {
      BeIsReversedLe(s[..|s| - 1]);
      assert Reverse(s)[1..] == Reverse(s[..|s| - 1]);
    }
  }

  lemma {:induction false} LeRoundTrip(s: seq<byte>)
    ensures LeBytes(LeValue(s), |s|) == s
    ensures LeValue(s) < Pow256(|s|)
  {
    if s != [] {
      LeRoundTrip(s[1..]);
      assert s == [s[0]] + s[1..];
    }
  }

  lemma {:induction false} LeValueOfBytes(x: int, n: nat)
    requires 0 <= x < Pow256(n)
    ensures LeValue(LeBytes(x, n)) == x
  {
    if n > 0 {
      LeValueOfBytes(x / 256, n - 1);
    }
  }

  lemma Regroup(x: int, y: int, z: int)
    ensures x * (y * z) == (x * y) * z
  {
  }

  lemma {:induction false} LeValueConcat(a: seq<byte>, b: seq<byte>)
    ensures LeValue(a + b) == LeValue(a) + Pow256(|a|) * LeValue(b)
  {
    if a == [] {
      assert a + b == b;
    } else {
      LeValueConcat(a[1..], b);
      assert (a + b)[1..] == a[1..] + b;
      Regroup(256, Pow256(|a| - 1), LeValue(b));
    }
  }

  lemma BeValueConcat(a: seq<byte>, b: seq<byte>)
    ensures BeValue(a + b) == BeValue(a) * Pow256(|b|) + BeValue(b)
  {
    hide BeValue, LeValue, Pow256, Reverse;
    BeIsReversedLe(a);
    BeIsReversedLe(b);
    BeIsReversedLe(a + b);
    LeValueConcat(Reverse(b), Reverse(a));
    ReverseConcat(a, b);
  }

  lemma ReverseConcat<T>(a: seq<T>, b: seq<T>)
    ensures Reverse(a + b) == Reverse(b) + Reverse(a)
  {
  }

  lemma BeValueOfBytes(x: int, n: nat)
    requires 0 <= x < Pow256(n)
    ensures BeValue(BeBytes(x, n)) == x
  {
    BeIsReversedLe(BeBytes(x, n));
    assert Reverse(BeBytes(x, n)) == LeBytes(x, n);
    LeValueOfBytes(x, n);
  }

  lemma Pow256Values()
    ensures Pow256(1) == 0x100
    ensures Pow256(2) == 0x1_0000
    ensures Pow256(4) == 0x1_0000_0000
    ensures Pow256(8) == 0x1_0000_0000_0000_0000
    ensures Pow256(24) == 0x1_0000000000000000_0000000000000000_0000000000000000
    ensures Pow256(32) == 0x1_0000000000000000_0000000000000000_0000000000000000_0000000000000000
  {
    Pow256Sum(4, 4);
    Pow256Sum(8, 8);
    Pow256Sum(16, 8);
    Pow256Sum(16, 16);
  }

  lemma {:induction false} Pow256Sum(m: nat, n: nat)
    ensures Pow256(m + n) == Pow256(m) * Pow256(n)
  {
    if m > 0 {
      Pow256Sum(m - 1, n);
    }
  }
}
