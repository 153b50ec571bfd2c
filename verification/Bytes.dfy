/** Little-endian integers and the fixed-width numeric types the daemon stores. */
module Bytes {

  type byte = b: int | 0 <= b < 0x100
  type uint16 = x: int | 0 <= x < 0x1_0000
  type uint32 = x: int | 0 <= x < 0x1_0000_0000
  type uint64 = x: int | 0 <= x < 0x1_0000_0000_0000_0000

  /** 256 to the power n: how many values n bytes can hold. */
  function Pow256(n: nat): (p: nat)
    ensures p > 0
  {
    if n == 0 then 1 else 256 * Pow256(n - 1)
  }

  lemma Widths()
    ensures Pow256(1) == 0x100
    ensures Pow256(2) == 0x1_0000
    ensures Pow256(4) == 0x1_0000_0000
    ensures Pow256(8) == 0x1_0000_0000_0000_0000
  {
    assert Pow256(1) == 256 * Pow256(0);
    assert Pow256(3) == 256 * Pow256(2);
    assert Pow256(5) == 256 * Pow256(4);
    assert Pow256(7) == 256 * Pow256(6);
  }

  /** The n low-order bytes of v, least significant first. */
  function ToLE(n: nat, v: nat): (s: seq<byte>)
    ensures |s| == n
  {
    if n == 0 then [] else [v % 256] + ToLE(n - 1, v / 256)
  }

  /** The byte at place i counts the 256^i. */
  lemma {:induction false} ByteOf(n: nat, v: nat, i: nat)
    requires i < n
    ensures ToLE(n, v)[i] == v / Pow256(i) % 256
  {
    if i > 0 {
      ByteOf(n - 1, v / 256, i - 1);
      DivideTwice(v, Pow256(i - 1));
    } else {
      assert Pow256(0) == 1;
    }
  }

  lemma DivideTwice(v: nat, p: nat)
    requires p > 0
    ensures v / 256 / p == v / (256 * p)
  {
    var q, r := v / 256, v % 256;
    var a, b := q / p, q % p;
    assert v == 256 * (a * p + b) + r == a * (256 * p) + (256 * b + r);
    assert 0 <= 256 * b + r < 256 * p;
    QuotientIs(v, 256 * p, a, 256 * b + r);
  }

  lemma QuotientIs(v: nat, d: nat, a: nat, r: nat)
    requires r < d && v == a * d + r
    ensures v / d == a
  {
    var x := v / d;
    assert v == x * d + v % d;
    if x < a { Grows(x + 1, a, d); } else if x > a { Grows(a + 1, x, d); }
  }

  lemma {:induction false} Grows(x: nat, y: nat, d: nat)
    requires x <= y
    ensures x * d <= y * d
    decreases y
  {
    if x < y { Grows(x, y - 1, d); }
  }

  /** The number whose little-endian bytes are s. */
  function FromLE(s: seq<byte>): nat
  {
    if s == [] then 0 else s[0] + 256 * FromLE(s[1..])
  }

  lemma {:induction false} FromLEBound(s: seq<byte>)
    ensures FromLE(s) < Pow256(|s|)
  {
    if s != [] { FromLEBound(s[1..]); }
  }

  /** n bytes carry every value below 256^n exactly. */
  lemma {:induction false} RoundTripLE(n: nat, v: nat)
    requires v < Pow256(n)
    ensures FromLE(ToLE(n, v)) == v
  {
    if n > 0 {
      assert ToLE(n, v)[1..] == ToLE(n - 1, v / 256);
      RoundTripLE(n - 1, v / 256);
    }
  }
}
