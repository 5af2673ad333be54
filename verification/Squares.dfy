// Squares modulo 2^32: why the 32-bit probe sequence of an odd capacity visits every slot.

module Squares {
  import opened Basics
  import opened Powers
  import Rounding

  // x is an odd square root of v modulo 4 * P.
  predicate Root(x: nat, v: nat, P: nat, c: int) {
    x % 2 == 1 && x < 2 * P && x * x == v + c * (4 * P)
  }

  lemma Halve(v: nat, x: nat, P: nat, c: int, d: int)
    requires Root(x, v, P, c) && c == 2 * d
    ensures Root(x, v, 2 * P, d)
  {
    assert c * (4 * P) == d * (4 * (2 * P));
  }

  lemma Shift(v: nat, x: nat, P: nat, c: int, d: int)
    requires Root(x, v, P, c) && c + x + P == 2 * d
    ensures Root(x + 2 * P, v, 2 * P, d)
  {
    assert (x + 2 * P) * (x + 2 * P) == x * x + (x + P) * (4 * P);
    assert (c + x + P) * (4 * P) == c * (4 * P) + (x + P) * (4 * P);
    assert (2 * d) * (4 * P) == d * (4 * (2 * P));
  }

  lemma EvenHalf(c: int)
    requires c % 2 == 0
    ensures c == 2 * (c / 2)
  {
  }

  lemma NextBit(v: nat, x: nat, P: nat, c: int) returns (y: nat, d: int)
    requires Root(x, v, P, c) && P % 2 == 0
    ensures Root(y, v, 2 * P, d)
  {
    if c % 2 == 0 {
      y, d := x, c / 2;
      EvenHalf(c);
      Halve(v, x, P, c, d);
    } else {
      y, d := x + 2 * P, (c + x + P) / 2;
      EvenHalf(c + x + P);
      Shift(v, x, P, c, d);
    }
  }

  // Each bit more is met by keeping the root or by adding half of the modulus to it.
  lemma {:induction false} RootExists(v: nat, k: nat) returns (x: nat, c: int)
    requires v % 8 == 1 && k >= 1
    ensures Root(x, v, Pow2(k), c)
  {
    if k == 1 {
      x, c := 1, -(v / 8);
      assert Pow2(0) == 1;
    } else {
      x, c := RootExists(v, k - 1);
      assert Pow2(k - 1) == 2 * Pow2(k - 2);
      x, c := NextBit(v, x, Pow2(k - 1), c);
    }
  }

  // Every 32-bit word that leaves 1 when divided by 8 is the 32-bit square of some word.
  lemma SquareOf(v: nat) returns (x: nat)
    requires v % 8 == 1 && v < TWO32
    ensures x < TWO32 && (x * x) % TWO32 == v
  {
    var c: int;
    x, c := RootExists(v, 30);
    Rounding.Pow2Values();
    assert Pow2(32) == 2 * Pow2(31) && Pow2(31) == 2 * Pow2(30);
    Remainder(x * x, v, c);
  }

  lemma Remainder(y: nat, v: nat, c: int)
    requires v < TWO32 && y == v + c * TWO32
    ensures y % TWO32 == v
  {
  }

  lemma EightMore(x: int, y: int, z: int)
    requires y % 8 == 0 && x == y + 8 * z
    ensures x % 8 == 0
  {
  }

  lemma Split(k: nat, p: nat, b: nat, r: nat)
    requires p == 8 * b + r
    ensures k * p == k * r + 8 * (k * b)
  {
    assert k * p == k * (8 * b + r);
  }

  lemma Eighths(d: nat) returns (a: nat, e: nat)
    ensures d == 8 * a + e && e < 8 && e == d % 8
  {
    a, e := d / 8, d % 8;
  }

  // An odd p turns every residue into a multiple of 8.
  lemma Eighth(d: nat, p: nat) returns (k: nat)
    requires p % 2 == 1
    ensures k <= 7 && (d + k * p) % 8 == 0
  {
    var a, e := Eighths(d);
    var b, r := Eighths(p);
    assert r % 2 == 1;
    k := EighthDigit(e, r);
    Split(k, p, b, r);
    EightMore(d + k * p, e + k * r, a + k * b);
  }

  lemma EighthDigit(e: nat, r: nat) returns (k: nat)
    requires e < 8 && r < 8 && r % 2 == 1
    ensures k <= 7 && (e + k * r) % 8 == 0
  {
    if r == 1 {
      k := (7 * e) % 8;
    } else if r == 3 {
      k := (5 * e) % 8;
      assert k * r == k * 3;
    } else if r == 5 {
      k := (3 * e) % 8;
      assert k * r == k * 5;
    } else {
      k := e;
      assert r == 7 && k * r == k * 7;
    }
  }

  // Below p every residue is met by h + 8u + 1 for some u < p.
  lemma Stride(h: nat, p: nat, s: nat) returns (u: nat)
    requires p % 2 == 1 && h < p && s < p
    ensures u < p && (h + (8 * u + 1)) % p == s
  {
    var d := (s + 2 * p - h - 1) % p;
    var k := Eighth(d, p);
    assert k * p <= 7 * p;
    u := (d + k * p) / 8;
    var q := (s + 2 * p - h - 1) / p;
    assert h + (8 * u + 1) == s + (2 - q + k) * p by {
      assert s + 2 * p - h - 1 == q * p + d;
    }
    Residue(h + (8 * u + 1), s, p, 2 - q + k);
  }

  lemma Residue(y: int, s: int, p: int, c: int)
    requires p > 0 && 0 <= s < p && y == s + c * p
    ensures y % p == s
  {
    var q, r := y / p, y % p;
    assert y == q * p + r;
    assert (q - c) * p == s - r;
    NoMultiple(q - c, p, s - r);
  }

  lemma NoMultiple(m: int, p: int, x: int)
    requires p > 0 && m * p == x && -p < x < p
    ensures x == 0
  {
    assert m >= 1 ==> m * p >= p;
    assert m <= -1 ==> m * p <= -p;
  }
}
