// kernel/kernel/math.c on 32-bit words: rounding a frame count up to a power of two and taking its
// exponent. Bitwise operators are defined bit by bit.

module Rounding {
  import opened Basics
  import opened Powers

  function And(a: nat, b: nat): nat {
    if a == 0 || b == 0 then 0 else 2 * And(a / 2, b / 2) + (if a % 2 == 1 && b % 2 == 1 then 1 else 0)
  }

  function Or(a: nat, b: nat): nat {
    if a == 0 then b else if b == 0 then a else
      2 * Or(a / 2, b / 2) + (if a % 2 == 1 || b % 2 == 1 then 1 else 0)
  }

  function ShiftRight(n: nat, s: nat): nat {
    if s == 0 then n else ShiftRight(n / 2, s - 1)
  }

  // is_power_of_2; n - 1 wraps for n == 0, where the second operand already decides.
  predicate IsPowerOf2(n: nat) {
    n != 0 && And(n - 1, n) == 0
  }

  ghost predicate LowBitsSet(n: nat, from: nat, to: nat) {
    forall k :: from <= k < to ==> Bit(n, k)
  }

  // ---- facts about the bit operators ----

  lemma {:induction false} OrBit(a: nat, b: nat, k: nat)
    ensures Bit(Or(a, b), k) == (Bit(a, k) || Bit(b, k))
  {
    ZeroBit(k);
    if a == 0 || b == 0 || k == 0 {
    } else {
      OrBit(a / 2, b / 2, k - 1);
      assert Or(a, b) / 2 == Or(a / 2, b / 2);
    }
  }

  lemma {:induction false} ZeroBit(k: nat)
    ensures !Bit(0, k)
  {
    if k == 0 {
    } else {
      ZeroBit(k - 1);
    }
  }

  lemma {:induction false} ShiftBit(n: nat, s: nat, k: nat)
    ensures Bit(ShiftRight(n, s), k) == Bit(n, k + s)
  {
    if s == 0 {
    } else {
      ShiftBit(n / 2, s - 1, k);
    }
  }

  lemma {:induction false} AndSelf(n: nat)
    ensures And(n, n) == n
  {
    if n == 0 {
    } else {
      AndSelf(n / 2);
    }
  }

  // The position of the leading bit.
  function Log2(n: nat): (k: nat)
    requires n > 0
    ensures Pow2(k) <= n < Pow2(k + 1)
    ensures Bit(n, k)
  {
    if n == 1 then 0 else 1 + Log2(n / 2)
  }

  lemma {:induction false} OrBelow(a: nat, b: nat, top: nat)
    requires a < Pow2(top) && b < Pow2(top)
    ensures Or(a, b) < Pow2(top)
  {
    if a == 0 || b == 0 || top == 0 {
    } else {
      OrBelow(a / 2, b / 2, top - 1);
    }
  }

  lemma {:induction false} ShiftBelow(n: nat, s: nat)
    ensures ShiftRight(n, s) <= n
  {
    if s == 0 {
    } else {
      ShiftBelow(n / 2, s - 1);
    }
  }

  // A word whose bits below `top` are all set, and no others, is 2^top - 1.
  lemma {:induction false} AllOnes(n: nat, top: nat)
    requires n < Pow2(top) && LowBitsSet(n, 0, top)
    ensures n == Pow2(top) - 1
  {
    if top == 0 {
    } else {
      forall k | 0 <= k < top - 1 ensures Bit(n / 2, k) {
        assert Bit(n, k + 1);
      }
      AllOnes(n / 2, top - 1);
      assert Bit(n, 0);
    }
  }

  // One smearing step doubles the run of set bits under the leading one.
  lemma SmearStep(n: nat, top: nat, s: nat)
    requires n < Pow2(top + 1) && s > 0
    requires forall k :: 0 <= k <= top && top < k + s ==> Bit(n, k)
    ensures var r := Or(n, ShiftRight(n, s));
      && r < Pow2(top + 1)
      && forall k :: 0 <= k <= top && top < k + 2 * s ==> Bit(r, k)
  {
    ShiftBelow(n, s);
    OrBelow(n, ShiftRight(n, s), top + 1);
    forall k | 0 <= k <= top && top < k + 2 * s ensures Bit(Or(n, ShiftRight(n, s)), k) {
      OrBit(n, ShiftRight(n, s), k);
      ShiftBit(n, s, k);
      if k + s <= top {
        assert Bit(n, k + s);
      }
    }
  }

  lemma {:induction false} PowerShape(n: nat)
    requires n > 0
    ensures IsPowerOf2(n) <==> n == Pow2(Log2(n))
  {
    if n <= 1 {
    } else {
      PowerShape(n / 2);
      if n % 2 == 0 {
        assert (n - 1) / 2 == n / 2 - 1;
      } else {
        assert (n - 1) / 2 == n / 2;
        AndSelf(n / 2);
      }
    }
  }

  lemma Pow2Values()
    ensures Pow2(10) == 1024 && Pow2(20) == 0x10_0000 && Pow2(31) == 0x8000_0000 && Pow2(32) == TWO32
  {
  }

  // The exponent of the least power of two that is not below n; a request for no frame counts as one.
  ghost predicate LeastLevel(n: nat, l: nat) {
    n <= Pow2(l) && (l == 0 || Pow2(l - 1) < n)
  }

  lemma LeadingBitFits(n: nat)
    requires 0 < n < TWO32
    ensures Log2(n) <= 31
  {
    Pow2Values();
    if Log2(n) > 31 {
      Pow2Monotone(32, Log2(n));
      assert false;
    }
  }

  method NextPowerOf2(input: nat) returns (n: nat)
    requires input < TWO32
    ensures input > Pow2(31) ==> n == 0
    ensures input <= Pow2(31) ==> exists l: nat :: l <= 31 && n == Pow2(l) && LeastLevel(input, l)
  {
    n := input;
    if IsPowerOf2(n) {
      PowerKept(n);
      return n;
    }
    n := Or(n, ShiftRight(n, 1));
    n := Or(n, ShiftRight(n, 2));
    n := Or(n, ShiftRight(n, 4));
    n := Or(n, ShiftRight(n, 8));
    n := Or(n, ShiftRight(n, 16));
    assert n == SmearAll(input);
    n := (n + 1) % TWO32;
    SmearRoundsUp(input);
  }

  ghost function Smear(n: nat, s: nat): nat {
    Or(n, ShiftRight(n, s))
  }

  ghost function SmearAll(n: nat): nat {
    Smear(Smear(Smear(Smear(Smear(n, 1), 2), 4), 8), 16)
  }

  lemma PowerKept(n: nat)
    requires n < TWO32 && IsPowerOf2(n)
    ensures n == Pow2(Log2(n)) && Log2(n) <= 31 && n <= Pow2(31) && LeastLevel(n, Log2(n))
  {
    PowerShape(n);
    LeadingBitFits(n);
    Pow2Monotone(Log2(n), 31);
  }

  lemma SmearRoundsUp(n: nat)
    requires n < TWO32 && !IsPowerOf2(n)
    ensures var r := (SmearAll(n) + 1) % TWO32;
      && (n > Pow2(31) ==> r == 0)
      && (n <= Pow2(31) ==> exists l: nat :: l <= 31 && r == Pow2(l) && LeastLevel(n, l))
  {
    if n == 0 {
      assert SmearAll(0) == 0 by { SmearZero(); }
      assert LeastLevel(0, 0);
      Pow2Monotone(0, 31);
    } else {
      var top := Log2(n);
      SmearPositive(n, top);
      Pow2AtMost(top);
    }
  }

  lemma Pow2AtMost(top: nat)
    requires top <= 31
    ensures top == 31 ==> Pow2(top + 1) % TWO32 == 0
    ensures top < 31 ==> Pow2(top + 1) % TWO32 == Pow2(top + 1)
  {
    Pow2Values();
    if top < 31 { Pow2Monotone(top + 1, 31); }
  }

  lemma SmearPositive(n: nat, top: nat)
    requires 0 < n < TWO32 && !IsPowerOf2(n) && top == Log2(n)
    ensures SmearAll(n) + 1 == Pow2(top + 1) && top <= 31
    ensures if top == 31 then n > Pow2(31) else Pow2(top + 1) <= Pow2(31) && LeastLevel(n, top + 1)
  {
    PowerShape(n);
    LeadingBitFits(n);
    Smeared(n, top);
    if top < 31 {
      Pow2Monotone(top + 1, 31);
    }
  }

  lemma SmearZero()
    ensures forall s: nat :: Smear(0, s) == 0
  {
    forall s: nat ensures Smear(0, s) == 0 {
      ShiftBelow(0, s);
    }
  }

  // The word has no bit above `top`, and the s bits from there down are set.
  ghost predicate FilledFrom(n: nat, top: nat, s: nat) {
    n < Pow2(top + 1) && forall k :: 0 <= k <= top && top < k + s ==> Bit(n, k)
  }

  lemma Doubled(n: nat, top: nat, s: nat, t: nat) returns (r: nat)
    requires FilledFrom(n, top, s) && s > 0 && t == 2 * s
    ensures r == Smear(n, s) && FilledFrom(r, top, t)
  {
    SmearStep(n, top, s);
    r := Smear(n, s);
  }

  // The five smearing steps fill every bit below the leading one.
  lemma Smeared(n: nat, top: nat)
    requires n < Pow2(top + 1) && top <= 31 && Bit(n, top)
    ensures SmearAll(n) == Pow2(top + 1) - 1
  {
    var n1 := Doubled(n, top, 1, 2);
    var n2 := Doubled(n1, top, 2, 4);
    var n4 := Doubled(n2, top, 4, 8);
    var n8 := Doubled(n4, top, 8, 16);
    var n16 := Doubled(n8, top, 16, 32);
    AllOnes(n16, top + 1);
  }

  function TrailingZeros(n: nat): nat
    requires n > 0
  {
    if n % 2 == 0 then 1 + TrailingZeros(n / 2) else 0
  }

  // power_of_2; on zero the loop would never end.
  method PowerOf2(input: nat) returns (i: nat)
    requires input != 0
    ensures i == TrailingZeros(input)
  {
    var n := input;
    i := 0;
    while n % 2 == 0
      invariant n > 0 && i + TrailingZeros(n) == TrailingZeros(input)
      decreases n
    {
      n := n / 2;
      i := i + 1;
    }
  }

  lemma {:induction false} ExponentOfPower(l: nat)
    ensures TrailingZeros(Pow2(l)) == l
  {
    if l == 0 {
    } else {
      ExponentOfPower(l - 1);
      assert Pow2(l) / 2 == Pow2(l - 1);
    }
  }

  lemma {:induction false} LeastLevelUnique(n: nat, l: nat, m: nat)
    requires LeastLevel(n, l) && LeastLevel(n, m)
    ensures l == m
  {
    if l < m {
      Pow2Monotone(l, m - 1);
    } else if m < l {
      Pow2Monotone(m, l - 1);
    }
  }

  // The level frame_alloc asks for (kernel/kernel/pmm.c:164-165).
  method LevelFor(count: nat) returns (level: nat)
    requires count <= Pow2(31)
    ensures LeastLevel(count, level)
  {
    Pow2Values();
    var p := NextPowerOf2(count);
    level := PowerOf2(p);
    ghost var l: nat :| l <= 31 && p == Pow2(l) && LeastLevel(count, l);
    ExponentOfPower(l);
  }
}
