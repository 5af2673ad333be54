// The number theory behind quadratic probing: modulo an odd prime the squares of 0 .. (p - 1) / 2 differ.

module Primes {

  ghost predicate IsPrime(p: nat) {
    p >= 2 && forall d :: 2 <= d < p ==> p % d != 0
  }

  predicate Divides(p: nat, d: nat)
    requires d > 0
  {
    d < p && p % d == 0
  }

  // Trial division, five and then thirty divisors at a time.
  predicate NoneOfFive(p: nat, d: nat)
    requires d > 0
  {
    !Divides(p, d) && !Divides(p, d + 1) && !Divides(p, d + 2) && !Divides(p, d + 3) && !Divides(p, d + 4)
  }

  predicate NoneOfThirty(p: nat, d: nat)
    requires d > 0
  {
    && NoneOfFive(p, d) && NoneOfFive(p, d + 5) && NoneOfFive(p, d + 10)
    && NoneOfFive(p, d + 15) && NoneOfFive(p, d + 20) && NoneOfFive(p, d + 25)
  }

  predicate NoDivisorFrom(p: nat, d: nat)
    requires d > 0
    decreases p + 1 - d
  {
    d > p || d * d > p || (NoneOfThirty(p, d) && NoDivisorFrom(p, d + 30))
  }

  lemma {:induction false} NoDivisorAt(p: nat, d: nat, e: nat)
    requires d > 0 && NoDivisorFrom(p, d) && d <= e < p && e * e <= p
    ensures p % e != 0
    decreases p + 1 - d
  {
    Square(d, e);
    if e >= d + 30 {
      NoDivisorAt(p, d + 30, e);
    } else {
      AmongThirty(p, d, e);
    }
  }

  lemma AmongFive(p: nat, d: nat, e: nat)
    requires d > 0 && NoneOfFive(p, d) && d <= e < d + 5
    ensures !Divides(p, e)
  {
  }

  lemma AmongThirty(p: nat, d: nat, e: nat)
    requires d > 0 && NoneOfThirty(p, d) && d <= e < d + 30
    ensures !Divides(p, e)
  {
    if e < d + 5 {
      AmongFive(p, d, e);
    } else if e < d + 10 {
      AmongFive(p, d + 5, e);
    } else if e < d + 15 {
      AmongFive(p, d + 10, e);
    } else if e < d + 20 {
      AmongFive(p, d + 15, e);
    } else if e < d + 25 {
      AmongFive(p, d + 20, e);
    } else {
      AmongFive(p, d + 25, e);
    }
  }

  lemma Square(a: nat, b: nat)
    requires a <= b
    ensures a * a <= b * b
  {
  }

  // A composite number has a divisor up to its square root.
  lemma TrialDivision(p: nat)
    requires p >= 2 && NoDivisorFrom(p, 2)
    ensures IsPrime(p)
  {
    forall d | 2 <= d < p ensures p % d != 0 {
      if p % d == 0 { DivisorFound(p, d); }
    }
  }

  lemma DivisorFound(p: nat, d: nat)
    requires 2 <= d < p && p % d == 0
    ensures !NoDivisorFrom(p, 2)
  {
    var e := p / d;
    assert p == d * e;
    Cofactor(p, d, e);
    if d <= e { SmallFactor(p, d, e); } else { SmallFactor(p, e, d); }
  }

  lemma SmallFactor(p: nat, d: nat, e: nat)
    requires p == d * e && 2 <= d <= e < p && p % d == 0
    ensures !NoDivisorFrom(p, 2)
  {
    Product(d, d, e);
    if NoDivisorFrom(p, 2) { NoDivisorAt(p, 2, d); }
  }

  lemma Product(a: nat, b: nat, c: nat)
    requires b <= c
    ensures a * b <= a * c && a * b <= c * a
  {
  }

  lemma Cofactor(p: nat, d: nat, e: nat)
    requires p == d * e && 2 <= d < p
    ensures 2 <= e < p && p % e == 0
  {
    assert e <= 1 ==> d * e <= d;
    assert e * d >= e * 2;
    MultipleMod(d, e);
  }

  lemma MultipleMod(k: int, d: nat)
    requires d > 0
    ensures (k * d) % d == 0
  {
    var q, r := (k * d) / d, (k * d) % d;
    assert k * d == q * d + r;
    assert (k - q) * d == k * d - q * d;
    SmallMultiple(k - q, d, r);
  }

  lemma SmallMultiple(m: int, d: nat, r: nat)
    requires m * d == r && r < d
    ensures r == 0
  {
  }

  // A prime that divides a product of a smaller positive number and b divides b.
  lemma {:induction false} Euclid(p: nat, a: nat, b: nat, k: int)
    requires IsPrime(p) && 0 < a < p && a * b == k * p
    ensures b % p == 0
    decreases a
  {
    if a == 1 {
      MultipleMod(k, p);
    } else {
      var q, r := p / a, p % a;
      assert p == q * a + r && 0 < r < a;
      RemainderProduct(p, a, b, q, r, k);
      Euclid(p, r, b, b - q * k);
    }
  }

  lemma RemainderProduct(p: nat, a: nat, b: nat, q: nat, r: nat, k: int)
    requires p == q * a + r && a * b == k * p
    ensures r * b == (b - q * k) * p
  {
  }

  lemma SquareDifference(p: nat, h: nat, i: nat, j: nat) returns (k: int)
    requires p > 0 && i < j && (h + i * i) % p == (h + j * j) % p
    ensures (j - i) * (j + i) == k * p
  {
    var a, b := (h + i * i) / p, (h + j * j) / p;
    k := b - a;
    assert h + j * j - (h + i * i) == k * p;
    assert (j - i) * (j + i) == j * j - i * i;
  }

  // Equal residues of h + i^2 and h + j^2 with i < j would make p divide (j - i)(j + i).
  lemma SquaresDiffer(p: nat, h: nat, i: nat, j: nat)
    requires IsPrime(p) && i < j && 2 * j <= p - 1
    ensures (h + i * i) % p != (h + j * j) % p
  {
    if (h + i * i) % p == (h + j * j) % p {
      var k := SquareDifference(p, h, i, j);
      Euclid(p, j - i, j + i, k);
      SmallModulus(j + i, p);
    }
  }

  lemma SmallModulus(x: nat, p: nat)
    requires x < p
    ensures x % p == x
  {
  }
}
