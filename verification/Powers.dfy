// Bit-level arithmetic of the frame allocator: powers of two, block alignment, and the buddy index
// `i ^ (1 << l)`. Every definition recurses over the bits, so that every proof stays linear.

module Powers {

  function Pow2(l: nat): (p: nat)
    ensures p > 0
  {
    if l == 0 then 1 else 2 * Pow2(l - 1)
  }

  function Bit(n: nat, k: nat): bool {
    if k == 0 then n % 2 == 1 else Bit(n / 2, k - 1)
  }

  // i is a multiple of 2^l: its l low bits are clear.
  predicate Aligned(i: nat, l: nat) {
    l == 0 || (i % 2 == 0 && Aligned(i / 2, l - 1))
  }

  // i ^ (1 << l): the bit of weight 2^l is flipped.
  function Buddy(i: nat, l: nat): (b: nat)
    ensures b <= i + Pow2(l)
  {
    if l == 0 then (if i % 2 == 0 then i + 1 else i - 1) else 2 * Buddy(i / 2, l - 1) + i % 2
  }

  lemma {:induction false} BuddyFlipsOneBit(i: nat, l: nat, k: nat)
    ensures Bit(Buddy(i, l), k) == (Bit(i, k) != (k == l))
  {
    if l == 0 || k == 0 {
    } else {
      BuddyFlipsOneBit(i / 2, l - 1, k - 1);
    }
  }

  lemma {:induction false} BuddyDiffers(i: nat, l: nat)
    ensures Buddy(i, l) != i
  {
    if l == 0 {
    } else {
      BuddyDiffers(i / 2, l - 1);
    }
  }

  lemma {:induction false} BuddyInvolution(i: nat, l: nat)
    ensures Buddy(Buddy(i, l), l) == i
  {
    if l == 0 {
    } else {
      BuddyInvolution(i / 2, l - 1);
      var b := Buddy(i, l);
      assert b == 2 * Buddy(i / 2, l - 1) + i % 2;
      assert b / 2 == Buddy(i / 2, l - 1) && b % 2 == i % 2;
    }
  }

  // An aligned block of level l + 1 is a left half and its buddy.
  lemma {:induction false} AlignedSplit(i: nat, l: nat)
    requires Aligned(i, l + 1)
    ensures Aligned(i, l) && Aligned(i + Pow2(l), l) && Buddy(i, l) == i + Pow2(l)
  {
    if l == 0 {
    } else {
      AlignedSplit(i / 2, l - 1);
      assert (i + Pow2(l)) / 2 == i / 2 + Pow2(l - 1);
    }
  }

  // Two buddies lie side by side and together make an aligned block of the next level.
  lemma {:induction false} AlignedMerge(i: nat, l: nat)
    requires Aligned(i, l)
    ensures Aligned(Buddy(i, l), l)
    ensures
      || (Buddy(i, l) == i + Pow2(l) && Aligned(i, l + 1))
      || (i == Buddy(i, l) + Pow2(l) && Aligned(Buddy(i, l), l + 1))
  {
    if l == 0 {
    } else {
      AlignedMerge(i / 2, l - 1);
      assert Buddy(i, l) / 2 == Buddy(i / 2, l - 1);
    }
  }

  lemma {:induction false} AlignedLower(i: nat, l: nat, m: nat)
    requires l <= m && Aligned(i, m)
    ensures Aligned(i, l)
    decreases m - l
  {
    if l >= m {
    } else {
      AlignedSplit(i, m - 1);
      AlignedLower(i, l, m - 1);
    }
  }

  lemma {:induction false} AlignedPow2(l: nat, m: nat)
    requires l <= m
    ensures Aligned(Pow2(m), l)
  {
    if l == 0 {
    } else {
      AlignedPow2(l - 1, m - 1);
    }
  }

  lemma {:induction false} AlignedApart(x: nat, y: nat, l: nat)
    requires Aligned(x, l) && Aligned(y, l)
    ensures Aligned(x + y, l)
    ensures x < y ==> x + Pow2(l) <= y
  {
    if l == 0 {
    } else {
      AlignedApart(x / 2, y / 2, l - 1);
      assert (x + y) / 2 == x / 2 + y / 2;
    }
  }

  // Aligned blocks that share a frame are nested.
  lemma Nested(i: nat, l: nat, j: nat, m: nat, f: nat)
    requires l <= m && Aligned(i, l) && Aligned(j, m)
    requires i <= f < i + Pow2(l) && j <= f < j + Pow2(m)
    ensures j <= i && i + Pow2(l) <= j + Pow2(m)
  {
    AlignedLower(j, l, m);
    AlignedPow2(l, m);
    AlignedApart(j, Pow2(m), l);
    AlignedApart(i, j, l);
    AlignedApart(i, j + Pow2(m), l);
  }

  // In a table whose size is a multiple of the largest block, every buddy is in range.
  lemma BuddyInRange(i: nat, l: nat, n: nat)
    requires Aligned(i, l) && l < 10 && i < n && Aligned(n, 10)
    ensures Buddy(i, l) < n
  {
    AlignedMerge(i, l);
    AlignedLower(n, l + 1, 10);
    if Buddy(i, l) == i + Pow2(l) && Aligned(i, l + 1) {
      AlignedApart(i, n, l + 1);
    }
  }

  lemma {:induction false} Pow2Monotone(l: nat, m: nat)
    requires l <= m
    ensures Pow2(l) <= Pow2(m)
    ensures l < m ==> 2 * Pow2(l) <= Pow2(m)
  {
    if l >= m {
    } else {
      Pow2Monotone(l, m - 1);
    }
  }
}
