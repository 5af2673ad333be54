// The frame table seen from above: a cell per frame, where a block head carries the level of its block
// and whether the block is free. This module holds what is true of tilings whatever the free lists say.

module Tiling {
  import opened Powers

  const TOP: nat := 10  // BUDDY_MAXLEVEL - 1

  datatype Cell = Interior | Block(level: nat, free: bool)

  predicate Covers(c: seq<Cell>, h: nat, f: nat) {
    h < |c| && c[h].Block? && h <= f < h + Pow2(c[h].level)
  }

  ghost predicate Covered(c: seq<Cell>, f: nat) {
    exists h: nat :: Covers(c, h, f)
  }

  predicate IsFree(c: seq<Cell>, h: nat, l: nat) {
    h < |c| && c[h] == Block(l, true)
  }

  predicate HandedOut(c: seq<Cell>, h: nat, l: nat) {
    h < |c| && c[h] == Block(l, false)
  }

  ghost predicate Placed(c: seq<Cell>, h: nat)
    requires h < |c| && c[h].Block?
  {
    c[h].level <= TOP && Aligned(h, c[h].level) && h + Pow2(c[h].level) <= |c|
  }

  // Aligned blocks within the table that cover every frame exactly once.
  ghost predicate Tiled(c: seq<Cell>) {
    && (forall h :: 0 <= h < |c| && c[h].Block? ==> Placed(c, h))
    && (forall f: nat :: f < |c| ==> Covered(c, f))
    && (forall f: nat, g: nat, h: nat :: Covers(c, g, f) && Covers(c, h, f) ==> g == h)
  }

  // No two buddies of a level below the top are both free.
  ghost predicate Coalesced(c: seq<Cell>) {
    forall h: nat, b: nat, l: nat :: l < TOP && IsFree(c, h, l) && IsFree(c, b, l) ==> b != Buddy(h, l)
  }

  ghost predicate AllFree(c: seq<Cell>) {
    forall h :: 0 <= h < |c| && c[h].Block? ==> c[h].free
  }

  ghost predicate FrameFree(c: seq<Cell>, f: nat) {
    exists h: nat :: Covers(c, h, f) && c[h].free
  }

  ghost predicate FreeRun(c: seq<Cell>, i: nat, l: nat) {
    i + Pow2(l) <= |c| && forall f :: i <= f < i + Pow2(l) ==> FrameFree(c, f)
  }

  ghost function FreeFrames(c: seq<Cell>): set<nat> {
    set f: nat | f < |c| && FrameFree(c, f)
  }

  predicate InSpan(i: nat, l: nat, f: nat) {
    i <= f < i + Pow2(l)
  }

  // The frames of an aligned block.
  ghost function Span(i: nat, l: nat): set<nat> {
    set f: nat | f < i + Pow2(l) && InSpan(i, l, f)
  }

  // The blocks handed out: head frame to level.
  function Live(c: seq<Cell>): map<nat, nat> {
    map i: nat | i < |c| && c[i].Block? && !c[i].free :: c[i].level
  }

  ghost function Owner(c: seq<Cell>, f: nat): (h: nat)
    requires Tiled(c) && f < |c|
    ensures Covers(c, h, f)
  {
    assert Covered(c, f);
    var h: nat :| Covers(c, h, f);
    h
  }

  // ---- steps ----

  function Mark(c: seq<Cell>, i: nat, free: bool): seq<Cell>
    requires i < |c| && c[i].Block?
  {
    c[i := Block(c[i].level, free)]
  }

  function Split(c: seq<Cell>, i: nat, l: nat): seq<Cell>
    requires i + Pow2(l) < |c| && c[i].Block?
  {
    c[i + Pow2(l) := Block(l, true)][i := Block(l, c[i].free)]
  }

  function Merge(c: seq<Cell>, i: nat, l: nat): seq<Cell>
    requires i + Pow2(l) < |c| && c[i].Block?
  {
    c[i + Pow2(l) := Interior][i := Block(l + 1, false)]
  }

  lemma SameCoverTiled(c: seq<Cell>, d: seq<Cell>)
    requires Tiled(c) && |c| == |d|
    requires forall h :: 0 <= h < |c| ==> c[h].Block? == d[h].Block?
    requires forall h :: 0 <= h < |c| && c[h].Block? ==> c[h].level == d[h].level
    ensures Tiled(d)
  {
    forall f: nat | f < |d| ensures Covered(d, f) {
      assert Covers(d, Owner(c, f), f);
    }
    forall f: nat, g: nat, h: nat | Covers(d, g, f) && Covers(d, h, f) ensures g == h {
      assert Covers(c, g, f) && Covers(c, h, f);
    }
  }

  lemma SplitTiled(c: seq<Cell>, i: nat, l: nat)
    requires Tiled(c) && i < |c| && c[i].Block? && c[i].level == l + 1
    ensures i + Pow2(l) < |c| && Tiled(Split(c, i, l))
  {
    assert Placed(c, i);
    AlignedSplit(i, l);
    var r, d := i + Pow2(l), Split(c, i, l);
    InteriorHalf(c, i, r);
    SplitCovers(c, i, l, r, d);
    SplitPlaced(c, i, l, r, d);
  }

  lemma InteriorHalf(c: seq<Cell>, i: nat, r: nat)
    requires Tiled(c) && i < r < |c| && Covers(c, i, r)
    ensures !c[r].Block?
  {
    if c[r].Block? { assert Placed(c, r) && Covers(c, r, r); }
  }

  lemma SplitCovers(c: seq<Cell>, i: nat, l: nat, r: nat, d: seq<Cell>)
    requires Tiled(c) && i < |c| && c[i].Block? && c[i].level == l + 1 && r == i + Pow2(l) < |c|
    requires !c[r].Block? && d == Split(c, i, l)
    ensures forall f: nat :: f < |d| ==> Covered(d, f)
    ensures forall f: nat, g: nat, h: nat :: Covers(d, g, f) && Covers(d, h, f) ==> g == h
  {
    forall f: nat | f < |d| ensures Covered(d, f) {
      var h := Owner(c, f);
      assert Covers(d, if h != i then h else if f < r then i else r, f);
    }
    forall f: nat, g: nat, h: nat | Covers(d, g, f) && Covers(d, h, f) ensures g == h {
      assert Covers(c, if g == r then i else g, f);
      assert Covers(c, if h == r then i else h, f);
    }
  }

  lemma SplitPlaced(c: seq<Cell>, i: nat, l: nat, r: nat, d: seq<Cell>)
    requires Tiled(c) && i < |c| && c[i].Block? && c[i].level == l + 1 && r == i + Pow2(l) < |c|
    requires Aligned(i, l) && Aligned(r, l) && d == Split(c, i, l)
    ensures forall h :: 0 <= h < |d| && d[h].Block? ==> Placed(d, h)
  {
  }

  lemma MergeTiled(c: seq<Cell>, i: nat, l: nat)
    requires Tiled(c) && l < TOP && Aligned(i, l + 1) && i + Pow2(l) < |c|
    requires c[i].Block? && c[i].level == l && c[i + Pow2(l)].Block? && c[i + Pow2(l)].level == l
    ensures Tiled(Merge(c, i, l))
  {
    var r := i + Pow2(l);
    var d := Merge(c, i, l);
    assert Placed(c, i) && Placed(c, r);
    forall f: nat | f < |d| ensures Covered(d, f) {
      var h := Owner(c, f);
      assert Covers(d, if h == r then i else h, f);
    }
    forall f: nat, g: nat, h: nat | Covers(d, g, f) && Covers(d, h, f) ensures g == h {
      assert Covers(c, if g == i && f >= r then r else g, f);
      assert Covers(c, if h == i && f >= r then r else h, f);
    }
    forall h | 0 <= h < |d| && d[h].Block? ensures Placed(d, h) {
      if h != i { assert Placed(c, h); }
    }
  }

  lemma FewerFree(c: seq<Cell>, d: seq<Cell>)
    requires Coalesced(c)
    requires forall h: nat, l: nat :: IsFree(d, h, l) ==> IsFree(c, h, l)
    ensures Coalesced(d)
  {
  }

  // One more free block keeps the table coalesced exactly because its buddy is not free.
  lemma OneMoreFree(c: seq<Cell>, d: seq<Cell>, r: nat, m: nat)
    requires Coalesced(c)
    requires forall h: nat, l: nat :: IsFree(d, h, l) ==> IsFree(c, h, l) || (h == r && l == m)
    requires m < TOP ==> !IsFree(d, Buddy(r, m), m)
    ensures Coalesced(d)
  {
    forall h: nat, b: nat, l: nat | l < TOP && IsFree(d, h, l) && IsFree(d, b, l) ensures b != Buddy(h, l) {
      BuddyInvolution(h, l);
    }
  }

  lemma SplitFree(c: seq<Cell>, i: nat, l: nat)
    requires i + Pow2(l) < |c| && c[i].Block? && !c[i].free && c[i + Pow2(l)] == Interior
    ensures forall x: nat, m: nat :: IsFree(Split(c, i, l), x, m) <==> IsFree(c, x, m) || (x == i + Pow2(l) && m == l)
  {
  }

  lemma MergeFree(c: seq<Cell>, i: nat, l: nat, b: nat)
    requires i + Pow2(l) < |c| && c[i].Block? && c[i + Pow2(l)].Block?
    requires (b == i && !c[i + Pow2(l)].free) || (b == i + Pow2(l) && !c[i].free)
    requires c[b] == Block(l, true)
    ensures forall x: nat, m: nat :: IsFree(Merge(c, i, l), x, m) <==> IsFree(c, x, m) && x != b
  {
  }

  function Lower(i: nat, b: nat): nat { if i > b then b else i }
  function Upper(i: nat, b: nat): nat { if i > b then i else b }

  lemma SpanGrows(p: nat, b: nat, i: nat, l: nat)
    requires i == Lower(p, b) && i + Pow2(l) == Upper(p, b)
    ensures InSpan(i, l + 1, p) && InSpan(i, l + 1, b)
    ensures forall f: nat :: InSpan(p, l, f) ==> InSpan(i, l + 1, f)
  {
  }

  // A live block absorbs its free buddy.
  lemma MergeCells(c: seq<Cell>, p: nat, l: nat, b: nat, i: nat)
    requires Tiled(c) && Coalesced(c) && p < |c| && l < TOP && c[p] == Block(l, false)
    requires b == Buddy(p, l) && IsFree(c, b, l) && i == Lower(p, b)
    ensures i + Pow2(l) == Upper(p, b) < |c| && Aligned(i, l + 1)
    ensures Tiled(Merge(c, i, l)) && Coalesced(Merge(c, i, l))
    ensures forall x: nat, m: nat :: IsFree(Merge(c, i, l), x, m) <==> IsFree(c, x, m) && x != b
  {
    assert Placed(c, p);
    AlignedMerge(p, l);
    MergeFree(c, i, l, b);
    FewerFree(c, Merge(c, i, l));
    MergeTiled(c, i, l);
  }

  lemma SplitCoalesced(c: seq<Cell>, i: nat, l: nat)
    requires Coalesced(c) && i + Pow2(l) < |c| && c[i].Block? && !c[i].free && Buddy(i, l) == i + Pow2(l)
    ensures Coalesced(Split(c, i, l))
  {
    BuddyInvolution(i, l);
    OneMoreFree(c, Split(c, i, l), i + Pow2(l), l);
  }

  lemma MarkCoalesced(c: seq<Cell>, p: nat, l: nat)
    requires Coalesced(c) && p < |c| && c[p] == Block(l, false)
    requires l < TOP ==> !IsFree(c, Buddy(p, l), l)
    ensures Coalesced(Mark(c, p, true))
    ensures forall x: nat, m: nat :: IsFree(Mark(c, p, true), x, m) <==> IsFree(c, x, m) || (x == p && m == l)
  {
    BuddyDiffers(p, l);
    OneMoreFree(c, Mark(c, p, true), p, l);
  }

  // ---- what the steps do to the free frames and to the blocks handed out ----

  lemma MarkLiveFrames(c: seq<Cell>, i: nat)
    requires Tiled(c) && i < |c| && c[i].Block? && c[i].free
    ensures Span(i, c[i].level) <= FreeFrames(c)
    ensures FreeFrames(Mark(c, i, false)) == FreeFrames(c) - Span(i, c[i].level)
    ensures Live(Mark(c, i, false)) == Live(c)[i := c[i].level]
  {
    var d := Mark(c, i, false);
    assert Placed(c, i);
    forall f: nat | f < |c| ensures f in FreeFrames(d) <==> f in FreeFrames(c) && !InSpan(i, c[i].level, f) {
      var h := Owner(c, f);
      assert Covers(d, h, f);
      assert FrameFree(c, f) == c[h].free;
      assert forall g: nat :: Covers(d, g, f) ==> Covers(c, g, f);
      assert FrameFree(d, f) == d[h].free;
      assert InSpan(i, c[i].level, f) == Covers(c, i, f);
    }
    forall f | f in Span(i, c[i].level) ensures f in FreeFrames(c) {
      assert Covers(c, i, f);
    }
  }

  lemma MarkFreeFrames(c: seq<Cell>, i: nat)
    requires Tiled(c) && i < |c| && c[i].Block? && !c[i].free
    ensures Span(i, c[i].level) !! FreeFrames(c)
    ensures FreeFrames(Mark(c, i, true)) == FreeFrames(c) + Span(i, c[i].level)
    ensures Live(Mark(c, i, true)) == Live(c) - {i}
  {
    var d := Mark(c, i, true);
    SameCoverTiled(c, d);
    MarkLiveFrames(d, i);
    assert Mark(d, i, false) == c;
  }

  // Merging a live block with its free buddy yields a live block; apart from the block in hand nothing
  // live is touched, and the free frames lose exactly the buddy.
  lemma MergeFrames(c: seq<Cell>, i: nat, l: nat, held: nat)
    requires Tiled(c) && l < TOP && Aligned(i, l + 1) && i + Pow2(l) < |c|
    requires c[i].Block? && c[i].level == l && c[i + Pow2(l)].Block? && c[i + Pow2(l)].level == l
    requires (held == i && !c[i].free && c[i + Pow2(l)].free) || (held == i + Pow2(l) && c[i].free && !c[held].free)
    ensures FreeFrames(Merge(c, i, l)) + Span(i, l + 1) == FreeFrames(c) + Span(held, l)
    ensures Live(Merge(c, i, l)) - {i} == Live(c) - {held}
  {
    MergeTiled(c, i, l);
    var d := Merge(c, i, l);
    var x, y := FreeFrames(d) + Span(i, l + 1), FreeFrames(c) + Span(held, l);
    assert Placed(d, i) && Placed(c, held);
    forall f: nat | f < |c| ensures f in x <==> f in y {
      MergeFrame(c, i, l, held, d, f);
    }
    assert forall f :: f in x ==> f < |c|;
    assert forall f :: f in y ==> f < |c|;
  }

  lemma MergeFrame(c: seq<Cell>, i: nat, l: nat, held: nat, d: seq<Cell>, f: nat)
    requires Tiled(c) && i + Pow2(l) < |c| && c[i].Block? && c[i].level == l
    requires c[i + Pow2(l)].Block? && c[i + Pow2(l)].level == l
    requires d == Merge(c, i, l) && Tiled(d) && f < |c|
    requires (held == i && !c[i].free && c[i + Pow2(l)].free) || (held == i + Pow2(l) && c[i].free && !c[held].free)
    ensures FrameFree(d, f) || InSpan(i, l + 1, f) <==> FrameFree(c, f) || InSpan(held, l, f)
  {
    var h := Owner(c, f);
    assert FrameFree(c, f) == c[h].free;
    var g := Owner(d, f);
    assert FrameFree(d, f) == d[g].free;
    assert Covers(c, if g == i && f >= i + Pow2(l) then i + Pow2(l) else g, f);
    assert InSpan(i, l + 1, f) == Covers(d, i, f);
    assert InSpan(held, l, f) == Covers(c, held, f);
  }

  lemma SplitRight(c: seq<Cell>, i: nat, l: nat)
    requires Tiled(c) && i < |c| && c[i].Block? && c[i].level == l + 1
    ensures i + Pow2(l) < |c| && c[i + Pow2(l)] == Interior && l < TOP && Aligned(i, l + 1)
  {
    assert Placed(c, i);
    var r := i + Pow2(l);
    assert Covers(c, i, r) && (c[r].Block? ==> Covers(c, r, r));
  }

  // Splitting a live block frees its right half: the reverse of a merge.
  lemma SplitFrames(c: seq<Cell>, i: nat, l: nat)
    requires Tiled(c) && i < |c| && c[i].Block? && c[i].level == l + 1 && !c[i].free
    ensures i + Pow2(l) < |c|
    ensures FreeFrames(Split(c, i, l)) == FreeFrames(c) + Span(i + Pow2(l), l)
    ensures Live(Split(c, i, l)) == Live(c)[i := l]
  {
    SplitTiled(c, i, l);
    SplitRight(c, i, l);
    var d, r := Split(c, i, l), i + Pow2(l);
    MergeSplit(c, i, l);
    MergeFrames(d, i, l, i);
    MarkFreeFrames(c, i);
    MarkFreeFrames(d, i);
    SpanHalves(i, l);
    Cancel(FreeFrames(d), FreeFrames(c), Span(i, l), Span(r, l));
    assert Live(d) == Live(c)[i := l];
  }

  lemma MergeSplit(c: seq<Cell>, i: nat, l: nat)
    requires i + Pow2(l) < |c| && c[i] == Block(l + 1, false) && c[i + Pow2(l)] == Interior
    ensures Merge(Split(c, i, l), i, l) == c
  {
  }

  lemma Cancel(x: set<nat>, y: set<nat>, a: set<nat>, b: set<nat>)
    requires y + (a + b) == x + a && a !! b && y !! a && x !! a
    ensures x == y + b
  {
  }

  lemma SpanHalves(i: nat, l: nat)
    ensures Span(i, l + 1) == Span(i, l) + Span(i + Pow2(l), l) && Span(i, l) !! Span(i + Pow2(l), l)
  {
    var whole, left, right := Span(i, l + 1), Span(i, l), Span(i + Pow2(l), l);
    forall f | f in whole ensures f in left + right {
      assert InSpan(i, l, f) || InSpan(i + Pow2(l), l, f);
    }
    forall f | f in left + right ensures f in whole {
      assert InSpan(i, l + 1, f);
    }
    forall f | f in left ensures f !in right {
      assert !InSpan(i + Pow2(l), l, f);
    }
  }

  lemma AbsorbFrames(c: seq<Cell>, p: nat, l: nat, b: nat, i: nat)
    requires Tiled(c) && Coalesced(c) && p < |c| && l < TOP && c[p] == Block(l, false)
    requires b == Buddy(p, l) && IsFree(c, b, l) && i == Lower(p, b)
    ensures i + Pow2(l) < |c| && c[i].Block? && HandedOut(Merge(c, i, l), i, l + 1)
    ensures FreeFrames(Merge(c, i, l)) + Span(i, l + 1) == FreeFrames(c) + Span(p, l)
    ensures Live(Merge(c, i, l)) - {i} == Live(c) - {p}
  {
    MergeCells(c, p, l, b, i);
    MergeFrames(c, i, l, p);
  }

  // The same facts with the block in hand counted as free and not as handed out.
  lemma SplitHand(c: seq<Cell>, i: nat, l: nat)
    requires Tiled(c) && HandedOut(c, i, l + 1)
    ensures i + Pow2(l) < |c| && HandedOut(Split(c, i, l), i, l)
    ensures FreeFrames(Split(c, i, l)) + Span(i, l) == FreeFrames(c) + Span(i, l + 1)
    ensures Live(Split(c, i, l)) - {i} == Live(c) - {i}
  {
    SplitFrames(c, i, l);
    SpanHalves(i, l);
  }

  lemma HandOver(c: seq<Cell>, i: nat, l: nat, free: set<nat>, live: map<nat, nat>)
    requires Tiled(c) && HandedOut(c, i, l) && FreeFrames(c) + Span(i, l) == free && Live(c) - {i} == live
    ensures FreeFrames(c) == free - Span(i, l) && Live(c) == live[i := l]
    ensures Span(i, l) <= free && i !in live && Aligned(i, l) && i + Pow2(l) <= |c|
  {
    assert Placed(c, i);
    MarkFreeFrames(c, i);
  }

  // ---- what coalescing buys ----

  // An aligned run that is entirely free, and not inside a larger block, is one block.
  lemma {:induction false} Collapse(c: seq<Cell>, i: nat, l: nat, h: nat)
    requires Tiled(c) && Coalesced(c)
    requires l <= TOP && Aligned(i, l) && FreeRun(c, i, l)
    requires Covers(c, h, i) && c[h].level <= l
    ensures IsFree(c, i, l)
    decreases l
  {
    assert Placed(c, h);
    Nested(h, c[h].level, i, l, i);
    assert FrameFree(c, i);
    assert h == i && c[i].free;
    if c[h].level >= l {
    } else {
      AlignedSplit(i, l - 1);
      var j := i + Pow2(l - 1);
      assert FreeRun(c, i, l - 1) && FreeRun(c, j, l - 1);
      Collapse(c, i, l - 1, i);
      var k := Owner(c, j);
      assert Placed(c, k);
      if c[k].level >= l { Nested(i, l, k, c[k].level, j); }
      assert c[k].level >= l ==> Covers(c, k, i);
      Collapse(c, j, l - 1, k);
      assert false;
    }
  }

  // A free aligned run of a level exists exactly when some block of that level or a higher one is free.
  lemma FreeRunIffBlock(c: seq<Cell>, l: nat)
    requires Tiled(c) && Coalesced(c) && l <= TOP
    ensures (exists i: nat :: Aligned(i, l) && FreeRun(c, i, l))
       <==> (exists h: nat, m: nat :: l <= m <= TOP && IsFree(c, h, m))
  {
    if i: nat :| Aligned(i, l) && FreeRun(c, i, l) {
      assert FrameFree(c, i);
      var h: nat :| Covers(c, h, i) && c[h].free;
      assert Placed(c, h);
      if c[h].level <= l {
        Collapse(c, i, l, h);
        assert IsFree(c, i, l);
      } else {
        assert IsFree(c, h, c[h].level);
      }
    }
    if h: nat, m: nat :| l <= m <= TOP && IsFree(c, h, m) {
      assert Placed(c, h);
      AlignedLower(h, l, m);
      Pow2Monotone(l, m);
      forall f | h <= f < h + Pow2(l) ensures FrameFree(c, f) {
        assert Covers(c, h, f);
      }
      assert FreeRun(c, h, l);
    }
  }

  lemma FreeHeadAgrees(c: seq<Cell>, d: seq<Cell>, h: nat)
    requires Tiled(c) && Coalesced(c) && AllFree(c)
    requires Tiled(d) && Coalesced(d) && AllFree(d)
    requires |c| == |d| && h < |c| && c[h].Block?
    ensures d[h] == c[h]
  {
    var l := c[h].level;
    assert Placed(c, h) && Covers(c, h, h);
    var g := Owner(d, h);
    var m := d[g].level;
    assert Placed(d, g);
    if m > l {
      var k := Owner(c, g);
      assert Placed(c, k);
      if c[k].level > m {
        Nested(g, m, k, c[k].level, g);
        assert Covers(c, k, h);
        assert false;
      }
      forall f | g <= f < g + Pow2(m) ensures FrameFree(c, f) {
        assert Covers(c, Owner(c, f), f);
      }
      Collapse(c, g, m, k);
      assert Covers(c, g, h);
      assert false;
    }
    forall f | h <= f < h + Pow2(l) ensures FrameFree(d, f) {
      assert Covers(d, Owner(d, f), f);
    }
    Collapse(d, h, l, g);
  }

  // There is only one coalesced tiling without a live block.
  lemma CanonicalForm(c: seq<Cell>, d: seq<Cell>)
    requires Tiled(c) && Coalesced(c) && AllFree(c)
    requires Tiled(d) && Coalesced(d) && AllFree(d)
    requires |c| == |d|
    ensures c == d
  {
    forall h: nat | h < |c| ensures c[h] == d[h] {
      if c[h].Block? {
        FreeHeadAgrees(c, d, h);
      } else if d[h].Block? {
        FreeHeadAgrees(d, c, h);
      }
    }
  }
}
