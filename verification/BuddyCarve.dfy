// Carving the memory zone into free blocks: the second half of init_normal_mem_zone.

module BuddyCarve {
  import opened Basics
  import opened Powers
  import opened Tiling
  import opened Links
  import opened BuddyZone
  import opened BuddyMerge
  import opened BuddyCalls

  // Unsigned subtraction.
  function Sub32(a: nat, b: nat): nat {
    if a >= b then a - b else if a + TWO32 >= b then a + TWO32 - b else 0
  }

  // The inner loop: block_page_size is halved while the block would not fit.
  function FitLevel(n: nat, i: nat, l: nat): (k: nat)
    requires i < n
    ensures k <= l
  {
    if l > 0 && i > Sub32(n, Pow2(l)) then FitLevel(n, i, l - 1) else l
  }

  // The body of the outer loop.
  function Place(z: Zone, i: nat, l: nat): (r: Zone)
    requires Shape(z) && i < z.n && l < LEVELS
    ensures Shape(r) && r.n == z.n
  {
    var first := z.heads[l];
    z.(flags := z.flags[i := HEAD], level := z.level[i := l], next := z.next[i := first],
       prev := Store(z.prev, first, i), heads := z.heads[l := i])
  }

  function CarveFrom(z: Zone, i: nat, l: nat): (r: Zone)
    requires Shape(z) && l < LEVELS
    ensures Shape(r) && r.n == z.n
    decreases z.n - i
  {
    if i < z.n then
      var k := FitLevel(z.n, i, l);
      CarveFrom(Place(z, i, k), i + Pow2(k), k)
    else z
  }

  // The records the first loop leaves behind: single allocated frames, no block head, in no list.
  predicate Blank(z: Zone) {
    && Shape(z)
    && (forall f :: 0 <= f < z.n ==> z.flags[f] == ALLOCATED && z.prev[f] == z.n)
    && (forall l :: 0 <= l < LEVELS ==> z.heads[l] == z.n)
  }

  function Carve(z: Zone): (r: Zone)
    requires Shape(z)
    ensures Shape(r) && r.n == z.n
  {
    CarveFrom(z, 0, TOP)
  }

  lemma {:induction false} FitLevelFits(n: nat, i: nat, l: nat)
    requires i < n < TWO32 && Pow2(l) <= n
    ensures i + Pow2(FitLevel(n, i, l)) <= n
    ensures FitLevel(n, i, l) < l ==> i + Pow2(FitLevel(n, i, l) + 1) > n
  {
    if l > 0 && i > Sub32(n, Pow2(l)) {
      FitLevelFits(n, i, l - 1);
    }
  }

  // ---- the tiling grows from the left ----

  function Extend(c: seq<Cell>, l: nat): seq<Cell> {
    c + [Block(l, true)] + seq(Pow2(l) - 1, _ => Interior)
  }

  lemma ExtendTiled(c: seq<Cell>, l: nat)
    requires Tiled(c) && l <= TOP && Aligned(|c|, l)
    ensures Tiled(Extend(c, l))
  {
    var d := Extend(c, l);
    forall h | 0 <= h < |d| && d[h].Block? ensures Placed(d, h) {
      if h < |c| { assert Placed(c, h); }
    }
    forall f: nat | f < |d| ensures Covered(d, f) {
      assert Covers(d, if f < |c| then Owner(c, f) else |c|, f);
    }
    forall f: nat, g: nat, h: nat | Covers(d, g, f) && Covers(d, h, f) ensures g == h {
      if g < |c| { assert Placed(c, g) && Covers(c, g, f); }
      if h < |c| { assert Placed(c, h) && Covers(c, h, f); }
    }
  }

  // Below the top level a block is placed only where its parent would not fit.
  ghost predicate Tight(c: seq<Cell>, n: nat) {
    forall h: nat, l: nat :: IsFree(c, h, l) && l < TOP ==> h + Pow2(l + 1) > n
  }

  lemma TightCoalesced(c: seq<Cell>)
    requires Tiled(c) && Tight(c, |c|)
    ensures Coalesced(c)
  {
    forall h: nat, b: nat, l: nat | l < TOP && IsFree(c, h, l) && IsFree(c, b, l) ensures b != Buddy(h, l) {
      assert Placed(c, h) && Placed(c, b);
      AlignedMerge(h, l);
    }
  }

  // The next block starts at frame i, and blocks of level l are being placed.
  ghost predicate Position(n: nat, i: nat, l: nat) {
    i <= n < TWO32 && l <= TOP && Aligned(i, l) && Pow2(l) <= n && (l < TOP ==> n - i < Pow2(l + 1))
  }

  ghost predicate RestBlank(z: Zone, i: nat)
    requires Shape(z)
  {
    && (forall f :: 0 <= f < z.n ==> z.flags[f] < 4)
    && (forall f :: i <= f < z.n ==> z.flags[f] == ALLOCATED && z.prev[f] == z.n)
  }

  ghost predicate CarvedUpTo(z: Zone, i: nat)
    requires Shape(z) && i <= z.n
  {
    SomeCarved(z, Cells(z)[..i])
  }

  ghost predicate SomeCarved(z: Zone, c: seq<Cell>)
    requires Shape(z)
  {
    exists lists :: Carved(z, lists, c)
  }

  ghost predicate Carving(z: Zone, i: nat, l: nat, r: Zone) {
    Shape(z) && Position(z.n, i, l) && RestBlank(z, i) && CarvedUpTo(z, i) && r == CarveFrom(z, i, l)
  }

  ghost predicate Carved(z: Zone, lists: seq<seq<nat>>, c: seq<Cell>)
    requires Shape(z)
  {
    Tiled(c) && AllFree(c) && Tight(c, z.n) && ListsAgree(z, lists, c)
  }

  lemma PlaceCells(z: Zone, i: nat, k: nat, j: nat)
    requires Shape(z) && k <= TOP && j == i + Pow2(k) <= z.n
    requires forall f :: i <= f < z.n ==> z.flags[f] == ALLOCATED
    ensures Cells(Place(z, i, k))[..j] == Extend(Cells(z)[..i], k)
  {
  }

  lemma ExtendFree(c: seq<Cell>, k: nat)
    ensures forall x: nat, m: nat :: IsFree(Extend(c, k), x, m) <==> IsFree(c, x, m) || (x == |c| && m == k)
  {
  }

  lemma PlaceLists(z: Zone, lists: seq<seq<nat>>, c: seq<Cell>, i: nat, k: nat)
    requires Shape(z) && k < LEVELS && i < z.n && |c| == i && ListsAgree(z, lists, c) && z.prev[i] == z.n
    ensures ListsAgree(Place(z, i, k), lists[k := [i] + lists[k]], Extend(c, k))
  {
    ExtendFree(c, k);
    assert forall y :: y in lists[k] ==> IsFree(c, y, k);
    assert Chain(z.prev, z.next, z.heads[k], z.n, lists[k]);
    assert lists[k] != [] ==> lists[k][0] in lists[k];
    PushLists(z, Place(z, i, k), lists, c, Extend(c, k), k, i);
  }

  lemma CarvedStep(z: Zone, lists: seq<seq<nat>>, c: seq<Cell>, i: nat, k: nat)
    requires Shape(z) && k <= TOP && i < z.n && |c| == i && Carved(z, lists, c) && z.prev[i] == z.n
    requires Aligned(i, k) && (k < TOP ==> i + Pow2(k + 1) > z.n)
    ensures Carved(Place(z, i, k), lists[k := [i] + lists[k]], Extend(c, k))
  {
    ExtendTiled(c, k);
    ExtendFree(c, k);
    PlaceLists(z, lists, c, i, k);
  }

  lemma NextPosition(n: nat, i: nat, l: nat, k: nat, j: nat)
    requires Position(n, i, l) && i < n && k == FitLevel(n, i, l) && j == i + Pow2(k)
    ensures j <= n && Aligned(i, k) && (k < TOP ==> i + Pow2(k + 1) > n)
    ensures Position(n, j, k)
  {
    FitLevelFits(n, i, l);
    AlignedLower(i, k, l);
    AlignedPow2(k, k);
    AlignedApart(i, Pow2(k), k);
    Pow2Monotone(k, l);
  }

  lemma PlaceRest(z: Zone, i: nat, k: nat, j: nat)
    requires Shape(z) && k < LEVELS && i < j && i < z.n && RestBlank(z, i) && CarvedUpTo(z, i)
    ensures RestBlank(Place(z, i, k), j)
  {
    var lists :| Carved(z, lists, Cells(z)[..i]);
    assert Chain(z.prev, z.next, z.heads[k], z.n, lists[k]);
    assert lists[k] != [] ==> lists[k][0] in lists[k] && IsFree(Cells(z)[..i], lists[k][0], k);
  }

  lemma PlaceCarved(z: Zone, i: nat, k: nat, j: nat)
    requires Shape(z) && k <= TOP && j == i + Pow2(k) <= z.n && RestBlank(z, i) && CarvedUpTo(z, i)
    requires Aligned(i, k) && (k < TOP ==> i + Pow2(k + 1) > z.n)
    ensures CarvedUpTo(Place(z, i, k), j)
  {
    CarvedOn(z, Cells(z)[..i], i, k);
    PlaceCells(z, i, k, j);
  }

  lemma CarvedOn(z: Zone, c: seq<Cell>, i: nat, k: nat)
    requires Shape(z) && k <= TOP && i < z.n && |c| == i && SomeCarved(z, c) && z.prev[i] == z.n
    requires Aligned(i, k) && (k < TOP ==> i + Pow2(k + 1) > z.n)
    ensures SomeCarved(Place(z, i, k), Extend(c, k))
  {
    var lists :| Carved(z, lists, c);
    CarvedStep(z, lists, c, i, k);
  }

  lemma CarveUnfold(z: Zone, i: nat, l: nat, k: nat, j: nat)
    requires Shape(z) && l < LEVELS && i < z.n && k == FitLevel(z.n, i, l) && j == i + Pow2(k)
    ensures CarveFrom(z, i, l) == CarveFrom(Place(z, i, k), j, k)
  {
  }

  ghost predicate FullyCarved(z: Zone) {
    && Shape(z) && (forall f :: 0 <= f < z.n ==> z.flags[f] < 4)
    && SomeCarved(z, Cells(z))
  }

  lemma CarvingStep(z: Zone, i: nat, l: nat, k: nat, j: nat, r: Zone)
    requires Carving(z, i, l, r) && i < z.n && k == FitLevel(z.n, i, l) && j == i + Pow2(k)
    ensures Carving(Place(z, i, k), j, k, r)
  {
    NextPosition(z.n, i, l, k, j);
    CarveUnfold(z, i, l, k, j);
    PlaceCarved(z, i, k, j);
    PlaceRest(z, i, k, j);
  }

  lemma CarvingDone(z: Zone, i: nat, l: nat, r: Zone)
    requires Carving(z, i, l, r) && i == z.n
    ensures FullyCarved(r)
  {
    assert Cells(z)[..i] == Cells(z);
  }

  lemma {:induction false} CarveFromKeeps(z: Zone, i: nat, l: nat, r: Zone)
    requires Carving(z, i, l, r)
    ensures FullyCarved(r)
    decreases z.n - i
  {
    if i < z.n {
      var k := FitLevel(z.n, i, l);
      var j := i + Pow2(k);
      CarvingStep(z, i, l, k, j, r);
      CarveFromKeeps(Place(z, i, k), j, k, r);
    } else {
      CarvingDone(z, i, l, r);
    }
  }

  predicate InTable(n: nat, f: nat) {
    f < n
  }

  ghost function AllFrames(n: nat): set<nat> {
    set f: nat | f < n && InTable(n, f)
  }

  lemma AllFreeContents(c: seq<Cell>)
    requires Tiled(c)
    ensures AllFree(c) <==> Live(c) == map[]
    ensures AllFree(c) ==> FreeFrames(c) == AllFrames(|c|)
  {
    if Live(c) == map[] {
      forall h | 0 <= h < |c| && c[h].Block? ensures c[h].free {
        assert h !in Live(c);
      }
    }
    if AllFree(c) {
      forall f: nat | f < |c| ensures FrameFree(c, f) {
        assert Covers(c, Owner(c, f), f);
      }
    }
  }

  lemma CarveStarts(z: Zone)
    requires Blank(z) && 1024 <= z.n < TWO32
    ensures Carving(z, 0, TOP, Carve(z))
  {
    var lists: seq<seq<nat>> := seq(LEVELS, _ => []);
    assert Pow2(10) == 1024;
    assert Cells(z)[..0] == [];
    assert Carved(z, lists, Cells(z)[..0]);
  }

  // With at least one largest block's worth of frames, carving puts the zone in order with every frame free.
  lemma CarveOutcome(z: Zone)
    requires Blank(z) && 1024 <= z.n < TWO32
    ensures Outcome(Carve(z), AllFrames(z.n), map[])
  {
    var r := Carve(z);
    CarveStarts(z);
    CarveFromKeeps(z, 0, TOP, r);
    var lists :| Carved(r, lists, Cells(r));
    TightCoalesced(Cells(r));
    AllFreeContents(Cells(r));
    assert Held(r, lists, Cells(r), r.n);
  }

  // A smaller zone is not carved but handed out as one block of 1024 frames: the unsigned subtraction wraps.
  lemma CarveSmall(z: Zone)
    requires Blank(z) && z.n < 1024
    ensures !Sane(Carve(z))
  {
    assert Pow2(10) == 1024;
    var r := Carve(z);
    assert FitLevel(z.n, 0, TOP) == TOP;
    assert r == CarveFrom(Place(z, 0, TOP), 1024, TOP) == Place(z, 0, TOP);
    assert !SaneLevel(r, TOP);
  }

  lemma CarveExact(z: Zone)
    requires Blank(z) && z.n < TWO32
    ensures Sane(Carve(z)) <==> z.n >= 1024
  {
    if z.n >= 1024 {
      CarveOutcome(z);
      OutcomeShape(Carve(z), AllFrames(z.n), map[]);
    } else {
      CarveSmall(z);
    }
  }
}
