// Whole calls of the frame allocator, and runs of calls: what each does to the free frames and to the
// blocks handed out, when it succeeds, and what every run of them keeps.

module BuddyCalls {
  import opened Basics
  import opened Powers
  import opened Tiling
  import opened Links
  import opened BuddyZone
  import opened BuddyMerge

  // buddy_system_get_frame_page_block
  function Alloc(z: Zone, level: nat): (Zone, Option<nat>)
    requires Shape(z) && HeadsInside(z)
  {
    var m := FindLevel(z, level);
    if m >= LEVELS then (z, None) else
      var i := z.heads[m];
      (Claim(SplitDown(Pop(z, m), i, m, level), i, level), Some(i))
  }

  predicate HeadsInside(z: Zone)
    requires Shape(z)
  {
    forall l :: 0 <= l < LEVELS ==> z.heads[l] <= z.n
  }

  // buddy_system_free_frame_page_block
  function Free(z: Zone, i: nat): (r: (Zone, bool))
    requires Shape(z) && LevelsInside(z)
    ensures Shape(r.0)
  {
    if i >= z.n || !HasHead(z.flags[i]) then (z, false) else (MergeUp(z, i, z.level[i]), true)
  }

  predicate LevelsInside(z: Zone)
    requires Shape(z)
  {
    forall f :: 0 <= f < z.n && HasHead(z.flags[f]) ==> z.level[f] <= TOP
  }

  // What a caller can check to know that freeing frame i does no harm: the frame is no block head, or it
  // heads a block that is handed out and whose chain of buddies is safe to merge.
  predicate FreeSafe(z: Zone, i: nat)
    requires Shape(z) && LevelsInside(z)
  {
    i < z.n && HasHead(z.flags[i]) ==> z.flags[i] == ALLOCATED + HEAD && MergeSafe(z, i, z.level[i])
  }

  lemma CellsUnique(z: Zone, c: seq<Cell>)
    requires Shape(z) && RecordsAgree(z, c, z.n)
    ensures c == Cells(z)
  {
  }

  lemma OutcomeShape(z: Zone, free: set<nat>, live: map<nat, nat>)
    requires Outcome(z, free, live)
    ensures Shape(z) && HeadsInside(z) && LevelsInside(z)
    ensures Tiled(Cells(z)) && Coalesced(Cells(z))
    ensures FreeFrames(Cells(z)) == free && Live(Cells(z)) == live
    ensures Sane(z)
  {
    var lists: seq<seq<nat>>, c: seq<Cell> :| Held(z, lists, c, z.n) && FreeFrames(c) == free && Live(c) == live;
    CellsUnique(z, c);
    HeldIsSane(z, lists, c);
    forall l | 0 <= l < LEVELS ensures z.heads[l] <= z.n {
      assert SaneLevel(z, l);
    }
    forall f | 0 <= f < z.n && HasHead(z.flags[f]) ensures z.level[f] <= TOP {
      assert c[f] == CellOf(z, f) && Placed(c, f);
    }
  }

  // ---- allocation ----

  lemma PopInHand(z: Zone, m: nat, free: set<nat>, live: map<nat, nat>)
    requires Outcome(z, free, live) && Shape(z) && m < LEVELS && z.heads[m] < z.n
    ensures InHand(Pop(z, m), z.heads[m], m, free, live)
  {
    var lists: seq<seq<nat>>, c: seq<Cell> :| Held(z, lists, c, z.n) && FreeFrames(c) == free && Live(c) == live;
    assert Chain(z.prev, z.next, z.heads[m], z.n, lists[m]);
    PopKeeps(z, lists, c, m);
    var i := z.heads[m];
    MarkLiveFrames(c, i);
    assert HandedOut(Mark(c, i, false), i, m);
    assert i !in live;
  }

  lemma SplitInHand(z: Zone, i: nat, l: nat, m: nat, free: set<nat>, live: map<nat, nat>)
    requires Shape(z) && i < z.n && m == l + 1 <= TOP && InHand(z, i, m, free, live)
    ensures InHand(SplitOnce(z, i, l), i, l, free, live)
  {
    var lists: seq<seq<nat>>, c: seq<Cell> :|
      Held(z, lists, c, i) && HandedOut(c, i, m) && FreeFrames(c) + Span(i, m) == free && Live(c) - {i} == live;
    var r: nat := i + Pow2(l);
    SplitHeld(z, lists, c, i, l, m, r, lists[l := [r] + lists[l]], free, live);
  }

  lemma SplitHeld(z: Zone, lists: seq<seq<nat>>, c: seq<Cell>, i: nat, l: nat, m: nat, r: nat, after: seq<seq<nat>>,
                  free: set<nat>, live: map<nat, nat>)
    requires Held(z, lists, c, i) && i < z.n && m == l + 1 <= TOP
    requires r == i + Pow2(l) && after == lists[l := [r] + lists[l]]
    requires HandedOut(c, i, m) && FreeFrames(c) + Span(i, m) == free && Live(c) - {i} == live
    ensures InHand(SplitOnce(z, i, l), i, l, free, live)
  {
    SplitKeeps(z, lists, c, i, l, r, after);
    SplitHand(c, i, l);
  }

  ghost predicate Splitting(z: Zone, i: nat, m: nat, level: nat, free: set<nat>, live: map<nat, nat>, r: Zone) {
    Shape(z) && i < z.n && m <= TOP && InHand(z, i, m, free, live) && r == SplitDown(z, i, m, level)
  }

  ghost predicate SomeSplitting(i: nat, m: nat, level: nat, free: set<nat>, live: map<nat, nat>, r: Zone) {
    exists z :: Splitting(z, i, m, level, free, live, r)
  }

  lemma SplitTurn(z: Zone, i: nat, m: nat, level: nat, free: set<nat>, live: map<nat, nat>, r: Zone)
    requires Splitting(z, i, m, level, free, live, r) && m > level
    ensures Splitting(SplitOnce(z, i, m - 1), i, m - 1, level, free, live, r)
  {
    SplitDownStep(z, i, m, level);
    SplitInHand(z, i, m - 1, m, free, live);
  }

  // What every turn of a loop keeps holds after all of them.
  lemma {:induction false} Descend(holds: nat -> bool, m: nat, level: nat)
    requires level <= m && holds(m)
    requires forall k: nat :: level < k && holds(k) ==> holds(k - 1)
    ensures holds(level)
    decreases m
  {
    if m > level { Descend(holds, m - 1, level); }
  }

  lemma AllTurns(i: nat, level: nat, free: set<nat>, live: map<nat, nat>, r: Zone)
    ensures forall k: nat :: level < k && SomeSplitting(i, k, level, free, live, r) ==>
      SomeSplitting(i, k - 1, level, free, live, r)
  {
    forall k: nat | level < k && SomeSplitting(i, k, level, free, live, r) {
      MoreTurns(i, k, level, free, live, r);
    }
  }

  // The splitting loop, down to the wanted level.
  lemma SplitDownInHand(i: nat, m: nat, level: nat, free: set<nat>, live: map<nat, nat>, r: Zone)
    requires level <= m && SomeSplitting(i, m, level, free, live, r)
    ensures SomeSplitting(i, level, level, free, live, r)
  {
    AllTurns(i, level, free, live, r);
    Descend((k: nat) => SomeSplitting(i, k, level, free, live, r), m, level);
  }

  lemma MoreTurns(i: nat, m: nat, level: nat, free: set<nat>, live: map<nat, nat>, r: Zone)
    requires level < m && SomeSplitting(i, m, level, free, live, r)
    ensures SomeSplitting(i, m - 1, level, free, live, r)
  {
    var z :| Splitting(z, i, m, level, free, live, r);
    SplitTurn(z, i, m, level, free, live, r);
  }

  lemma LastTurn(i: nat, level: nat, free: set<nat>, live: map<nat, nat>, r: Zone)
    requires SomeSplitting(i, level, level, free, live, r)
    ensures InHand(r, i, level, free, live) && Shape(r) && i < r.n
  {
  }

  lemma ClaimOutcome(z: Zone, i: nat, level: nat, free: set<nat>, live: map<nat, nat>)
    requires Shape(z) && i < z.n && InHand(z, i, level, free, live)
    ensures Outcome(Claim(z, i, level), free - Span(i, level), live[i := level])
    ensures RunAt(free, z.n, level, i) && i !in live
  {
    var lists: seq<seq<nat>>, c: seq<Cell> :| Held(z, lists, c, i) && HandedOut(c, i, level) &&
      FreeFrames(c) + Span(i, level) == free && Live(c) - {i} == live;
    ClaimKeeps(z, lists, c, i, level);
    HandOver(c, i, level, free, live);
  }

  // An aligned run of 2^level frames, all of them free.
  ghost predicate RunAt(free: set<nat>, n: nat, level: nat, i: nat) {
    Aligned(i, level) && i + Pow2(level) <= n && Span(i, level) <= free
  }

  ghost predicate HasRun(free: set<nat>, n: nat, level: nat) {
    exists i: nat :: RunAt(free, n, level, i)
  }

  lemma HasRunIffBlock(z: Zone, lists: seq<seq<nat>>, c: seq<Cell>, level: nat)
    requires Held(z, lists, c, z.n) && level <= TOP
    ensures HasRun(FreeFrames(c), z.n, level) <==> exists m :: level <= m < LEVELS && z.heads[m] != z.n
  {
    var free := FreeFrames(c);
    FreeRunIffBlock(c, level);
    if i: nat :| RunAt(free, z.n, level, i) {
      forall f | i <= f < i + Pow2(level) ensures FrameFree(c, f) {
        assert InSpan(i, level, f) && f in Span(i, level);
      }
      assert FreeRun(c, i, level);
      var h: nat, m: nat :| level <= m <= TOP && IsFree(c, h, m);
      assert h in lists[m] && Chain(z.prev, z.next, z.heads[m], z.n, lists[m]);
    }
    if m :| level <= m < LEVELS && z.heads[m] != z.n {
      assert Chain(z.prev, z.next, z.heads[m], z.n, lists[m]);
      assert lists[m][0] in lists[m] && IsFree(c, lists[m][0], m);
      var i: nat :| Aligned(i, level) && FreeRun(c, i, level);
      assert RunAt(free, z.n, level, i);
    }
  }

  // An allocation succeeds exactly when an aligned run of free frames of that size exists: coalescing leaves
  // no request unserved for fragmentation. It takes such a run out of the free frames, records the block,
  // and changes nothing else that can be observed.
  lemma AllocCorrect(z: Zone, level: nat, free: set<nat>, live: map<nat, nat>)
    requires Outcome(z, free, live) && Shape(z) && HeadsInside(z)
    ensures var (r, got) := Alloc(z, level);
      && (got.Some? <==> level <= TOP && HasRun(free, z.n, level))
      && (got.None? ==> r == z)
      && (got.Some? ==> RunAt(free, z.n, level, got.value) && got.value !in live
                        && Outcome(r, free - Span(got.value, level), live[got.value := level]))
  {
    var lists: seq<seq<nat>>, c: seq<Cell> :| Held(z, lists, c, z.n) && FreeFrames(c) == free && Live(c) == live;
    if level <= TOP {
      HasRunIffBlock(z, lists, c, level);
    }
    var m := FindLevel(z, level);
    if m < LEVELS {
      TakeBlock(z, level, m, free, live);
    }
  }

  lemma TakeBlock(z: Zone, level: nat, m: nat, free: set<nat>, live: map<nat, nat>)
    requires Outcome(z, free, live) && Shape(z) && level <= m < LEVELS && z.heads[m] < z.n
    ensures var i := z.heads[m];
      && RunAt(free, z.n, level, i) && i !in live
      && Outcome(Claim(SplitDown(Pop(z, m), i, m, level), i, level), free - Span(i, level), live[i := level])
  {
    var i := z.heads[m];
    var r := SplitDown(Pop(z, m), i, m, level);
    PopInHand(z, m, free, live);
    assert Splitting(Pop(z, m), i, m, level, free, live, r);
    SplitDownInHand(i, m, level, free, live, r);
    LastTurn(i, level, free, live, r);
    ClaimOutcome(r, i, level, free, live);
  }

  // The free block the run is taken from is, among those large enough, one of least level: no larger block is split
  // while a smaller one would do.
  lemma AllocBestFit(z: Zone, level: nat, free: set<nat>, live: map<nat, nat>)
    requires Outcome(z, free, live) && Shape(z) && HeadsInside(z) && Alloc(z, level).1.Some?
    ensures exists m :: level <= m && IsFree(Cells(z), Alloc(z, level).1.value, m) && LeastFree(Cells(z), level, m)
  {
    var lists: seq<seq<nat>>, c: seq<Cell> :| Held(z, lists, c, z.n) && FreeFrames(c) == free && Live(c) == live;
    CellsUnique(z, c);
    var m := FindLevel(z, level);
    ListedHead(z, lists, c, m);
    forall h, k | IsFree(c, h, k) && level <= k ensures m <= k {
      if k < m { ListedBlock(z, lists, c, h, k); }
    }
  }

  // No free block has a level from `level` to m - 1.
  ghost predicate LeastFree(c: seq<Cell>, level: nat, m: nat) {
    forall h, k :: IsFree(c, h, k) && level <= k ==> m <= k
  }

  lemma ListedHead(z: Zone, lists: seq<seq<nat>>, c: seq<Cell>, m: nat)
    requires Shape(z) && ListsAgree(z, lists, c) && m < LEVELS && z.heads[m] != z.n
    ensures IsFree(c, z.heads[m], m)
  {
    assert Chain(z.prev, z.next, z.heads[m], z.n, lists[m]);
    assert lists[m][0] in lists[m];
  }

  lemma ListedBlock(z: Zone, lists: seq<seq<nat>>, c: seq<Cell>, h: nat, k: nat)
    requires Shape(z) && ListsAgree(z, lists, c) && k < LEVELS && IsFree(c, h, k)
    ensures z.heads[k] != z.n
  {
    assert h in lists[k];
    assert Chain(z.prev, z.next, z.heads[k], z.n, lists[k]);
  }

  // ---- freeing ----

  lemma FreeListed(z: Zone, lists: seq<seq<nat>>, c: seq<Cell>, i: nat, l: nat, safe: bool, r: Zone)
    requires Held(z, lists, c, z.n) && HandedOut(c, i, l) && l <= TOP
    requires safe == MergeSafe(z, i, l) && r == MergeUp(z, i, l)
    ensures Arrives(FreeFrames(c) + Span(i, l), Live(c) - {i}, safe, r)
  {
    assert Held(z, lists, c, i);
    var free, live := FreeFrames(c) + Span(i, l), Live(c) - {i};
    assert InHand(z, i, l, free, live);
    assert Turning(z, z, i, l, free, live, safe, r);
    FreeUp(z, l, free, live, safe, r);
  }

  lemma ArrivesExactly(free: set<nat>, live: map<nat, nat>, safe: bool, r: Zone)
    requires Arrives(free, live, safe, r)
    ensures Sane(r) <==> safe
    ensures safe ==> Outcome(r, free, live)
  {
    if safe { OutcomeShape(r, free, live); }
  }

  lemma FreeHead(z: Zone, lists: seq<seq<nat>>, c: seq<Cell>, i: nat, l: nat, r: Zone)
    requires Held(z, lists, c, z.n) && i < z.n && l <= TOP && r == MergeUp(z, i, l)
    requires c[i] == Block(l, z.flags[i] % 2 == 0)
    ensures Sane(r) <==> z.flags[i] % 2 == 1 && MergeSafe(z, i, l)
    ensures Sane(r) ==> HandedOut(c, i, l) && Outcome(r, FreeFrames(c) + Span(i, l), Live(c) - {i})
  {
    if c[i].free {
      FreeTwice(z, lists, c, i, l);
    } else {
      var safe := MergeSafe(z, i, l);
      FreeListed(z, lists, c, i, l, safe, r);
      ArrivesExactly(FreeFrames(c) + Span(i, l), Live(c) - {i}, safe, r);
    }
  }

  lemma HeadFlags(x: nat)
    requires x < 4 && HasHead(x)
    ensures x % 2 == 1 <==> x == ALLOCATED + HEAD
  {
  }

  lemma FreeBlock(z: Zone, i: nat, l: nat, free: set<nat>, live: map<nat, nat>, r: Zone)
    requires Outcome(z, free, live) && Shape(z) && i < z.n && HasHead(z.flags[i])
    requires l == z.level[i] && l <= TOP && r == MergeUp(z, i, l)
    ensures Sane(r) <==> z.flags[i] == ALLOCATED + HEAD && MergeSafe(z, i, l)
    ensures Sane(r) ==> i in live && live[i] == l && Outcome(r, free + Span(i, l), live - {i})
  {
    var lists: seq<seq<nat>>, c: seq<Cell> :| Held(z, lists, c, z.n) && FreeFrames(c) == free && Live(c) == live;
    HeadFlags(z.flags[i]);
    assert c[i] == CellOf(z, i);
    FreeHead(z, lists, c, i, l, r);
  }

  // After a free call the lists are in order exactly when the call was safe; then exactly the block's frames
  // have become free, exactly the block is no longer handed out.
  lemma FreeCorrect(z: Zone, i: nat, free: set<nat>, live: map<nat, nat>)
    requires Outcome(z, free, live) && Shape(z) && LevelsInside(z)
    ensures !Free(z, i).1 ==> Free(z, i).0 == z && i !in live
    ensures Sane(Free(z, i).0) <==> FreeSafe(z, i)
    ensures Free(z, i).1 && FreeSafe(z, i) ==> i in live && Outcome(Free(z, i).0, free + Span(i, live[i]), live - {i})
  {
    if i < z.n && HasHead(z.flags[i]) {
      FreeBlock(z, i, z.level[i], free, live, MergeUp(z, i, z.level[i]));
    } else {
      OutcomeShape(z, free, live);
    }
  }
}
