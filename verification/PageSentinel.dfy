// The record behind the frame table as part of memory: what lies there changes with the frames it overlaps, and an
// allocation that splits stores into it.

module PageSentinel {
  import opened Basics
  import opened Powers
  import opened Tiling
  import opened BuddyZone
  import opened BuddyTail
  import opened PageAccounts
  import opened SlicePage
  import BuddyCalls
  import BuddyMerge
  import BuddyRuns
  import Layout

  lemma DisturbedBacked(z: Zone, t: Tail, base: nat, used: set<nat>, blocks: map<nat, nat>)
    requires Backed(z, base, used, blocks)
    ensures Backed(Disturbed(z, t), base, used, blocks) && FreeCount(Disturbed(z, t)) == FreeCount(z)
  {
    var free, live :| BuddyMerge.Outcome(z, free, live) && Accounts(base, z.n, live, used, blocks);
    DisturbedOutcome(z, t, free, live);
    OutcomeIs(z, free, live);
    OutcomeIs(Disturbed(z, t), free, live);
  }

  // ---- when an allocation stores behind the table ----

  function BackLink(z: Zone): nat {
    if z.n < |z.prev| then z.prev[z.n] else 0
  }

  function BackLinkAfter(z: Zone, t: Tail, l: nat): nat {
    BackLink(Grab(Disturbed(z, t), l).0)
  }

  ghost predicate Leaves(z: Zone, l: nat, w: nat) {
    forall t: Tail :: BackLinkAfter(z, t, l) == w
  }

  // The call leaves its own value in the back link of record n, whatever was there.
  ghost predicate Stores(z: Zone, l: nat) {
    exists w :: Leaves(z, l, w)
  }

  lemma GrabSame(z: Zone, t: Tail, l: nat)
    requires Orderly(z)
    ensures Orderly(Disturbed(z, t)) && Grab(Disturbed(z, t), l).1 == Grab(z, l).1
  {
    var free, live :| BuddyMerge.Outcome(z, free, live);
    OutcomeIs(z, free, live);
    AllocIgnoresTail(z, t, l, free, live);
    DisturbedOutcome(z, t, free, live);
    OutcomeIs(Disturbed(z, t), free, live);
  }

  lemma GrabLeaves(z: Zone, l: nat, i: nat)
    requires Orderly(z) && l <= TOP && Grab(z, l).1 == Some(i) && |z.heads| == LEVELS
    ensures BackLink(Grab(z, l).0) == if z.heads[l] == z.n then i + Pow2(l) else BackLink(z)
  {
    var free, live :| BuddyMerge.Outcome(z, free, live);
    OutcomeIs(z, free, live);
    AllocTail(z, l, free, live);
  }

  lemma AfterGrab(z: Zone, t: Tail, l: nat, i: nat)
    requires Orderly(z) && l <= TOP && Grab(z, l).1 == Some(i) && |z.heads| == LEVELS
    ensures BackLinkAfter(z, t, l) == if z.heads[l] == z.n then i + Pow2(l) else BackLink(Disturbed(z, t))
  {
    GrabSame(z, t, l);
    GrabLeaves(Disturbed(z, t), l, i);
  }

  function Filled(z: Zone, v: nat): Tail
    requires Shape(z)
  {
    var s := seq(|z.flags| - z.n, _ => v);
    Tail(s, s, s, s)
  }

  lemma FilledLink(z: Zone, v: nat)
    requires Shape(z)
    ensures BackLink(Disturbed(z, Filled(z, v))) == v
  {
  }

  lemma SplitStores(z: Zone, l: nat)
    requires Orderly(z) && Shape(z) && l <= TOP && Grab(z, l).1.Some? && z.heads[l] == z.n
    ensures Stores(z, l)
  {
    var i := Grab(z, l).1.value;
    var w := i + Pow2(l);
    forall t: Tail ensures BackLinkAfter(z, t, l) == w {
      AfterGrab(z, t, l, i);
    }
    assert Leaves(z, l, w);
  }

  lemma OtherKeeps(z: Zone, l: nat)
    requires Orderly(z) && Shape(z) && l <= TOP && Grab(z, l).1.Some? && z.heads[l] != z.n
    ensures !Stores(z, l)
  {
    AfterGrab(z, Filled(z, 0), l, Grab(z, l).1.value);
    AfterGrab(z, Filled(z, 1), l, Grab(z, l).1.value);
    FilledLink(z, 0);
    FilledLink(z, 1);
    forall w ensures !Leaves(z, l, w) {
      assert BackLinkAfter(z, Filled(z, 0), l) != BackLinkAfter(z, Filled(z, 1), l);
    }
  }

  // Exactly the allocations that split do.
  lemma StoresExact(z: Zone, l: nat)
    requires Orderly(z) && Shape(z) && l <= TOP && Grab(z, l).1.Some?
    ensures Stores(z, l) <==> z.heads[l] == z.n
  {
    if z.heads[l] == z.n {
      SplitStores(z, l);
    } else {
      OtherKeeps(z, l);
    }
  }

  // ---- nothing else is stored there ----

  lemma GrabTail(z: Zone, l: nat)
    requires Orderly(z)
    ensures OnlySentinel(z, Grab(z, l).0)
  {
    var free, live :| BuddyMerge.Outcome(z, free, live);
    OutcomeIs(z, free, live);
    if l < LEVELS && Grab(z, l).1.Some? { AllocTail(z, l, free, live); }
  }

  lemma GiveTail(z: Zone, i: nat)
    requires Orderly(z) && GiveSafe(z, i)
    ensures SameTail(z, GiveFrame(z, i))
  {
    var free, live :| BuddyMerge.Outcome(z, free, live);
    OutcomeIs(z, free, live);
    FreeTail(z, i, free, live);
  }

  lemma TakeTail(z: Zone, manager: bool, page: bool)
    requires Orderly(z)
    ensures OnlySentinel(z, TakeFrames(z, manager, page).zone)
  {
    OrderlyShape(z);
    GrabTail(z, 0);
    GrabFix(z, 0);
    GrabTail(Grab(z, 0).0, 0);
  }

  lemma OrderlyShape(z: Zone)
    requires Orderly(z)
    ensures Shape(z) && BuddyRuns.Ready(z)
  {
    var free, live :| BuddyMerge.Outcome(z, free, live);
    OutcomeIs(z, free, live);
  }

  // ---- when that store hits a frame in use ----

  // What a caller can check: the record is clear of the frames, or the allocation does not split, or frame 0 is
  // free anyway.
  ghost predicate Spares(start: nat, z: Zone, l: nat) {
    BuddyRuns.Ready(z) && Grab(z, l).1.Some? && l <= TOP ==>
      Layout.Clear(start, z.n) || z.heads[l] != z.n || 0 in FreeFrames(Cells(z))
  }

  // A byte of frame 0, which is in use, is overwritten.
  ghost predicate Oversteps(start: nat, z: Zone, l: nat) {
    && BuddyRuns.Ready(z) && Grab(z, l).1.Some? && Stores(z, l) && 0 !in FreeFrames(Cells(z))
    && var base := Layout.FrameBase(start, z.n);
       base <= Layout.SentinelByte(start, z.n) < base + PAGE_SIZE
  }

  lemma SparesExact(start: nat, z: Zone, l: nat)
    requires Orderly(z)
    ensures Oversteps(start, z, l) <==> !Spares(start, z, l)
  {
    var free, live :| BuddyMerge.Outcome(z, free, live);
    OutcomeIs(z, free, live);
    Allocation(z, l, free, live);
    Layout.SentinelClear(start, z.n);
    if Grab(z, l).1.Some? { StoresExact(z, l); }
  }
}
