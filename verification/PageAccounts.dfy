// Pages for the heap out of the frame allocator: which blocks of a zone are pages, which are held otherwise, and
// that taking and giving back keeps that account.

module PageAccounts {
  import opened Basics
  import opened Powers
  import opened Tiling
  import opened BuddyZone
  import BuddyCalls
  import BuddyCarve
  import BuddyMerge
  import BuddyRuns
  import opened SlicePage

  function PageAt(base: nat, i: nat): nat {
    base + i * PAGE_SIZE
  }

  function FrameOf(base: nat, page: nat): nat {
    if page >= base then (page - base) / PAGE_SIZE else 0
  }

  lemma FrameBack(base: nat, i: nat)
    ensures FrameOf(base, PageAt(base, i)) == i
  {
  }

  // ---- whose the blocks are ----

  ghost predicate IsFrame(base: nat, n: nat, page: nat) {
    FrameOf(base, page) < n && page == PageAt(base, FrameOf(base, page))
  }

  // Every block handed out is a page of the heap or a block somebody else holds, and not both.
  ghost predicate Accounts(base: nat, n: nat, live: map<nat, nat>, used: set<nat>, blocks: map<nat, nat>) {
    && (forall page :: page in used ==> IsFrame(base, n, page) && FrameOf(base, page) in live)
    && (forall i: nat :: i in live ==> if PageAt(base, i) in used then live[i] == 0 else i in blocks)
    && (forall i: nat :: i in blocks ==> i in live && live[i] == blocks[i] && PageAt(base, i) !in used)
  }

  lemma GrabPage(base: nat, n: nat, live: map<nat, nat>, used: set<nat>, blocks: map<nat, nat>, i: nat)
    requires Accounts(base, n, live, used, blocks) && i < n && i !in live
    ensures PageAt(base, i) !in used
    ensures Accounts(base, n, live[i := 0], used + {PageAt(base, i)}, blocks)
  {
    FrameBack(base, i);
    forall j: nat ensures PageAt(base, j) == PageAt(base, i) ==> j == i {
    }
  }

  lemma DropPage(base: nat, n: nat, live: map<nat, nat>, used: set<nat>, blocks: map<nat, nat>, page: nat)
    requires Accounts(base, n, live, used, blocks) && page in used
    ensures FrameOf(base, page) in live && live[FrameOf(base, page)] == 0
    ensures Accounts(base, n, live - {FrameOf(base, page)}, used - {page}, blocks)
  {
    forall j: nat ensures PageAt(base, j) == page ==> j == FrameOf(base, page) {
      FrameBack(base, j);
    }
  }

  lemma GrabBlock(base: nat, n: nat, live: map<nat, nat>, used: set<nat>, blocks: map<nat, nat>, i: nat, l: nat)
    requires Accounts(base, n, live, used, blocks) && i !in live
    ensures Accounts(base, n, live[i := l], used, blocks[i := l])
  {
    FrameBack(base, i);
  }

  lemma DropBlock(base: nat, n: nat, live: map<nat, nat>, used: set<nat>, blocks: map<nat, nat>, i: nat)
    requires Accounts(base, n, live, used, blocks) && i in blocks
    ensures i in live && live[i] == blocks[i] && Accounts(base, n, live - {i}, used, blocks - {i})
  {
    FrameBack(base, i);
  }

  // ---- the zone behind it ----

  ghost predicate Backed(z: Zone, base: nat, used: set<nat>, blocks: map<nat, nat>) {
    exists free, live :: BuddyMerge.Outcome(z, free, live) && Accounts(base, z.n, live, used, blocks)
  }

  ghost predicate Orderly(z: Zone) {
    exists free, live :: BuddyMerge.Outcome(z, free, live)
  }

  // frame_alloc(1) and physic_free.
  function Grab(z: Zone, l: nat): (Zone, Option<nat>) {
    if BuddyRuns.Ready(z) then BuddyCalls.Alloc(z, l) else (z, None)
  }

  function GiveFrame(z: Zone, i: nat): Zone {
    if BuddyRuns.Ready(z) then BuddyCalls.Free(z, i).0 else z
  }

  predicate GiveSafe(z: Zone, i: nat) {
    BuddyRuns.Ready(z) && BuddyCalls.FreeSafe(z, i)
  }

  ghost function FreeCount(z: Zone): nat {
    if BuddyRuns.Ready(z) then |FreeFrames(Cells(z))| else 0
  }

  lemma OneFrame(free: set<nat>, n: nat)
    ensures forall i: nat :: Span(i, 0) == {i}
    ensures (forall f :: f in free ==> f < n) ==> (BuddyCalls.HasRun(free, n, 0) <==> free != {})
  {
    forall i: nat ensures Span(i, 0) == {i} {
      assert Pow2(0) == 1;
      assert InSpan(i, 0, i);
    }
    if f :| f in free && f < n {
      assert BuddyCalls.RunAt(free, n, 0, f);
    }
    if i: nat :| BuddyCalls.RunAt(free, n, 0, i) {
      assert i in Span(i, 0);
    }
  }

  lemma OutcomeIs(z: Zone, free: set<nat>, live: map<nat, nat>)
    requires BuddyMerge.Outcome(z, free, live)
    ensures BuddyRuns.Ready(z) && FreeCount(z) == |free| && BuddyMerge.Sane(z)
    ensures forall f :: f in free ==> f < z.n
  {
    BuddyCalls.OutcomeShape(z, free, live);
  }

  lemma BackedReady(z: Zone, base: nat, used: set<nat>, blocks: map<nat, nat>)
    requires Backed(z, base, used, blocks)
    ensures BuddyRuns.Ready(z) && BuddyMerge.Sane(z)
    ensures forall page :: page in used ==> IsFrame(base, z.n, page)
  {
    var free, live :| BuddyMerge.Outcome(z, free, live) && Accounts(base, z.n, live, used, blocks);
    OutcomeIs(z, free, live);
  }

  // An allocation from a known zone: when it succeeds, and what it does.
  lemma Allocation(z: Zone, l: nat, free: set<nat>, live: map<nat, nat>)
    requires BuddyMerge.Outcome(z, free, live)
    ensures var (r, i) := Grab(z, l);
      && r.n == z.n && (i.Some? <==> l <= TOP && BuddyCalls.HasRun(free, z.n, l))
      && (i.None? ==> r == z)
      && (i.Some? ==> i.value < z.n && i.value !in live && Span(i.value, l) <= free
                      && BuddyMerge.Outcome(r, free - Span(i.value, l), live[i.value := l]))
  {
    OutcomeIs(z, free, live);
    BuddyCalls.AllocCorrect(z, l, free, live);
    assert BuddyRuns.InOrder(z);
    BuddyRuns.StepInOrder(z, BuddyRuns.AllocCall(l));
    var i := Grab(z, l).1;
    if i.Some? { assert Pow2(l) >= 1; }
  }

  lemma GrabBacked(z: Zone, base: nat, used: set<nat>, blocks: map<nat, nat>)
    requires Backed(z, base, used, blocks)
    ensures Grab(z, 0).1.Some? <==> FreeCount(z) > 0
    ensures var (r, i) := Grab(z, 0); i.Some? ==>
      && i.value < z.n == r.n && PageAt(base, i.value) !in used
      && Backed(r, base, used + {PageAt(base, i.value)}, blocks) && FreeCount(r) == FreeCount(z) - 1
  {
    var free, live :| BuddyMerge.Outcome(z, free, live) && Accounts(base, z.n, live, used, blocks);
    OutcomeIs(z, free, live);
    Allocation(z, 0, free, live);
    OneFrame(free, z.n);
    var (r, i) := Grab(z, 0);
    if i.Some? {
      GrabPage(base, z.n, live, used, blocks, i.value);
      OutcomeIs(r, free - Span(i.value, 0), live[i.value := 0]);
    }
  }

  lemma TakeBacked(z: Zone, base: nat, used: set<nat>, blocks: map<nat, nat>, l: nat)
    requires Backed(z, base, used, blocks)
    ensures var (r, i) := Grab(z, l);
      Backed(r, base, used, if i.Some? then blocks[i.value := l] else blocks)
  {
    var free, live :| BuddyMerge.Outcome(z, free, live) && Accounts(base, z.n, live, used, blocks);
    Allocation(z, l, free, live);
    var i := Grab(z, l).1;
    if i.Some? {
      GrabBlock(base, z.n, live, used, blocks, i.value, l);
    }
  }

  // Giving back a block that is handed out: the guard decides.
  lemma Giving(z: Zone, i: nat, free: set<nat>, live: map<nat, nat>)
    requires BuddyMerge.Outcome(z, free, live) && i in live
    ensures GiveSafe(z, i) ==>
      GiveFrame(z, i).n == z.n && BuddyMerge.Outcome(GiveFrame(z, i), free + Span(i, live[i]), live - {i})
    ensures !GiveSafe(z, i) ==> !Orderly(GiveFrame(z, i))
  {
    OutcomeIs(z, free, live);
    BuddyCalls.FreeCorrect(z, i, free, live);
    if GiveSafe(z, i) {
      BuddyRuns.StepInOrder(z, BuddyRuns.FreeCall(i));
    } else if Orderly(GiveFrame(z, i)) {
      var free', live' :| BuddyMerge.Outcome(GiveFrame(z, i), free', live');
      OutcomeIs(GiveFrame(z, i), free', live');
      assert false;
    }
  }

  lemma GivePage(z: Zone, base: nat, used: set<nat>, blocks: map<nat, nat>, page: nat)
    requires Backed(z, base, used, blocks) && page in used
    ensures var i := FrameOf(base, page);
      if GiveSafe(z, i) then Backed(GiveFrame(z, i), base, used - {page}, blocks) else !Orderly(GiveFrame(z, i))
  {
    var free, live :| BuddyMerge.Outcome(z, free, live) && Accounts(base, z.n, live, used, blocks);
    DropPage(base, z.n, live, used, blocks, page);
    Giving(z, FrameOf(base, page), free, live);
  }

  lemma GiveBlock(z: Zone, base: nat, used: set<nat>, blocks: map<nat, nat>, i: nat)
    requires Backed(z, base, used, blocks) && i in blocks
    ensures if GiveSafe(z, i) then Backed(GiveFrame(z, i), base, used, blocks - {i}) else !Orderly(GiveFrame(z, i))
  {
    var free, live :| BuddyMerge.Outcome(z, free, live) && Accounts(base, z.n, live, used, blocks);
    DropBlock(base, z.n, live, used, blocks, i);
    Giving(z, i, free, live);
  }

  // ---- the frames kmalloc takes ----

  // One for a manager and then one for slices, each only if it is needed.
  datatype Frames = Frames(zone: Zone, manager: Option<nat>, page: Option<nat>)

  function TakeFrames(z: Zone, manager: bool, page: bool): Frames {
    var first: (Zone, Option<nat>) := if manager then Grab(z, 0) else (z, None);
    var second: (Zone, Option<nat>) := if page then Grab(first.0, 0) else (first.0, None);
    Frames(second.0, first.1, second.1)
  }

  function PagesOf(base: nat, t: Frames): set<nat> {
    (if t.manager.Some? then {PageAt(base, t.manager.value)} else {})
    + (if t.page.Some? then {PageAt(base, t.page.value)} else {})
  }

  // The frames were not in use, and they differ.
  ghost predicate Fit(base: nat, n: nat, used: set<nat>, t: Frames) {
    && (forall page :: page in used ==> IsFrame(base, n, page))
    && (t.manager.Some? ==> t.manager.value < n && PageAt(base, t.manager.value) !in used)
    && (t.page.Some? ==> t.page.value < n && PageAt(base, t.page.value) !in used)
    && (t.manager.Some? && t.page.Some? ==> t.manager.value != t.page.value)
  }

  lemma TakeOne(z: Zone, base: nat, used: set<nat>, blocks: map<nat, nat>)
    requires Backed(z, base, used, blocks) && 1 <= FreeCount(z)
    ensures var t := TakeFrames(z, false, true);
      t.page.Some? && Fit(base, z.n, used, t) && Backed(t.zone, base, used + PagesOf(base, t), blocks)
  {
    BackedReady(z, base, used, blocks);
    GrabBacked(z, base, used, blocks);
    var t := TakeFrames(z, false, true);
    assert PagesOf(base, t) == {PageAt(base, t.page.value)};
  }

  lemma GrabAgain(z: Zone, base: nat, used: set<nat>, blocks: map<nat, nat>, r: Zone, i: nat, page: nat)
    requires Backed(z, base, used, blocks) && 2 <= FreeCount(z)
    requires Grab(z, 0) == (r, Some(i)) && page == PageAt(base, i)
    ensures i < z.n == r.n && page !in used && Backed(r, base, used + {page}, blocks) && 1 <= FreeCount(r)
  {
    GrabBacked(z, base, used, blocks);
  }

  lemma TakeSecond(z: Zone, base: nat, used: set<nat>, blocks: map<nat, nat>, r: Zone, i: nat)
    requires Backed(z, base, used, blocks) && 2 <= FreeCount(z) && Grab(z, 0) == (r, Some(i))
    ensures var (q, j) := Grab(r, 0);
      && j.Some? && i < z.n && j.value < z.n && i != j.value
      && PageAt(base, i) !in used && PageAt(base, j.value) !in used
      && Backed(q, base, used + {PageAt(base, i)} + {PageAt(base, j.value)}, blocks)
  {
    var page := PageAt(base, i);
    GrabAgain(z, base, used, blocks, r, i, page);
    GrabBacked(r, base, used + {page}, blocks);
  }

  lemma TakeTwo(z: Zone, base: nat, used: set<nat>, blocks: map<nat, nat>)
    requires Backed(z, base, used, blocks) && 2 <= FreeCount(z)
    ensures var t := TakeFrames(z, true, true);
      && t.manager.Some? && t.page.Some? && Fit(base, z.n, used, t)
      && Backed(t.zone, base, used + PagesOf(base, t), blocks)
  {
    BackedReady(z, base, used, blocks);
    GrabBacked(z, base, used, blocks);
    var (r, i) := Grab(z, 0);
    TakeSecond(z, base, used, blocks, r, i.value);
    var t := TakeFrames(z, true, true);
    assert used + PagesOf(base, t) == used + {PageAt(base, i.value)} + {PageAt(base, t.page.value)};
  }

  // With enough free frames they are all found.
  lemma FramesTaken(z: Zone, base: nat, used: set<nat>, blocks: map<nat, nat>, manager: bool, page: bool)
    requires Backed(z, base, used, blocks) && (manager ==> page)
    requires (if manager then 1 else 0) + (if page then 1 else 0) <= FreeCount(z)
    ensures var t := TakeFrames(z, manager, page);
      && (t.manager.Some? <==> manager) && (t.page.Some? <==> page) && Fit(base, z.n, used, t)
      && Backed(t.zone, base, used + PagesOf(base, t), blocks)
  {
    if manager {
      TakeTwo(z, base, used, blocks);
    } else if page {
      TakeOne(z, base, used, blocks);
    } else {
      BackedReady(z, base, used, blocks);
      assert used + PagesOf(base, TakeFrames(z, false, false)) == used;
    }
  }

  // ---- with the two missing stores ----

  lemma LiveFlags(z: Zone, free: set<nat>, live: map<nat, nat>, i: nat)
    requires BuddyMerge.Outcome(z, free, live) && i in live
    ensures Shape(z) && i < z.n && z.flags[i] != HEAD
  {
    BuddyCalls.OutcomeShape(z, free, live);
  }

  lemma GiveIsSafe(z: Zone, i: nat, free: set<nat>, live: map<nat, nat>)
    requires BuddyMerge.Outcome(z, free, live) && i in live && z.fix && Aligned(z.n, TOP)
    ensures GiveSafe(z, i)
  {
    LiveFlags(z, free, live, i);
    OutcomeIs(z, free, live);
    assert BuddyRuns.InOrder(z);
    BuddyRuns.WholeCallSafe(z, BuddyRuns.FreeCall(i));
  }

  lemma PageGiveSafe(z: Zone, base: nat, used: set<nat>, blocks: map<nat, nat>, page: nat)
    requires Backed(z, base, used, blocks) && page in used && z.fix && Aligned(z.n, TOP)
    ensures GiveSafe(z, FrameOf(base, page))
  {
    var free, live :| BuddyMerge.Outcome(z, free, live) && Accounts(base, z.n, live, used, blocks);
    GiveIsSafe(z, FrameOf(base, page), free, live);
  }

  lemma BlockGiveSafe(z: Zone, base: nat, used: set<nat>, blocks: map<nat, nat>, i: nat)
    requires Backed(z, base, used, blocks) && i in blocks && z.fix && Aligned(z.n, TOP)
    ensures GiveSafe(z, i)
  {
    var free, live :| BuddyMerge.Outcome(z, free, live) && Accounts(base, z.n, live, used, blocks);
    GiveIsSafe(z, i, free, live);
  }

  // Neither half of a step changes which code is run, or the size of the zone.
  lemma GrabFix(z: Zone, l: nat)
    requires Orderly(z)
    ensures Grab(z, l).0.fix == z.fix && Grab(z, l).0.n == z.n && Orderly(Grab(z, l).0)
  {
    var free, live :| BuddyMerge.Outcome(z, free, live);
    OutcomeIs(z, free, live);
    assert BuddyRuns.InOrder(z);
    BuddyRuns.StepFix(z, BuddyRuns.AllocCall(l));
    Allocation(z, l, free, live);
  }

  lemma GiveFix(z: Zone, i: nat)
    ensures GiveFrame(z, i).fix == z.fix && GiveFrame(z, i).n == z.n
  {
    if BuddyRuns.Ready(z) && i < z.n && HasHead(z.flags[i]) {
      BuddyRuns.MergeUpFix(z, i, z.level[i]);
    }
  }

  lemma TakeFix(z: Zone, manager: bool, page: bool)
    requires Orderly(z)
    ensures TakeFrames(z, manager, page).zone.fix == z.fix && TakeFrames(z, manager, page).zone.n == z.n
  {
    GrabFix(z, 0);
    GrabFix(Grab(z, 0).0, 0);
  }

  // ---- where every frame is ----

  predicate InBlock(blocks: map<nat, nat>, i: nat, f: nat) {
    i in blocks && InSpan(i, blocks[i], f)
  }

  // A frame is free unless it is a page of the heap or in a block somebody holds, and it is in one place only.
  ghost predicate InOnePlace(base: nat, free: set<nat>, used: set<nat>, blocks: map<nat, nat>, f: nat) {
    && (f in free <==> PageAt(base, f) !in used && !exists i :: InBlock(blocks, i, f))
    && (PageAt(base, f) in used ==> !exists i :: InBlock(blocks, i, f))
    && (forall i, j :: InBlock(blocks, i, f) && InBlock(blocks, j, f) ==> i == j)
  }

  lemma FramePlaced(base: nat, n: nat, free: set<nat>, live: map<nat, nat>, used: set<nat>, blocks: map<nat, nat>,
          f: nat)
    requires Accounts(base, n, live, used, blocks)
    requires f in free <==> !exists i :: InBlock(live, i, f)
    requires forall i, j :: InBlock(live, i, f) && InBlock(live, j, f) ==> i == j
    ensures InOnePlace(base, free, used, blocks, f)
  {
    assert Pow2(0) == 1;
    FrameBack(base, f);
    forall i | InBlock(blocks, i, f) ensures InBlock(live, i, f) && PageAt(base, i) !in used {
    }
    if PageAt(base, f) in used {
      assert InBlock(live, f, f);
    }
    if i :| InBlock(live, i, f) && PageAt(base, f) !in used {
      assert PageAt(base, i) in used ==> i == f;
      assert InBlock(blocks, i, f);
    }
  }

  lemma BackedPlaced(z: Zone, base: nat, used: set<nat>, blocks: map<nat, nat>, f: nat)
    requires Backed(z, base, used, blocks) && f < z.n
    ensures InOnePlace(base, FreeFrames(Cells(z)), used, blocks, f)
  {
    var free, live :| BuddyMerge.Outcome(z, free, live) && Accounts(base, z.n, live, used, blocks);
    BuddyCalls.OutcomeShape(z, free, live);
    BuddyRuns.Conservation(z, free, live);
    if i: nat :| i in live && InSpan(i, live[i], f) {
      assert InBlock(live, i, f);
    }
    FramePlaced(base, z.n, free, live, used, blocks, f);
  }

  // ---- frames from a zone just carved ----

  function GrabMany(z: Zone, k: nat): (r: (Zone, seq<nat>))
    ensures |r.1| == k
  {
    if k == 0 then (z, []) else
      var before := GrabMany(z, k - 1);
      var now := Grab(before.0, 0);
      (now.0, before.1 + [if now.1.Some? then now.1.value else 0])
  }

  function PageSeq(base: nat, frames: seq<nat>): seq<nat> {
    seq(|frames|, (i: nat) requires i < |frames| => PageAt(base, frames[i]))
  }

  ghost predicate NewPages(base: nat, frames: seq<nat>, used: set<nat>) {
    && (forall i :: 0 <= i < |frames| ==> PageAt(base, frames[i]) in used)
    && (forall i, j :: 0 <= i < j < |frames| ==> frames[i] != frames[j])
    && (forall page :: page in used ==> page in PageSeq(base, frames))
  }

  lemma {:induction false} ManyGrabbed(z: Zone, base: nat, k: nat) returns (used: set<nat>)
    requires Backed(z, base, {}, map[]) && k <= FreeCount(z)
    ensures var (r, frames) := GrabMany(z, k);
      && Backed(r, base, used, map[]) && FreeCount(r) == FreeCount(z) - k && NewPages(base, frames, used)
      && r.n == z.n
  {
    if k == 0 {
      used := {};
    } else {
      var before := ManyGrabbed(z, base, k - 1);
      var (r, frames) := GrabMany(z, k - 1);
      GrabBacked(r, base, before, map[]);
      var i := Grab(r, 0).1.value;
      used := before + {PageAt(base, i)};
      PagesGrow(base, frames, before, i);
    }
  }

  lemma PagesGrow(base: nat, frames: seq<nat>, used: set<nat>, i: nat)
    requires NewPages(base, frames, used) && PageAt(base, i) !in used
    ensures NewPages(base, frames + [i], used + {PageAt(base, i)})
  {
    var more := frames + [i];
    forall page | page in used + {PageAt(base, i)} ensures page in PageSeq(base, more) {
      if page in used {
        var j :| 0 <= j < |frames| && PageSeq(base, frames)[j] == page;
        assert PageSeq(base, more)[j] == page;
      } else {
        assert PageSeq(base, more)[|frames|] == page;
      }
    }
  }

  lemma {:induction false} FrameTotal(n: nat)
    ensures |BuddyCarve.AllFrames(n)| == n
  {
    if n == 0 {
      assert BuddyCarve.AllFrames(0) == {};
    } else {
      var k := n - 1;
      FrameTotal(k);
      assert forall f: nat :: BuddyCarve.InTable(n, f) <==> BuddyCarve.InTable(k, f) || f == k;
      assert BuddyCarve.AllFrames(n) == BuddyCarve.AllFrames(k) + {k};
    }
  }

  lemma CarvedBacked(blank: Zone, base: nat)
    requires BuddyCarve.Blank(blank) && 1024 <= blank.n < TWO32
    ensures var z := BuddyCarve.Carve(blank); Backed(z, base, {}, map[]) && FreeCount(z) == blank.n
  {
    var z := BuddyCarve.Carve(blank);
    BuddyCarve.CarveOutcome(blank);
    FrameTotal(blank.n);
    OutcomeIs(z, BuddyCarve.AllFrames(blank.n), map[]);
    assert Accounts(base, z.n, map[], {}, map[]);
  }
}
