// Runs of kernel memory: kmalloc, kfree, writes, and blocks of frames, in any order, from boot on.

module KernelRuns {
  import opened Basics
  import opened BuddyZone
  import opened BuddyTail
  import opened KernelMemory
  import opened PageAccounts
  import opened PageSentinel
  import opened Powers
  import opened SlicePage
  import opened Tiling
  import BuddyCalls
  import BuddyCarve
  import BuddyMerge
  import BuddyRuns
  import Layout
  import SliceHeap
  import SliceRuns

  // An event, and what the records behind the frame table hold when it calls the frame allocator: they overlap
  // the first frames, whose owners write as they like.
  datatype Turn = Turn(tail: Tail, event: Event)

  function Met(s: System, t: Turn): System {
    s.(zone := Disturbed(s.zone, t.tail))
  }

  lemma MetConsistent(s: System, v: View, t: Turn)
    requires Consistent(s, v)
    ensures Consistent(Met(s, t), v)
  {
    DisturbedBacked(s.zone, t.tail, s.base, Used(s.heap), v.blocks);
  }

  lemma TurnKeeps(s: System, v: View, t: Turn)
    requires Consistent(s, v) && Proper(Met(s, t), v, t.event) && Guarded(Met(s, t), t.event)
    ensures Defined(Met(s, t), v, t.event)
    ensures Consistent(Step(Met(s, t), v, t.event), StepView(Met(s, t), v, t.event))
  {
    MetConsistent(s, v, t);
    StepExact(Met(s, t), v, t.event);
  }

  ghost predicate GuardedRun(s: System, v: View, ts: seq<Turn>)
    requires Consistent(s, v)
    decreases |ts|
  {
    ts != [] ==>
      var m, e := Met(s, ts[0]), ts[0].event;
      && Proper(m, v, e) && Guarded(m, e)
      && (TurnKeeps(s, v, ts[0]); GuardedRun(Step(m, v, e), StepView(m, v, e), ts[1..]))
  }

  ghost function After(s: System, v: View, ts: seq<Turn>): (r: (System, View))
    requires Consistent(s, v) && GuardedRun(s, v, ts)
    decreases |ts|
  {
    if ts == [] then (s, v) else
      TurnKeeps(s, v, ts[0]);
      var m, e := Met(s, ts[0]), ts[0].event;
      After(Step(m, v, e), StepView(m, v, e), ts[1..])
  }

  lemma {:induction false} RunKeeps(s: System, v: View, ts: seq<Turn>)
    requires Consistent(s, v) && GuardedRun(s, v, ts)
    ensures Consistent(After(s, v, ts).0, After(s, v, ts).1)
    decreases |ts|
  {
    if ts == [] {
    } else {
      var m, e := Met(s, ts[0]), ts[0].event;
      TurnKeeps(s, v, ts[0]);
      RunKeeps(Step(m, v, e), StepView(m, v, e), ts[1..]);
    }
  }

  // ---- runs of the repaired code ----

  // Both repairs are in, the zone is a whole number of largest blocks, and the store behind the table is clear of
  // the frames.
  predicate Repaired(s: System) {
    s.heap.fix && s.zone.fix && Aligned(s.zone.n, TOP) && Layout.Clear(s.start, s.zone.n)
  }

  lemma ClearSpares(s: System, v: View, e: Event)
    requires Consistent(s, v) && Layout.Clear(s.start, s.zone.n)
    ensures Sparing(s, e)
  {
    ConsistentOrderly(s, v);
    GrabFix(s.zone, 0);
  }

  lemma RepairedGuarded(s: System, v: View, e: Event)
    requires Consistent(s, v) && Proper(s, v, e) && Repaired(s)
    ensures Guarded(s, e)
  {
    ClearSpares(s, v, e);
    match e {
      case Free(x) =>
        FreeHeap(s.heap, v.client, x);
        SliceRuns.FixedIsSafe(s.heap, v.client, x);
        PageGiveSafe(s.zone, s.base, Used(s.heap), v.blocks, SliceHeap.PageOf(x));
      case Give(i) => BlockGiveSafe(s.zone, s.base, Used(s.heap), v.blocks, i);
      case _ =>
    }
  }

  lemma MallocFix(s: System, v: View, n: nat, bytes: seq<nat>)
    requires Orderly(s.zone) && Defined(s, v, Malloc(n, bytes))
    ensures var r := Step(s, v, Malloc(n, bytes));
      r.zone.fix == s.zone.fix && r.zone.n == s.zone.n && r.heap.fix == s.heap.fix && r.start == s.start
  {
    var c := SliceHeap.ClassFrom(n, 0);
    TakeFix(s.zone, NeedsManager(s.heap, c), NeedsPage(s.heap, c));
    SliceRuns.KmallocFix(s.heap, n, SupplyFor(s, n, bytes));
  }

  lemma FreeFix(s: System, v: View, x: nat)
    requires Defined(s, v, Free(x))
    ensures var r := Step(s, v, Free(x));
      r.zone.fix == s.zone.fix && r.zone.n == s.zone.n && r.heap.fix == s.heap.fix && r.start == s.start
  {
    GiveFix(s.zone, FrameOf(s.base, SliceHeap.PageOf(x)));
  }

  lemma StepFix(s: System, v: View, e: Event)
    requires Orderly(s.zone) && Defined(s, v, e)
    ensures var r := Step(s, v, e);
      r.zone.fix == s.zone.fix && r.zone.n == s.zone.n && r.heap.fix == s.heap.fix && r.start == s.start
  {
    match e {
      case Malloc(n, bytes) => MallocFix(s, v, n, bytes);
      case Free(x) => FreeFix(s, v, x);
      case Store(_, _) =>
      case Take(l) => GrabFix(s.zone, l);
      case Give(i) => GiveFix(s.zone, i);
    }
  }

  lemma RepairedTurn(s: System, v: View, t: Turn)
    requires Consistent(s, v) && Proper(Met(s, t), v, t.event) && Repaired(s)
    ensures Guarded(Met(s, t), t.event) && Defined(Met(s, t), v, t.event)
    ensures Consistent(Step(Met(s, t), v, t.event), StepView(Met(s, t), v, t.event))
    ensures Repaired(Step(Met(s, t), v, t.event))
  {
    var m := Met(s, t);
    MetConsistent(s, v, t);
    RepairedGuarded(m, v, t.event);
    StepExact(m, v, t.event);
    ConsistentOrderly(m, v);
    StepFix(m, v, t.event);
  }

  ghost predicate ProperRun(s: System, v: View, ts: seq<Turn>)
    requires Consistent(s, v) && Repaired(s)
    decreases |ts|
  {
    ts != [] ==>
      var m, e := Met(s, ts[0]), ts[0].event;
      Proper(m, v, e) && (RepairedTurn(s, v, ts[0]); ProperRun(Step(m, v, e), StepView(m, v, e), ts[1..]))
  }

  // Then the callers' own duties are all that is left to check.
  lemma {:induction false} RepairedRun(s: System, v: View, ts: seq<Turn>)
    requires Consistent(s, v) && Repaired(s) && ProperRun(s, v, ts)
    ensures GuardedRun(s, v, ts)
    decreases |ts|
  {
    if ts == [] {
    } else {
      var m, e := Met(s, ts[0]), ts[0].event;
      RepairedTurn(s, v, ts[0]);
      RepairedRun(Step(m, v, e), StepView(m, v, e), ts[1..]);
    }
  }

  // ---- where every frame is ----

  lemma AgreedHeld(h: SliceHeap.Heap, c: SliceRuns.Client)
    requires SliceRuns.Agreed(h, c)
    ensures h.allocator.Keys == c.held && SliceHeap.Housed(h)
  {
    var free :| SliceRuns.Agrees(h, free, c);
  }

  lemma HousedApart(h: SliceHeap.Heap, held: set<nat>)
    requires h.allocator.Keys == held && SliceHeap.Housed(h)
    ensures Used(h) == held + h.managers.Keys && held !! h.managers.Keys
  {
  }

  // The pages of the heap are the managers' and those with a slice held.
  lemma HeapPages(h: SliceHeap.Heap, c: SliceRuns.Client)
    requires SliceRuns.Agreed(h, c)
    ensures Used(h) == SliceRuns.PagesOf(c.live.Keys) + h.managers.Keys
    ensures SliceRuns.PagesOf(c.live.Keys) !! h.managers.Keys
  {
    AgreedHeld(h, c);
    SliceRuns.HeldPages(h, c);
    HousedApart(h, c.held);
  }

  // Nothing leaks: a frame is not free exactly if it is a manager's page, a page with a slice held, or in a block
  // held, and it is only one of these.
  lemma EveryFrame(s: System, v: View, f: nat)
    requires Consistent(s, v) && f < s.zone.n
    ensures InOnePlace(s.base, FreeFrames(Cells(s.zone)), SliceRuns.PagesOf(v.client.live.Keys) + s.heap.managers.Keys,
      v.blocks, f)
    ensures SliceRuns.PagesOf(v.client.live.Keys) !! s.heap.managers.Keys
  {
    HeapPages(s.heap, v.client);
    BackedPlaced(s.zone, s.base, Used(s.heap), v.blocks, f);
  }

  // ---- init_kmm on a zone just carved ----

  lemma PagesSuit(base: nat, frames: seq<nat>, used: set<nat>)
    requires base > 0 && base % PAGE_SIZE == 0 && |frames| == SliceHeap.CLASSES && NewPages(base, frames, used)
    ensures SliceRuns.ManagerPages(PageSeq(base, frames))
    ensures forall page :: page in used <==> page in PageSeq(base, frames)
  {
    var pages := PageSeq(base, frames);
    forall i, j | 0 <= i < j < |pages| ensures pages[i] != pages[j] {
      FrameBack(base, frames[i]);
      FrameBack(base, frames[j]);
    }
  }

  lemma InitialUses(fix: bool, pages: seq<nat>, used: set<nat>)
    requires |pages| == SliceHeap.CLASSES && forall page :: page in used <==> page in pages
    ensures Used(SliceRuns.Initial(fix, pages, SliceHeap.CLASSES)) == used
  {
    assert pages[..SliceHeap.CLASSES] == pages;
  }

  // No frame that init_kmm has taken is overwritten while it takes the rest. The managers it writes meanwhile may
  // lie behind the table, which no allocation reads (BuddyTail.AllocIgnoresTail).
  ghost predicate ManySpared(start: nat, z: Zone, k: nat) {
    forall j :: 0 <= j < k ==> Spares(start, GrabMany(z, j).0, 0)
  }

  ghost function Booted(blank: Zone, start: nat, fix: bool): System
    requires Shape(blank)
  {
    var base := Layout.FrameBase(start, blank.n);
    var (z, frames) := GrabMany(BuddyCarve.Carve(blank), SliceHeap.CLASSES);
    System(z, start, base, SliceRuns.Initial(fix, PageSeq(base, frames), SliceHeap.CLASSES))
  }

  const NOTHING_HELD := View(SliceRuns.Client(map[], map[], {}), map[])

  lemma BootHeap(base: nat, frames: seq<nat>, used: set<nat>, fix: bool)
    requires base > 0 && base % PAGE_SIZE == 0 && |frames| == SliceHeap.CLASSES && NewPages(base, frames, used)
    ensures var h := SliceRuns.Initial(fix, PageSeq(base, frames), SliceHeap.CLASSES);
      SliceRuns.Agreed(h, NOTHING_HELD.client) && Used(h) == used
  {
    PagesSuit(base, frames, used);
    InitialUses(fix, PageSeq(base, frames), used);
    SliceRuns.InitialAgreed(fix, PageSeq(base, frames));
  }

  // After init_normal_mem_zone and init_kmm: eight managers, nothing held, everything else free.
  lemma Boot(blank: Zone, start: nat, fix: bool)
    requires BuddyCarve.Blank(blank) && 1024 <= blank.n < TWO32
    requires ManySpared(start, BuddyCarve.Carve(blank), SliceHeap.CLASSES)
    ensures Consistent(Booted(blank, start, fix), NOTHING_HELD)
    ensures FreeCount(Booted(blank, start, fix).zone) == blank.n - SliceHeap.CLASSES
  {
    var base := Layout.FrameBase(start, blank.n);
    Layout.BaseFits(start, blank.n);
    CarvedBacked(blank, base);
    var used := ManyGrabbed(BuddyCarve.Carve(blank), base, SliceHeap.CLASSES);
    var (z, frames) := GrabMany(BuddyCarve.Carve(blank), SliceHeap.CLASSES);
    BootHeap(base, frames, used, fix);
  }

  lemma ManyOrderly(blank: Zone, k: nat)
    requires BuddyCarve.Blank(blank) && 1024 <= blank.n < TWO32 && k <= blank.n
    ensures Orderly(GrabMany(BuddyCarve.Carve(blank), k).0)
    ensures GrabMany(BuddyCarve.Carve(blank), k).0.n == blank.n
  {
    CarvedBacked(blank, 0);
    var used := ManyGrabbed(BuddyCarve.Carve(blank), 0, k);
  }

  ghost predicate OverstepsAt(start: nat, z: Zone, j: nat) {
    Oversteps(start, GrabMany(z, j).0, 0)
  }

  lemma SparedAt(blank: Zone, start: nat, j: nat)
    requires BuddyCarve.Blank(blank) && 1024 <= blank.n < TWO32 && j < SliceHeap.CLASSES
    ensures var z := BuddyCarve.Carve(blank);
      && (OverstepsAt(start, z, j) <==> !Spares(start, GrabMany(z, j).0, 0))
      && (Layout.Clear(start, blank.n) ==> Spares(start, GrabMany(z, j).0, 0))
  {
    ManyOrderly(blank, j);
    SparesExact(start, GrabMany(BuddyCarve.Carve(blank), j).0, 0);
  }

  // They are spared exactly if no store of init_kmm hits a frame taken before, and always if the record is clear.
  lemma BootSpared(blank: Zone, start: nat)
    requires BuddyCarve.Blank(blank) && 1024 <= blank.n < TWO32
    ensures var z := BuddyCarve.Carve(blank);
      && (ManySpared(start, z, SliceHeap.CLASSES) <==>
            !exists j :: 0 <= j < SliceHeap.CLASSES && OverstepsAt(start, z, j))
      && (Layout.Clear(start, blank.n) ==> ManySpared(start, z, SliceHeap.CLASSES))
  {
    forall j | 0 <= j < SliceHeap.CLASSES {
      SparedAt(blank, start, j);
    }
  }

  // ---- a region in which init_kmm overwrites its first manager ----

  const TABLE_AT: nat := 0x20_0800

  lemma RegionOverlaps()
    ensures Layout.Region(TABLE_AT, TABLE_AT + 1025 * 4118)
    ensures Layout.FrameCount(TABLE_AT, TABLE_AT + 1025 * 4118) == 1024
    ensures Layout.FrameBase(TABLE_AT, 1024) == Layout.TableEnd(TABLE_AT, 1024) && !Layout.Clear(TABLE_AT, 1024)
  {
  }

  lemma TakenNotFree(z: Zone)
    requires Orderly(z) && Shape(z) && z.flags[0] == 3
    ensures 0 !in FreeFrames(Cells(z))
  {
    var free, live :| BuddyMerge.Outcome(z, free, live);
    BuddyCalls.OutcomeShape(z, free, live);
    assert Cells(z)[0].Block? && !Cells(z)[0].free;
    assert Placed(Cells(z), 0);
    assert Covers(Cells(z), 0, 0);
  }

  ghost predicate OneTaken(z: Zone) {
    && Shape(z) && z.n == 1024 && !z.fix && z.flags[0] == 3
    && z.heads[0] == 1 && z.heads[1] == 2 && z.next[1] == 1024
  }

  lemma FirstTaken(blank: Zone, a: Zone)
    requires BuddyCarve.Blank(blank) && blank.n == 1024 && !blank.fix && a == BuddyCarve.Carve(blank)
    requires BuddyRuns.Ready(a)
    ensures Grab(a, 0).1 == Some(0) && OneTaken(Grab(a, 0).0)
  {
    BuddyRuns.CarvedOne(blank, a);
    BuddyRuns.FirstAlloc(blank, a);
  }

  lemma SecondTaken(z: Zone)
    requires OneTaken(z) && BuddyRuns.Ready(z)
    ensures var (r, i) := Grab(z, 0);
      i == Some(1) && Shape(r) && r.n == 1024 && r.flags[0] == 3 && r.heads[0] == 1024 && r.heads[1] == 2
  {
    BuddyRuns.AllocFromLevel0(z, 1);
  }

  // After frames 0 and 1 the list of level 0 is empty.
  lemma TwoTaken(blank: Zone)
    requires BuddyCarve.Blank(blank) && blank.n == 1024 && !blank.fix
    ensures var (z, frames) := GrabMany(BuddyCarve.Carve(blank), 2);
      && frames == [0, 1]
      && Shape(z) && z.n == 1024 && z.flags[0] == 3 && z.heads[0] == 1024 && z.heads[1] == 2
  {
    var a := BuddyCarve.Carve(blank);
    ManyOrderly(blank, 0);
    ManyOrderly(blank, 1);
    assert GrabMany(a, 0) == (a, []);
    OrderlyShape(a);
    FirstTaken(blank, a);
    var (z, frames) := GrabMany(a, 1);
    assert z == Grab(a, 0).0 && frames == [] + [0];
    OrderlyShape(z);
    SecondTaken(z);
  }

  // There frame 0, right behind the table, holds the first manager when the third frame is split off: record 1024
  // then says 3, over that manager's bytes 10 to 13.
  lemma BootOversteps(blank: Zone)
    requires BuddyCarve.Blank(blank) && blank.n == 1024 && !blank.fix
    ensures var a := BuddyCarve.Carve(blank);
      && GrabMany(a, 2).1[0] == 0 && OverstepsAt(TABLE_AT, a, 2)
      && BackLink(GrabMany(a, 3).0) == 3
      && Layout.TableEnd(TABLE_AT, 1024) + Layout.PREV_OFFSET == PageAt(Layout.FrameBase(TABLE_AT, 1024), 0) + 10
  {
    var a := BuddyCarve.Carve(blank);
    var z := GrabMany(a, 2).0;
    TwoTaken(blank);
    ManyOrderly(blank, 2);
    RegionOverlaps();
    TakenNotFree(z);
    OrderlyShape(z);
    SparesExact(TABLE_AT, z, 0);
    assert Grab(z, 0).1 == Some(2);
    GrabLeaves(z, 0, 2);
    assert Pow2(0) == 1;
  }
}
