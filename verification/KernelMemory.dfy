// kmalloc and kfree over the frame allocator: the pages a heap asks for come out of the zone one frame at a time,
// when they are needed, and go back to it with their last slice. Other callers take and return blocks meanwhile.

module KernelMemory {
  import opened Basics
  import opened BuddyTail
  import opened BuddyZone
  import opened PageAccounts
  import opened PageSentinel
  import opened SliceManager
  import opened SlicePage
  import Layout
  import SliceCalls
  import SliceChoice
  import SliceHeap
  import SliceRuns

  // `start` is the address of the frame table, `base` that of frame 0.
  datatype System = System(zone: Zone, start: nat, base: nat, heap: SliceHeap.Heap)

  // What the callers hold: slices with their contents, and blocks of frames with their levels.
  datatype View = View(client: SliceRuns.Client, blocks: map<nat, nat>)

  // ---- what a request asks for ----

  function Used(h: SliceHeap.Heap): set<nat> {
    h.allocator.Keys + h.managers.Keys
  }

  // kmalloc_helper asks for a page for a manager if none of the class has room ...
  predicate NeedsManager(h: SliceHeap.Heap, c: nat)
    requires SliceHeap.Known(h) && c < SliceHeap.CLASSES
  {
    SliceHeap.Seek(h.managers, h.chains[c]) == |h.chains[c]|
  }

  // ... and for a page of slices if no page of that manager is partially full.
  predicate NeedsPage(h: SliceHeap.Heap, c: nat)
    requires SliceHeap.Known(h) && c < SliceHeap.CLASSES
  {
    var k := SliceHeap.Seek(h.managers, h.chains[c]);
    k == |h.chains[c]| || Head(h.managers[h.chains[c][k]].lists, PARTIAL) == COUNT
  }

  function Needed(h: SliceHeap.Heap, n: nat): nat
    requires SliceHeap.Known(h) && n <= SliceHeap.SizeOf(SliceHeap.CLASSES - 1)
  {
    var c := SliceHeap.ClassFrom(n, 0);
    (if NeedsManager(h, c) then 1 else 0) + (if NeedsPage(h, c) then 1 else 0)
  }

  function Asked(h: SliceHeap.Heap, n: nat, s: SliceHeap.Supply): set<nat>
    requires SliceHeap.Known(h) && n <= SliceHeap.SizeOf(SliceHeap.CLASSES - 1)
  {
    var c := SliceHeap.ClassFrom(n, 0);
    (if NeedsManager(h, c) then {s.managerPage} else {}) + (if NeedsPage(h, c) then {s.page} else {})
  }

  // What is asked for, told from the free slices.
  lemma NeedsExact(h: SliceHeap.Heap, free: map<nat, set<nat>>, c: nat)
    requires SliceHeap.Good(h, free) && c < SliceHeap.CLASSES
    ensures NeedsManager(h, c) <==> SliceChoice.WantsManager(h, free, c)
    ensures NeedsPage(h, c) <==> SliceChoice.WantsPage(h, free, c)
  {
    SliceChoice.ManagerWanted(h, free, c);
    SliceChoice.PageWanted(h, free, c, SliceHeap.Seek(h.managers, h.chains[c]));
  }

  lemma PreparedUses(h: SliceHeap.Heap, c: nat, s: SliceHeap.Supply)
    requires SliceHeap.Known(h) && c < SliceHeap.CLASSES
    ensures var q := SliceHeap.Prepared(h, c, s);
      && q.0.allocator == h.allocator && q.1 in q.0.managers
      && q.0.managers.Keys == h.managers.Keys + (if NeedsManager(h, c) then {s.managerPage} else {})
      && (NeedsPage(h, c) <==> Head(q.0.managers[q.1].lists, PARTIAL) == COUNT)
  {
    var k := SliceHeap.Seek(h.managers, h.chains[c]);
    if k < |h.chains[c]| { assert h.chains[c][k] in h.chains[c]; }
  }

  lemma ServeUses(h: SliceHeap.Heap, a: nat, s: SliceHeap.Supply)
    requires a in h.managers && SliceHeap.Ready(h.managers[a]) && |s.bytes| == PAGE_SIZE
    ensures Used(SliceHeap.Serve(h, a, s).0) ==
      Used(h) + (if Head(h.managers[a].lists, PARTIAL) == COUNT then {s.page} else {})
  {
  }

  lemma KmallocIs(h: SliceHeap.Heap, n: nat, s: SliceHeap.Supply)
    requires SliceCalls.InUse(h) && SliceHeap.Fresh(h, s) && n <= SliceHeap.SizeOf(SliceHeap.CLASSES - 1)
    ensures SliceHeap.Known(h)
    ensures var q := SliceHeap.Prepared(h, SliceHeap.ClassFrom(n, 0), s);
      && q.1 in q.0.managers && SliceHeap.Ready(q.0.managers[q.1])
      && SliceCalls.Kmalloc(h, n, s).0 == SliceHeap.Serve(q.0, q.1, s).0
  {
    var free :| SliceHeap.Good(h, free);
    SliceCalls.PreparedKeeps(h, SliceHeap.ClassFrom(n, 0), s, free);
  }

  // kmalloc takes the pages it asks for and no others.
  lemma KmallocUses(h: SliceHeap.Heap, n: nat, s: SliceHeap.Supply)
    requires SliceCalls.InUse(h) && SliceHeap.Fresh(h, s) && n <= SliceHeap.SizeOf(SliceHeap.CLASSES - 1)
    ensures SliceHeap.Known(h) && Used(SliceCalls.Kmalloc(h, n, s).0) == Used(h) + Asked(h, n, s)
  {
    KmallocIs(h, n, s);
    KmallocTakes(h, n, s, SliceCalls.Kmalloc(h, n, s).0);
  }

  lemma KmallocTakes(h: SliceHeap.Heap, n: nat, s: SliceHeap.Supply, r: SliceHeap.Heap)
    requires SliceHeap.Known(h) && n <= SliceHeap.SizeOf(SliceHeap.CLASSES - 1) && |s.bytes| == PAGE_SIZE
    requires var q := SliceHeap.Prepared(h, SliceHeap.ClassFrom(n, 0), s);
      && q.1 in q.0.managers && SliceHeap.Ready(q.0.managers[q.1]) && r == SliceHeap.Serve(q.0, q.1, s).0
    ensures Used(r) == Used(h) + Asked(h, n, s)
  {
    var c := SliceHeap.ClassFrom(n, 0);
    var q := SliceHeap.Prepared(h, c, s);
    PreparedUses(h, c, s);
    ServeUses(q.0, q.1, s);
  }

  // kfree returns the page exactly with its last slice.
  lemma KfreeUses(h: SliceHeap.Heap, page: nat, a: nat, i: nat, k: nat)
    requires SliceCalls.OnPage(h, page, a, i) && k < Slots(h.managers[a].size) && page !in h.managers
    ensures var x := SliceHeap.AddressOf(h, page, k);
      && SliceCalls.CanFree(h, x)
      && Used(SliceCalls.Kfree(h, x)) == Used(h) - (if SliceCalls.LastSlice(h, page) then {page} else {})
  {
    SliceCalls.KfreeActs(h, page, a, i, k);
  }

  lemma WrittenUses(h: SliceHeap.Heap, y: nat, v: nat)
    ensures Used(SliceRuns.Written(h, y, v)) == Used(h)
  {
  }

  // An address behind the frames stands for a page that is not needed.
  function SupplyOf(base: nat, n: nat, t: Frames, bytes: seq<nat>): SliceHeap.Supply {
    SliceHeap.Supply(PageAt(base, if t.page.Some? then t.page.value else n), bytes,
                     PageAt(base, if t.manager.Some? then t.manager.value else n + 1))
  }

  lemma UnusedPage(base: nat, n: nat, h: SliceHeap.Heap, i: nat)
    requires base > 0 && base % PAGE_SIZE == 0
    requires forall page :: page in Used(h) ==> IsFrame(base, n, page)
    requires i < n ==> PageAt(base, i) !in Used(h)
    ensures PageAt(base, i) != 0 && PageAt(base, i) % PAGE_SIZE == 0
    ensures PageAt(base, i) !in h.allocator && PageAt(base, i) !in h.managers
  {
    FrameBack(base, i);
  }

  lemma SupplyFresh(base: nat, n: nat, h: SliceHeap.Heap, t: Frames, bytes: seq<nat>)
    requires base > 0 && base % PAGE_SIZE == 0 && |bytes| == PAGE_SIZE && Fit(base, n, Used(h), t)
    ensures SliceHeap.Fresh(h, SupplyOf(base, n, t, bytes))
  {
    UnusedPage(base, n, h, if t.page.Some? then t.page.value else n);
    UnusedPage(base, n, h, if t.manager.Some? then t.manager.value else n + 1);
  }

  // ---- steps ----

  ghost predicate Consistent(s: System, v: View) {
    && s.base == Layout.FrameBase(s.start, s.zone.n)
    && SliceRuns.Agreed(s.heap, v.client) && Backed(s.zone, s.base, Used(s.heap), v.blocks)
  }

  // Malloc and Free are kmalloc and kfree of slices; Take and Give stand for everybody who deals with the frame
  // allocator directly, kmalloc of more than 2048 bytes among them.
  datatype Event = Malloc(n: nat, bytes: seq<nat>) | Free(x: nat) | Store(y: nat, v: nat) | Take(level: nat)
    | Give(frame: nat)

  function FramesFor(s: System, n: nat): Frames
    requires SliceHeap.Known(s.heap) && n <= SliceHeap.SizeOf(SliceHeap.CLASSES - 1)
  {
    var c := SliceHeap.ClassFrom(n, 0);
    TakeFrames(s.zone, NeedsManager(s.heap, c), NeedsPage(s.heap, c))
  }

  function SupplyFor(s: System, n: nat, bytes: seq<nat>): SliceHeap.Supply
    requires SliceHeap.Known(s.heap) && n <= SliceHeap.SizeOf(SliceHeap.CLASSES - 1)
  {
    SupplyOf(s.base, s.zone.n, FramesFor(s, n), bytes)
  }

  // What the callers owe: requests that the free frames suffice for, and only what they hold is used and returned.
  ghost predicate Proper(s: System, v: View, e: Event) {
    match e
    case Malloc(n, bytes) =>
      && n <= SliceHeap.SizeOf(SliceHeap.CLASSES - 1) && |bytes| == PAGE_SIZE
      && SliceHeap.Known(s.heap) && Needed(s.heap, n) <= FreeCount(s.zone)
    case Free(x) => x in v.client.live
    case Store(y, _) => SliceRuns.Covered(v.client, y)
    case Take(_) => true
    case Give(i) => i in v.blocks
  }

  // What the shipped code needs besides. Both guards, where a page goes back to the zone:
  predicate ReturnSafe(s: System, e: Event) {
    match e
    case Free(x) =>
      var page := SliceHeap.PageOf(x);
      && SliceCalls.FreeSafe(s.heap, page)
      && (SliceCalls.LastSlice(s.heap, page) ==> GiveSafe(s.zone, FrameOf(s.base, page)))
    case Give(i) => GiveSafe(s.zone, i)
    case _ => true
  }

  // and, where frames are taken, that the store behind the table hits no frame in use.
  ghost predicate Sparing(s: System, e: Event) {
    match e
    case Malloc(n, _) =>
      SliceHeap.Known(s.heap) && n <= SliceHeap.SizeOf(SliceHeap.CLASSES - 1) ==>
        var c := SliceHeap.ClassFrom(n, 0);
        && (NeedsManager(s.heap, c) ==> Spares(s.start, s.zone, 0))
        && (NeedsPage(s.heap, c) ==> Spares(s.start, BeforePage(s, c), 0))
    case Take(l) => Spares(s.start, s.zone, l)
    case _ => true
  }

  // The zone when kmalloc takes the page of slices.
  function BeforePage(s: System, c: nat): Zone
    requires SliceHeap.Known(s.heap) && c < SliceHeap.CLASSES
  {
    if NeedsManager(s.heap, c) then Grab(s.zone, 0).0 else s.zone
  }

  ghost predicate Guarded(s: System, e: Event) {
    ReturnSafe(s, e) && Sparing(s, e)
  }

  // The event overwrites a byte of frame 0 while that frame is in use.
  ghost predicate Overwrites(s: System, e: Event) {
    match e
    case Malloc(n, _) =>
      && SliceHeap.Known(s.heap) && n <= SliceHeap.SizeOf(SliceHeap.CLASSES - 1)
      && var c := SliceHeap.ClassFrom(n, 0);
         || (NeedsManager(s.heap, c) && Oversteps(s.start, s.zone, 0))
         || (NeedsPage(s.heap, c) && Oversteps(s.start, BeforePage(s, c), 0))
    case Take(l) => Oversteps(s.start, s.zone, l)
    case _ => false
  }

  // The calls are defined: nothing follows a record that is not there.
  ghost predicate Defined(s: System, v: View, e: Event) {
    && SliceCalls.InUse(s.heap)
    && (e.Malloc? ==>
          && e.n <= SliceHeap.SizeOf(SliceHeap.CLASSES - 1) && SliceHeap.Known(s.heap)
          && SliceHeap.Fresh(s.heap, SupplyFor(s, e.n, e.bytes)))
    && (e.Free? ==> SliceCalls.CanFree(s.heap, e.x) && e.x in v.client.live)
  }

  ghost function Step(s: System, v: View, e: Event): System
    requires Defined(s, v, e)
  {
    match e
    case Malloc(n, bytes) =>
      s.(zone := FramesFor(s, n).zone, heap := SliceCalls.Kmalloc(s.heap, n, SupplyFor(s, n, bytes)).0)
    case Free(x) =>
      var page := SliceHeap.PageOf(x);
      s.(zone := if SliceCalls.LastSlice(s.heap, page) then GiveFrame(s.zone, FrameOf(s.base, page)) else s.zone,
         heap := SliceCalls.Kfree(s.heap, x))
    case Store(y, b) => s.(heap := SliceRuns.Written(s.heap, y, b))
    case Take(level) => s.(zone := Grab(s.zone, level).0)
    case Give(i) => s.(zone := GiveFrame(s.zone, i))
  }

  ghost function StepView(s: System, v: View, e: Event): View
    requires Defined(s, v, e)
  {
    match e
    case Malloc(n, bytes) =>
      v.(client := SliceRuns.StepClient(s.heap, v.client, SliceRuns.Allocate(n, SupplyFor(s, n, bytes))))
    case Free(x) => v.(client := SliceRuns.Released(v.client, x))
    case Store(y, b) => v.(client := v.client.(memory := v.client.memory[y := b]))
    case Take(level) =>
      var i := Grab(s.zone, level).1;
      if i.Some? then v.(blocks := v.blocks[i.value := level]) else v
    case Give(i) => v.(blocks := v.blocks - {i})
  }

  // ---- the heap's half of a step ----

  lemma AgreedInUse(h: SliceHeap.Heap, c: SliceRuns.Client)
    requires SliceRuns.Agreed(h, c)
    ensures SliceCalls.InUse(h)
  {
  }

  lemma MallocHeap(h: SliceHeap.Heap, c: SliceRuns.Client, n: nat, s: SliceHeap.Supply)
    requires SliceRuns.Agreed(h, c) && SliceHeap.Fresh(h, s) && n <= SliceHeap.SizeOf(SliceHeap.CLASSES - 1)
    ensures SliceCalls.InUse(h) && SliceHeap.Known(h)
    ensures SliceRuns.Agreed(SliceCalls.Kmalloc(h, n, s).0, SliceRuns.StepClient(h, c, SliceRuns.Allocate(n, s)))
    ensures Used(SliceCalls.Kmalloc(h, n, s).0) == Used(h) + Asked(h, n, s)
  {
    AgreedInUse(h, c);
    SliceRuns.StepKeeps(h, c, SliceRuns.Allocate(n, s));
    KmallocUses(h, n, s);
  }

  lemma HeldPage(h: SliceHeap.Heap, c: SliceRuns.Client, x: nat) returns (a: nat, i: nat, k: nat)
    requires SliceRuns.Agreed(h, c) && x in c.live
    ensures var page := SliceHeap.PageOf(x);
      && SliceCalls.OnPage(h, page, a, i) && k < Slots(h.managers[a].size) && page !in h.managers
      && x == SliceHeap.AddressOf(h, page, k)
  {
    var free :| SliceRuns.Agrees(h, free, c);
    var page: nat, slot: nat :| SliceRuns.Holding(h, free, x, c.live[x], page, slot);
    SliceRuns.SlotAddress(h, free, page, slot);
    SliceCalls.PlacedOn(h, free, page);
    a, i, k := SliceHeap.PageOf(h.allocator[page]), SliceHeap.IndexIn(h.allocator[page]), slot;
  }

  lemma FreeHeap(h: SliceHeap.Heap, c: SliceRuns.Client, x: nat)
    requires SliceRuns.Agreed(h, c) && x in c.live
    ensures var page := SliceHeap.PageOf(x);
      && SliceCalls.CanFree(h, x) && page in Used(h)
      && Used(SliceCalls.Kfree(h, x)) == Used(h) - (if SliceCalls.LastSlice(h, page) then {page} else {})
  {
    var a, i, k := HeldPage(h, c, x);
    KfreeUses(h, SliceHeap.PageOf(x), a, i, k);
  }

  lemma FreeAgreed(h: SliceHeap.Heap, c: SliceRuns.Client, x: nat)
    requires SliceRuns.Agreed(h, c) && x in c.live
    ensures SliceCalls.CanFree(h, x)
    ensures if SliceCalls.FreeSafe(h, SliceHeap.PageOf(x))
      then SliceRuns.Agreed(SliceCalls.Kfree(h, x), SliceRuns.Released(c, x))
      else !SliceCalls.InUse(SliceCalls.Kfree(h, x))
  {
    var free :| SliceRuns.Agrees(h, free, c);
    SliceRuns.ReleaseKeeps(h, free, c, x);
  }

  // ---- both halves ----

  // No account of who holds what describes the state.
  ghost predicate Ruined(s: System) {
    forall v :: !Consistent(s, v)
  }

  lemma HeapRuined(s: System)
    requires !SliceCalls.InUse(s.heap)
    ensures Ruined(s)
  {
    forall v ensures !Consistent(s, v) {
      if SliceRuns.Agreed(s.heap, v.client) { AgreedInUse(s.heap, v.client); }
    }
  }

  lemma ZoneRuined(s: System)
    requires !Orderly(s.zone)
    ensures Ruined(s)
  {
  }

  lemma TakenAsked(s: System, n: nat, bytes: seq<nat>)
    requires SliceHeap.Known(s.heap) && n <= SliceHeap.SizeOf(SliceHeap.CLASSES - 1)
    requires var c, t := SliceHeap.ClassFrom(n, 0), FramesFor(s, n);
      (t.manager.Some? <==> NeedsManager(s.heap, c)) && (t.page.Some? <==> NeedsPage(s.heap, c))
    ensures PagesOf(s.base, FramesFor(s, n)) == Asked(s.heap, n, SupplyFor(s, n, bytes))
  {
  }

  lemma MallocKeeps(s: System, v: View, n: nat, bytes: seq<nat>)
    requires Consistent(s, v) && Proper(s, v, Malloc(n, bytes))
    ensures Defined(s, v, Malloc(n, bytes))
    ensures Consistent(Step(s, v, Malloc(n, bytes)), StepView(s, v, Malloc(n, bytes)))
  {
    var c := SliceHeap.ClassFrom(n, 0);
    FramesTaken(s.zone, s.base, Used(s.heap), v.blocks, NeedsManager(s.heap, c), NeedsPage(s.heap, c));
    BackedReady(s.zone, s.base, Used(s.heap), v.blocks);
    Layout.BaseFits(s.start, s.zone.n);
    TakeFix(s.zone, NeedsManager(s.heap, c), NeedsPage(s.heap, c));
    SupplyFresh(s.base, s.zone.n, s.heap, FramesFor(s, n), bytes);
    TakenAsked(s, n, bytes);
    MallocHeap(s.heap, v.client, n, SupplyFor(s, n, bytes));
  }

  lemma FreeDefined(s: System, v: View, x: nat)
    requires Consistent(s, v) && x in v.client.live
    ensures Defined(s, v, Free(x)) && SliceHeap.PageOf(x) in Used(s.heap)
  {
    AgreedInUse(s.heap, v.client);
    FreeHeap(s.heap, v.client, x);
  }

  // The zone's half, from what the heap does.
  lemma FreeZone(s: System, blocks: map<nat, nat>, page: nat, last: bool, now: set<nat>)
    requires Backed(s.zone, s.base, Used(s.heap), blocks) && page in Used(s.heap)
    requires last ==> GiveSafe(s.zone, FrameOf(s.base, page))
    requires now == Used(s.heap) - if last then {page} else {}
    ensures Backed(if last then GiveFrame(s.zone, FrameOf(s.base, page)) else s.zone, s.base, now, blocks)
  {
    if last {
      GivePage(s.zone, s.base, Used(s.heap), blocks, page);
    } else {
      assert now == Used(s.heap);
    }
  }

  lemma FreeKeeps(s: System, v: View, x: nat)
    requires Consistent(s, v) && x in v.client.live && ReturnSafe(s, Free(x))
    ensures Defined(s, v, Free(x))
    ensures Consistent(Step(s, v, Free(x)), StepView(s, v, Free(x)))
  {
    var page := SliceHeap.PageOf(x);
    FreeDefined(s, v, x);
    FreeHeap(s.heap, v.client, x);
    FreeAgreed(s.heap, v.client, x);
    GiveFix(s.zone, FrameOf(s.base, page));
    FreeZone(s, v.blocks, page, SliceCalls.LastSlice(s.heap, page), Used(SliceCalls.Kfree(s.heap, x)));
  }

  lemma FreeRuins(s: System, v: View, x: nat)
    requires Consistent(s, v) && x in v.client.live && !ReturnSafe(s, Free(x))
    ensures Defined(s, v, Free(x)) && Ruined(Step(s, v, Free(x)))
  {
    var page := SliceHeap.PageOf(x);
    FreeDefined(s, v, x);
    if !SliceCalls.FreeSafe(s.heap, page) {
      FreeAgreed(s.heap, v.client, x);
      HeapRuined(Step(s, v, Free(x)));
    } else {
      GivePage(s.zone, s.base, Used(s.heap), v.blocks, page);
      ZoneRuined(Step(s, v, Free(x)));
    }
  }

  lemma StoreKeeps(s: System, v: View, y: nat, b: nat)
    requires Consistent(s, v) && SliceRuns.Covered(v.client, y)
    ensures Defined(s, v, Store(y, b))
    ensures Consistent(Step(s, v, Store(y, b)), StepView(s, v, Store(y, b)))
  {
    AgreedInUse(s.heap, v.client);
    SliceRuns.StepKeeps(s.heap, v.client, SliceRuns.Store(y, b));
    WrittenUses(s.heap, y, b);
  }

  lemma TakeKeeps(s: System, v: View, l: nat)
    requires Consistent(s, v)
    ensures Defined(s, v, Take(l)) && Consistent(Step(s, v, Take(l)), StepView(s, v, Take(l)))
  {
    AgreedInUse(s.heap, v.client);
    GrabFix(s.zone, l);
    TakeBacked(s.zone, s.base, Used(s.heap), v.blocks, l);
  }

  lemma GiveKeeps(s: System, v: View, i: nat)
    requires Consistent(s, v) && i in v.blocks && GiveSafe(s.zone, i)
    ensures Defined(s, v, Give(i)) && Consistent(Step(s, v, Give(i)), StepView(s, v, Give(i)))
  {
    AgreedInUse(s.heap, v.client);
    GiveFix(s.zone, i);
    GiveBlock(s.zone, s.base, Used(s.heap), v.blocks, i);
  }

  lemma GiveRuins(s: System, v: View, i: nat)
    requires Consistent(s, v) && i in v.blocks && !GiveSafe(s.zone, i)
    ensures Defined(s, v, Give(i)) && Ruined(Step(s, v, Give(i)))
  {
    AgreedInUse(s.heap, v.client);
    GiveBlock(s.zone, s.base, Used(s.heap), v.blocks, i);
    ZoneRuined(Step(s, v, Give(i)));
  }

  lemma SparingExact(s: System, v: View, e: Event)
    requires Consistent(s, v)
    ensures Overwrites(s, e) <==> !Sparing(s, e)
  {
    match e {
      case Malloc(n, _) =>
        SparesExact(s.start, s.zone, 0);
        GrabFix(s.zone, 0);
        SparesExact(s.start, Grab(s.zone, 0).0, 0);
      case Take(l) => SparesExact(s.start, s.zone, l);
      case _ =>
    }
  }

  // Without regard to the store behind the table: the accounts survive exactly if what goes back may go back.
  lemma StepAccounts(s: System, v: View, e: Event)
    requires Consistent(s, v) && Proper(s, v, e)
    ensures Defined(s, v, e)
    ensures if ReturnSafe(s, e) then Consistent(Step(s, v, e), StepView(s, v, e)) else Ruined(Step(s, v, e))
  {
    match e
    case Malloc(n, bytes) => MallocKeeps(s, v, n, bytes);
    case Free(x) => if ReturnSafe(s, e) { FreeKeeps(s, v, x); } else { FreeRuins(s, v, x); }
    case Store(y, b) => StoreKeeps(s, v, y, b);
    case Take(l) => TakeKeeps(s, v, l);
    case Give(i) => if ReturnSafe(s, e) { GiveKeeps(s, v, i); } else { GiveRuins(s, v, i); }
  }

  lemma ConsistentOrderly(s: System, v: View)
    requires Consistent(s, v)
    ensures Orderly(s.zone)
  {
  }

  lemma ZoneTail(s: System, v: View, e: Event)
    requires Orderly(s.zone) && Defined(s, v, e) && ReturnSafe(s, e)
    ensures OnlySentinel(s.zone, Step(s, v, e).zone)
    ensures !e.Malloc? && !e.Take? ==> SameTail(s.zone, Step(s, v, e).zone)
  {
    OrderlyShape(s.zone);
    match e {
      case Malloc(n, _) =>
        var c := SliceHeap.ClassFrom(n, 0);
        TakeTail(s.zone, NeedsManager(s.heap, c), NeedsPage(s.heap, c));
      case Free(x) =>
        var i := FrameOf(s.base, SliceHeap.PageOf(x));
        if GiveSafe(s.zone, i) { GiveTail(s.zone, i); }
      case Store(_, _) =>
      case Take(l) => GrabTail(s.zone, l);
      case Give(i) => GiveTail(s.zone, i);
    }
  }

  // Behind the table an event stores to the back link of record n and to nothing else, and only where it takes
  // frames: what Sparing asks about is all there is to ask.
  lemma StepTail(s: System, v: View, e: Event)
    requires Consistent(s, v) && Proper(s, v, e) && ReturnSafe(s, e)
    ensures Defined(s, v, e) && OnlySentinel(s.zone, Step(s, v, e).zone)
    ensures !e.Malloc? && !e.Take? ==> SameTail(s.zone, Step(s, v, e).zone)
  {
    StepAccounts(s, v, e);
    ConsistentOrderly(s, v);
    ZoneTail(s, v, e);
  }

  // After a proper event heap, zone and callers agree on who holds what, and no frame in use was overwritten,
  // exactly if the event was guarded.
  lemma StepExact(s: System, v: View, e: Event)
    requires Consistent(s, v) && Proper(s, v, e)
    ensures Defined(s, v, e)
    ensures Guarded(s, e) ==> Consistent(Step(s, v, e), StepView(s, v, e)) && !Overwrites(s, e)
    ensures !Guarded(s, e) ==> Ruined(Step(s, v, e)) || Overwrites(s, e)
  {
    StepAccounts(s, v, e);
    SparingExact(s, v, e);
  }
}
