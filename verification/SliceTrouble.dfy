// A short run of the shipped kmalloc and kfree that loses a page's free slices and then puts one allocator into
// two lists at once.

module SliceTrouble {
  import opened SlicePage
  import opened SliceManager
  import opened SliceHeap
  import SliceCalls
  import SliceRuns

  // ---- one page and its manager ----

  // A page of 16-byte slices, by the fields of its allocator and the headers of its first two slots.
  ghost predicate Looks(p: Slab, first: nat, avail: nat, h0: nat, h1: nat) {
    && Whole(p) && p.size == 16 && !p.fix && p.first == first && p.avail == avail
    && Headers(p)[0] == h0 && Headers(p)[1] == h1
  }

  lemma LooksNew(bytes: seq<nat>)
    requires |bytes| == PAGE_SIZE
    ensures Looks(NewPage(16, false, bytes), 1, 239, SLICE_END, 2)
  {
    var p := Slab(16, false, 0, 240, bytes);
    InitialHeaders(p, 0);
    InitialHeaders(p, 1);
    FirstTaken(InitLinked(p), NewPage(16, false, bytes));
  }

  // The manager with allocator 0 in charge of the page, and the other allocators free.
  ghost predicate Stands(m: Manager, page: nat, partial: nat, full: nat) {
    && m.size == 16 && |m.slabs| == COUNT == |m.target| && |m.lists.prev| == COUNT == |m.lists.next|
    && m.lists.heads == [1, partial, full] && m.target[0] == page
    && m.lists.prev[0] == COUNT && m.lists.next[0] == COUNT
  }

  lemma StartStands(page: nat, bytes: seq<nat>)
    requires |bytes| == PAGE_SIZE
    ensures Ready(NewManager(16, false)) && Head(NewManager(16, false).lists, PARTIAL) == COUNT
    ensures Chosen(NewManager(16, false)) == 0
    ensures var m := StartPage(NewManager(16, false), 0, page, bytes);
      Stands(m, page, 0, COUNT) && Looks(m.slabs[0], 1, 239, SLICE_END, 2)
  {
    LooksNew(bytes);
  }

  lemma SecondStands(m: Manager, page: nat)
    requires Stands(m, page, 0, COUNT) && Looks(m.slabs[0], 1, 239, SLICE_END, 2)
    ensures Ready(m) && Chosen(m) == 0 && NextSlot(m.slabs[0]) == 1 && CanTake(m.slabs[0])
    ensures var r := TakeSlice(m, 0);
      Stands(r, page, 0, COUNT) && Looks(r.slabs[0], 2, 238, SLICE_END, SLICE_END)
  {
  }

  lemma FreedStands(m: Manager, page: nat, partial: nat, full: nat, first: nat, avail: nat, k: nat)
    requires Stands(m, page, partial, full) && Looks(m.slabs[0], first, avail, SLICE_END, SLICE_END) && k < 2
    requires 0 < avail < 239
    ensures SliceAt(16, k) < PAGE_SIZE && ADDRESS_SIZE < SliceAt(16, k) && SlotOf(16, SliceAt(16, k)) == k
    ensures var r := Freed(m, 0, GiveBack(m.slabs[0], SliceAt(16, k)));
      Stands(r, page, partial, full) && Looks(r.slabs[0], k, avail + 1, SLICE_END, SLICE_END)
  {
    GiveBackReady(16, k);
  }

  // With 238 slices free the page is reported full.
  lemma ThirdStands(m: Manager, page: nat)
    requires Stands(m, page, 0, COUNT) && Looks(m.slabs[0], 0, 239, SLICE_END, SLICE_END)
    ensures Ready(m) && Chosen(m) == 0 && NextSlot(m.slabs[0]) == 0 && CanTake(m.slabs[0])
    ensures var r := TakeSlice(m, 0);
      Stands(r, page, COUNT, 0) && Looks(r.slabs[0], SLICE_END, 238, SLICE_END, SLICE_END)
  {
  }

  lemma LastStands(m: Manager, page: nat)
    requires Stands(m, page, COUNT, 0) && Looks(m.slabs[0], 1, 239, SLICE_END, SLICE_END)
    ensures SliceAt(16, 0) < PAGE_SIZE && ADDRESS_SIZE < SliceAt(16, 0) && SlotOf(16, SliceAt(16, 0)) == 0
    ensures Freed(m, 0, GiveBack(m.slabs[0], SliceAt(16, 0))).lists.heads == [0, COUNT, 0]
  {
    GiveBackReady(16, 0);
  }

  // ---- the heap ----

  // The page is in use, by allocator 0 of the manager at `a`.
  predicate On(h: Heap, a: nat, page: nat) {
    && a in h.managers && a % PAGE_SIZE == 0 && page % PAGE_SIZE == 0
    && page in h.allocator && h.allocator[page] == AllocatorAt(a, 0)
  }

  lemma OnFound(h: Heap, a: nat, page: nat, o: nat)
    requires On(h, a, page) && o < PAGE_SIZE
    ensures PageOf(page + o) == page && PageOf(h.allocator[page]) == a && IndexIn(h.allocator[page]) == 0
    ensures |h.managers[a].slabs| > 0 ==> RecordOf(h, page) == h.managers[a].slabs[0]
  {
    PageRecovered(page, o);
    AllocatorRecovered(a, 0);
  }

  lemma KfreeOn(h: Heap, a: nat, page: nat, k: nat)
    requires On(h, a, page) && k < 240 && SliceAt(16, k) < PAGE_SIZE && ADDRESS_SIZE < SliceAt(16, k)
    requires SlotOf(16, SliceAt(16, k)) == k
    requires h.managers[a].size == 16 && |h.managers[a].slabs| == COUNT == |h.managers[a].target|
    requires h.managers[a].slabs[0].size == 16 && Whole(h.managers[a].slabs[0])
    ensures var x := page + SliceAt(16, k);
      && SliceCalls.CanFree(h, x)
      && var r := SliceCalls.Kfree(h, x);
         a in r.managers && r.managers[a] == Freed(h.managers[a], 0, GiveBack(h.managers[a].slabs[0], SliceAt(16, k)))
    ensures h.managers[a].slabs[0].avail + 1 < 240 ==> On(SliceCalls.Kfree(h, page + SliceAt(16, k)), a, page)
  {
    OnFound(h, a, page, SliceAt(16, k));
  }

  // ---- from init_kmm on ----

  lemma {:induction false} FirstManager(pages: seq<nat>, c: nat)
    requires SliceRuns.ManagerPages(pages) && 0 < c <= CLASSES
    ensures var h := SliceRuns.Initial(false, pages, c);
      pages[0] in h.managers && h.managers[pages[0]] == NewManager(16, false) && h.chains[0] == [pages[0]]
  {
    if c == 1 {
      assert SliceRuns.Initial(false, pages, 0).chains[0] == [];
    } else {
      FirstManager(pages, c - 1);
    }
  }

  lemma PreparedFor16(h: Heap, a: nat, s: Supply)
    requires Known(h) && h.chains[0] == [a] && HasRoom(h.managers[a])
    ensures ClassFrom(16, 0) == 0 && Prepared(h, 0, s) == (h, a)
  {
    assert Seek(h.managers, h.chains[0]) == 0;
  }

  lemma InUseKnown(h: Heap)
    requires SliceCalls.InUse(h)
    ensures Known(h)
  {
  }

  lemma KmallocOf16(h: Heap, a: nat, s: Supply)
    requires SliceCalls.InUse(h) && Fresh(h, s) && h.chains != [] && h.chains[0] == [a]
    requires a in h.managers && Ready(h.managers[a])
    ensures SliceCalls.Kmalloc(h, 16, s) == (Serve(h, a, s).0, Slice(Serve(h, a, s).1))
  {
    InUseKnown(h);
    PreparedFor16(h, a, s);
  }

  lemma ServeFirst(h: Heap, a: nat, s: Supply)
    requires a in h.managers && h.managers[a] == NewManager(16, false) && a % PAGE_SIZE == 0
    requires |s.bytes| == PAGE_SIZE && s.page % PAGE_SIZE == 0
    ensures Ready(h.managers[a])
    ensures var (r, x) := Serve(h, a, s);
      && r.chains == h.chains && x == s.page + SliceAt(16, 0) && On(r, a, s.page)
      && Stands(r.managers[a], s.page, 0, COUNT) && Looks(r.managers[a].slabs[0], 1, 239, SLICE_END, 2)
  {
    StartStands(s.page, s.bytes);
  }

  lemma ServeNext(h: Heap, a: nat, page: nat, s: Supply, k: nat)
    requires On(h, a, page) && |s.bytes| == PAGE_SIZE && Ready(h.managers[a])
    requires Head(h.managers[a].lists, PARTIAL) == 0 == Chosen(h.managers[a]) && h.managers[a].target[0] == page
    requires h.managers[a].size == 16 && NextSlot(h.managers[a].slabs[0]) == k && CanTake(h.managers[a].slabs[0])
    ensures var (r, x) := Serve(h, a, s);
      && r.chains == h.chains && x == page + SliceAt(16, k) && On(r, a, page)
      && r.managers[a] == TakeSlice(h.managers[a], 0)
  {
  }

  // Two slices of the page are in use, and slots 2 to 239 are chained behind them.
  ghost predicate TwoOut(h: Heap, a: nat, page: nat) {
    && On(h, a, page) && Stands(h.managers[a], page, 0, COUNT)
    && Looks(h.managers[a].slabs[0], 2, 238, SLICE_END, SLICE_END)
  }

  lemma FirstKmalloc(pages: seq<nat>, s: Supply)
    requires SliceRuns.ManagerPages(pages) && Fresh(SliceRuns.Initial(false, pages, CLASSES), s)
    ensures var h, a := SliceRuns.Initial(false, pages, CLASSES), pages[0];
      && SliceCalls.InUse(h)
      && var (r, x) := SliceCalls.Kmalloc(h, 16, s);
      && x == Slice(s.page + SliceAt(16, 0)) && r.chains == h.chains && h.chains[0] == [a] && On(r, a, s.page)
      && Stands(r.managers[a], s.page, 0, COUNT) && Looks(r.managers[a].slabs[0], 1, 239, SLICE_END, 2)
  {
    var h, a := SliceRuns.Initial(false, pages, CLASSES), pages[0];
    SliceRuns.InitialGood(false, pages, CLASSES);
    FirstManager(pages, CLASSES);
    ServeFirst(h, a, s);
    KmallocOf16(h, a, s);
  }

  lemma SecondKmalloc(h: Heap, a: nat, page: nat, t: Supply)
    requires SliceCalls.InUse(h) && Fresh(h, t) && h.chains != [] && h.chains[0] == [a] && On(h, a, page)
    requires Stands(h.managers[a], page, 0, COUNT) && Looks(h.managers[a].slabs[0], 1, 239, SLICE_END, 2)
    ensures TwoOut(SliceCalls.Kmalloc(h, 16, t).0, a, page)
  {
    SecondStands(h.managers[a], page);
    ServeNext(h, a, page, t, 1);
    KmallocOf16(h, a, t);
  }

  // ---- the guard fails, and the heap is lost ----

  const NOTHING_HELD := SliceRuns.Client(map[], map[], {})

  // The first slice of the page is held, and giving it back finds the guard unmet.
  ghost predicate Trapped(h: Heap, c: SliceRuns.Client, x: nat) {
    && x in c.live && !SliceCalls.FreeSafe(h, PageOf(x))
    && SliceCalls.CanFree(h, x) && !SliceCalls.InUse(SliceCalls.Kfree(h, x))
  }

  lemma TwoOutUnsafe(h: Heap, a: nat, page: nat, x: nat)
    requires TwoOut(h, a, page) && x == page + SliceAt(16, 0)
    ensures !SliceCalls.FreeSafe(h, PageOf(x))
  {
    GiveBackReady(16, 0);
    OnFound(h, a, page, SliceAt(16, 0));
  }

  lemma UnsafeTraps(h: Heap, c: SliceRuns.Client, x: nat)
    requires SliceRuns.Agreed(h, c) && x in c.live && !SliceCalls.FreeSafe(h, PageOf(x))
    ensures Trapped(h, c, x)
  {
    var free :| SliceRuns.Agrees(h, free, c);
    SliceRuns.ReleaseKeeps(h, free, c, x);
  }

  // The request for 16 bytes is allowed, and leads there.
  ghost predicate StepsTo(h: Heap, c: SliceRuns.Client, s: Supply, r: Heap, d: SliceRuns.Client) {
    && SliceCalls.InUse(h) && SliceRuns.Allowed(h, c, SliceRuns.Allocate(16, s))
    && r == SliceRuns.StepHeap(h, SliceRuns.Allocate(16, s))
    && d == SliceRuns.StepClient(h, c, SliceRuns.Allocate(16, s))
  }

  lemma OneRequest(h: Heap, c: SliceRuns.Client, s: Supply) returns (r: Heap, d: SliceRuns.Client)
    requires SliceRuns.Agreed(h, c) && Fresh(h, s)
    ensures StepsTo(h, c, s, r, d) && SliceRuns.Agreed(r, d) && SliceCalls.InUse(r)
    ensures r == SliceCalls.Kmalloc(h, 16, s).0
    ensures forall y :: y in c.live || SliceCalls.Kmalloc(h, 16, s).1 == Slice(y) ==> y in d.live
  {
    SliceRuns.StepKeeps(h, c, SliceRuns.Allocate(16, s));
    r, d := SliceRuns.StepHeap(h, SliceRuns.Allocate(16, s)), SliceRuns.StepClient(h, c, SliceRuns.Allocate(16, s));
  }

  // From init_kmm on, two requests for 16 bytes are allowed, and lead to a heap in which giving back the first
  // slice finds the guard unmet and leaves the heap out of order.
  lemma ChainTrouble(pages: seq<nat>, h0: Heap, s: Supply, t: Supply)
    returns (h1: Heap, c1: SliceRuns.Client, h: Heap, c: SliceRuns.Client)
    requires SliceRuns.ManagerPages(pages) && h0 == SliceRuns.Initial(false, pages, CLASSES)
    requires SliceCalls.InUse(h0) && Fresh(h0, s) && Fresh(SliceCalls.Kmalloc(h0, 16, s).0, t)
    ensures StepsTo(h0, NOTHING_HELD, s, h1, c1) && StepsTo(h1, c1, t, h, c)
    ensures TwoOut(h, pages[0], s.page) && Trapped(h, c, s.page + SliceAt(16, 0))
  {
    var x := s.page + SliceAt(16, 0);
    SliceRuns.InitialAgreed(false, pages);
    FirstKmalloc(pages, s);
    h1, c1 := OneRequest(h0, NOTHING_HELD, s);
    SecondKmalloc(h1, pages[0], s.page, t);
    h, c := OneRequest(h1, c1, t);
    TwoOutUnsafe(h, pages[0], s.page, x);
    UnsafeTraps(h, c, x);
  }

  // ---- what the code does from there ----

  ghost predicate Chain(h: Heap, a: nat, page: nat, partial: nat, full: nat, first: nat, avail: nat) {
    && On(h, a, page) && Stands(h.managers[a], page, partial, full)
    && Looks(h.managers[a].slabs[0], first, avail, SLICE_END, SLICE_END)
  }

  lemma ChainFreed(h: Heap, a: nat, page: nat, partial: nat, full: nat, first: nat, avail: nat, k: nat)
    requires Chain(h, a, page, partial, full, first, avail) && k < 2 && 0 < avail < 239
    ensures SliceCalls.CanFree(h, page + SliceAt(16, k))
    ensures Chain(SliceCalls.Kfree(h, page + SliceAt(16, k)), a, page, partial, full, k, avail + 1)
  {
    FreedStands(h.managers[a], page, partial, full, first, avail, k);
    KfreeOn(h, a, page, k);
  }

  // Give back the first slice and allocate one: the page counts as full, and 238 slices are lost.
  lemma SlicesLost(h: Heap, a: nat, page: nat, t: Supply)
    requires Chain(h, a, page, 0, COUNT, 0, 239) && |t.bytes| == PAGE_SIZE
    ensures Ready(h.managers[a]) && Serve(h, a, t).1 == page + SliceAt(16, 0)
    ensures Chain(Serve(h, a, t).0, a, page, COUNT, 0, SLICE_END, 238)
  {
    ThirdStands(h.managers[a], page);
    ServeNext(h, a, page, t, 0);
  }

  // Give back the second slice and the first again: allocator 0 heads the free and the full list.
  lemma TwoLists(h: Heap, a: nat, page: nat)
    requires Chain(h, a, page, COUNT, 0, 1, 239)
    ensures SliceCalls.CanFree(h, page + SliceAt(16, 0))
    ensures var r := SliceCalls.Kfree(h, page + SliceAt(16, 0));
      a in r.managers && Head(r.managers[a].lists, FREE) == 0 == Head(r.managers[a].lists, FULL)
  {
    LastStands(h.managers[a], page);
    KfreeOn(h, a, page, 0);
  }

  lemma ListTrouble(h: Heap, a: nat, page: nat, t: Supply) returns (h3: Heap, h4: Heap, h5: Heap, h6: Heap)
    requires TwoOut(h, a, page) && |t.bytes| == PAGE_SIZE
    ensures SliceCalls.CanFree(h, page + SliceAt(16, 0)) && h3 == SliceCalls.Kfree(h, page + SliceAt(16, 0))
    ensures a in h3.managers && Ready(h3.managers[a]) && Serve(h3, a, t) == (h4, page + SliceAt(16, 0))
    ensures Chain(h4, a, page, COUNT, 0, SLICE_END, 238)
    ensures SliceCalls.CanFree(h4, page + SliceAt(16, 1)) && h5 == SliceCalls.Kfree(h4, page + SliceAt(16, 1))
    ensures SliceCalls.CanFree(h5, page + SliceAt(16, 0)) && h6 == SliceCalls.Kfree(h5, page + SliceAt(16, 0))
    ensures a in h6.managers && Head(h6.managers[a].lists, FREE) == 0 == Head(h6.managers[a].lists, FULL)
  {
    ChainFreed(h, a, page, 0, COUNT, 2, 238, 0);
    h3 := SliceCalls.Kfree(h, page + SliceAt(16, 0));
    SlicesLost(h3, a, page, t);
    h4 := Serve(h3, a, t).0;
    ChainFreed(h4, a, page, COUNT, 0, SLICE_END, 238, 1);
    h5 := SliceCalls.Kfree(h4, page + SliceAt(16, 1));
    TwoLists(h5, a, page);
    h6 := SliceCalls.Kfree(h5, page + SliceAt(16, 0));
  }
}
