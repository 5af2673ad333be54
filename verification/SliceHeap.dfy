// kmalloc and kfree up to 2048 bytes (kernel/kernel/kmm.c): eight chains of managers, one per slice size, the
// pages they manage, and the way back from an address to its allocator.

module SliceHeap {
  import opened SlicePage
  import opened SliceManager

  const CLASSES: nat := 8                  // PAGE_SLICE_LEVEL
  const MAX_ALLOC: nat := 1024 * PAGE_SIZE
  const HEADER_SIZE: nat := 12             // the fields of a manager in front of its allocators
  const ALLOCATOR_SIZE: nat := 10

  // slice_sizes
  function SizeOf(c: nat): (size: nat)
    requires c < CLASSES
    ensures IsClass(size)
  {
    [16, 32, 64, 128, 256, 512, 1024, 2048][c]
  }

  // ---- addresses ----

  function PageOf(x: nat): (page: nat)
    ensures page <= x < page + PAGE_SIZE && page % PAGE_SIZE == 0
  {
    x - x % PAGE_SIZE
  }

  // The address of allocator i of the manager at `a`.
  function AllocatorAt(a: nat, i: nat): nat {
    a + HEADER_SIZE + ALLOCATOR_SIZE * i
  }

  // How kfree finds the manager and the allocator's number in it.
  function IndexIn(allocator: nat): nat {
    var offset := allocator - PageOf(allocator);
    if offset < HEADER_SIZE then 0 else (offset - HEADER_SIZE) / ALLOCATOR_SIZE
  }

  lemma PageRecovered(page: nat, offset: nat)
    requires page % PAGE_SIZE == 0 && offset < PAGE_SIZE
    ensures PageOf(page + offset) == page && (page + offset) % PAGE_SIZE == offset
  {
  }

  // A manager fits in its page, and an allocator's address gives the manager and the number back.
  lemma AllocatorRecovered(a: nat, i: nat)
    requires a % PAGE_SIZE == 0 && i < COUNT
    ensures PageOf(AllocatorAt(a, i)) == a && IndexIn(AllocatorAt(a, i)) == i
  {
  }

  // No further allocator would fit.
  lemma NoMoreAllocators(a: nat)
    ensures AllocatorAt(a, COUNT) <= a + PAGE_SIZE < AllocatorAt(a, COUNT + 1)
  {
  }

  // ---- the state ----

  // `chains` lists, for each class, the addresses of its managers in link order; `allocator` is the allocator
  // address recorded in the frame of each page in use.
  datatype Heap = Heap(fix: bool, chains: seq<seq<nat>>, managers: map<nat, Manager>, allocator: map<nat, nat>)

  // What the frame allocator provides: a page with its contents, and a page for a manager if one is needed.
  datatype Supply = Supply(page: nat, bytes: seq<nat>, managerPage: nat)

  datatype Answer = Refused | WholePages | Slice(address: nat)

  // ---- kmalloc ----

  // The first class whose slices are large enough.
  function ClassFrom(n: nat, c: nat): (r: nat)
    requires c < CLASSES && n <= SizeOf(CLASSES - 1)
    ensures c <= r < CLASSES && n <= SizeOf(r)
    ensures forall d :: c <= d < r ==> SizeOf(d) < n
    decreases CLASSES - c
  {
    if n <= SizeOf(c) then c else ClassFrom(n, c + 1)
  }

  // The first manager of a chain with room.
  function Seek(managers: map<nat, Manager>, chain: seq<nat>): (k: nat)
    requires forall a :: a in chain ==> a in managers
    ensures k <= |chain| && (k < |chain| ==> HasRoom(managers[chain[k]]))
    decreases |chain|
  {
    if chain == [] || HasRoom(managers[chain[0]]) then 0 else 1 + Seek(managers, chain[1..])
  }

  predicate Known(h: Heap) {
    |h.chains| == CLASSES && forall c :: 0 <= c < CLASSES ==> forall a :: a in h.chains[c] ==> a in h.managers
  }

  // The allocator a request is served by.
  function Chosen(m: Manager): nat {
    if Head(m.lists, PARTIAL) != COUNT then Head(m.lists, PARTIAL) else Head(m.lists, FREE)
  }

  predicate Ready(m: Manager) {
    && IsClass(m.size) && HasRoom(m) && |m.slabs| == COUNT == |m.target| && Chosen(m) < COUNT
    && (Head(m.lists, PARTIAL) != COUNT ==> CanTake(m.slabs[Chosen(m)]) && m.slabs[Chosen(m)].size == m.size)
  }

  // A slice from the manager at `a`.
  function Serve(h: Heap, a: nat, s: Supply): (r: (Heap, nat))
    requires a in h.managers && Ready(h.managers[a]) && |s.bytes| == PAGE_SIZE
  {
    var m := h.managers[a];
    var i := Chosen(m);
    if Head(m.lists, PARTIAL) != COUNT then
      (h.(managers := h.managers[a := TakeSlice(m, i)]), m.target[i] + SliceAt(m.size, NextSlot(m.slabs[i])))
    else
      (h.(managers := h.managers[a := StartPage(m, i, s.page, s.bytes)],
          allocator := h.allocator[s.page := AllocatorAt(a, i)]),
       s.page + SliceAt(m.size, 0))
  }

  // A new manager at the head of a chain.
  function Extended(h: Heap, c: nat, a: nat): Heap
    requires |h.chains| == CLASSES && c < CLASSES
  {
    h.(chains := h.chains[c := [a] + h.chains[c]], managers := h.managers[a := NewManager(SizeOf(c), h.fix)])
  }

  // The heap and the manager that serve a request of class c.
  function Prepared(h: Heap, c: nat, s: Supply): (r: (Heap, nat))
    requires Known(h) && c < CLASSES
  {
    var k := Seek(h.managers, h.chains[c]);
    if k < |h.chains[c]| then (h, h.chains[c][k]) else (Extended(h, c, s.managerPage), s.managerPage)
  }

  // ---- the invariant ----

  // The frames' allocator fields and the allocators' pages point at each other.
  ghost predicate Linked(h: Heap) {
    && (forall a, i :: a in h.managers && 0 <= i < COUNT == |h.managers[a].target| && h.managers[a].target[i] != 0 ==>
          h.managers[a].target[i] in h.allocator && h.allocator[h.managers[a].target[i]] == AllocatorAt(a, i))
    && (forall b :: b in h.allocator ==> b != 0 && b % PAGE_SIZE == 0 && Attached(h, b))
  }

  // The page b belongs to the allocator its frame names.
  ghost predicate Attached(h: Heap, b: nat)
    requires b in h.allocator
  {
    var a, i := PageOf(h.allocator[b]), IndexIn(h.allocator[b]);
    && a in h.managers && i < COUNT == |h.managers[a].target| && h.managers[a].target[i] == b
    && h.allocator[b] == AllocatorAt(a, i)
  }

  // Every manager has a page of its own.
  ghost predicate Housed(h: Heap) {
    forall a :: a in h.managers ==>
      a != 0 && a % PAGE_SIZE == 0 && a !in h.allocator && |h.managers[a].target| == COUNT
  }

  ghost predicate ManagersInOrder(h: Heap, free: map<nat, set<nat>>) {
    forall a :: a in h.managers ==> ManagerInOrder(h, a, free)
  }

  ghost predicate ManagerInOrder(h: Heap, a: nat, free: map<nat, set<nat>>)
    requires a in h.managers
  {
    h.managers[a].fix == h.fix && InOrder(h.managers[a], free)
  }

  ghost predicate ChainsInOrder(h: Heap) {
    && Known(h)
    && (forall c, a :: 0 <= c < CLASSES && a in h.chains[c] ==> h.managers[a].size == SizeOf(c))
  }

  ghost predicate Good(h: Heap, free: map<nat, set<nat>>) {
    ChainsInOrder(h) && Housed(h) && Linked(h) && ManagersInOrder(h, free) && free.Keys == h.allocator.Keys
  }

  // The pages of a supply are not in use.
  ghost predicate Fresh(h: Heap, s: Supply) {
    && |s.bytes| == PAGE_SIZE && s.page != s.managerPage
    && s.page != 0 && s.page % PAGE_SIZE == 0 && s.page !in h.allocator && s.page !in h.managers
    && s.managerPage != 0 && s.managerPage % PAGE_SIZE == 0
    && s.managerPage !in h.allocator && s.managerPage !in h.managers
  }

  // ---- changing one allocator ----

  // The pages of different allocators differ.
  lemma OwnerUnique(h: Heap, a: nat, i: nat, a': nat, i': nat)
    requires Linked(h) && a in h.managers && a' in h.managers && a % PAGE_SIZE == 0 && a' % PAGE_SIZE == 0
    requires |h.managers[a].target| == COUNT == |h.managers[a'].target| && i < COUNT && i' < COUNT
    requires h.managers[a].target[i] == h.managers[a'].target[i'] != 0
    ensures a == a' && i == i'
  {
    AllocatorRecovered(a, i);
    AllocatorRecovered(a', i');
  }

  ghost predicate SameFree(free: map<nat, set<nat>>, after: map<nat, set<nat>>, page: nat) {
    page in free && page in after && after[page] == free[page]
  }

  lemma InOrderFrame(m: Manager, free: map<nat, set<nat>>, after: map<nat, set<nat>>)
    requires InOrder(m, free)
    requires forall i :: 0 <= i < COUNT && m.target[i] != 0 ==> SameFree(free, after, m.target[i])
    ensures InOrder(m, after)
  {
  }

  // `r` is `h` with allocator i of the manager at `a` changed: it keeps its page, gets one or loses it.
  ghost predicate Changed(h: Heap, r: Heap, a: nat, i: nat) {
    && a in h.managers && a in r.managers && i < COUNT
    && r == h.(managers := h.managers[a := r.managers[a]], allocator := r.allocator)
    && OnlyAt(h.managers[a], r.managers[a], i)
    && var was, now := h.managers[a].target[i], r.managers[a].target[i];
    && (now == was || now == 0 || was == 0)
    && (now != 0 && now != was ==> now % PAGE_SIZE == 0 && now !in h.allocator && now !in h.managers)
    && r.allocator == if now != 0 then h.allocator[now := AllocatorAt(a, i)] else h.allocator - {was}
  }

  ghost predicate OthersFree(h: Heap, r: Heap, page: nat, free: map<nat, set<nat>>, after: map<nat, set<nat>>) {
    && after.Keys == r.allocator.Keys
    && forall b :: b in r.allocator && b != page ==> SameFree(free, after, b)
  }

  lemma ChangedManager(h: Heap, r: Heap, a: nat, i: nat, free: map<nat, set<nat>>, after: map<nat, set<nat>>, b: nat,
          j: nat)
    requires Linked(h) && Housed(h) && Changed(h, r, a, i) && b in r.managers && b != a
    requires OthersFree(h, r, r.managers[a].target[i], free, after)
    requires j < COUNT && h.managers[b].target[j] != 0
    ensures SameFree(free, after, h.managers[b].target[j])
  {
    if h.managers[b].target[j] == h.managers[a].target[i] { OwnerUnique(h, a, i, b, j); }
  }

  lemma OtherManager(h: Heap, r: Heap, a: nat, i: nat, free: map<nat, set<nat>>, after: map<nat, set<nat>>, b: nat)
    requires Linked(h) && Housed(h) && Changed(h, r, a, i) && b in r.managers && b != a
    requires OthersFree(h, r, r.managers[a].target[i], free, after)
    requires ManagerInOrder(h, b, free)
    ensures ManagerInOrder(r, b, after)
  {
    forall j | 0 <= j < COUNT && h.managers[b].target[j] != 0 {
      ChangedManager(h, r, a, i, free, after, b, j);
    }
    InOrderFrame(h.managers[b], free, after);
  }

  lemma ChangedManagers(h: Heap, r: Heap, a: nat, i: nat, free: map<nat, set<nat>>, after: map<nat, set<nat>>)
    requires Linked(h) && Housed(h) && Changed(h, r, a, i) && ManagersInOrder(h, free)
    requires ManagerInOrder(r, a, after)
    requires OthersFree(h, r, r.managers[a].target[i], free, after)
    ensures ManagersInOrder(r, after)
  {
    forall b | b in r.managers && b != a {
      OtherManager(h, r, a, i, free, after, b);
    }
  }

  lemma ChangedTargets(h: Heap, r: Heap, a: nat, i: nat, b: nat, j: nat)
    requires Linked(h) && Housed(h) && Changed(h, r, a, i)
    requires b in r.managers && j < COUNT && |r.managers[b].target| == COUNT && r.managers[b].target[j] != 0
    ensures r.managers[b].target[j] in r.allocator && r.allocator[r.managers[b].target[j]] == AllocatorAt(b, j)
  {
    if b != a || j != i {
      assert r.managers[b].target[j] == h.managers[b].target[j];
      if h.managers[b].target[j] == h.managers[a].target[i] { OwnerUnique(h, a, i, b, j); }
    }
  }

  lemma ChangedAttached(h: Heap, r: Heap, a: nat, i: nat, b: nat)
    requires Linked(h) && Housed(h) && Changed(h, r, a, i) && b in r.allocator
    ensures b != 0 && b % PAGE_SIZE == 0 && Attached(r, b)
  {
    AllocatorRecovered(a, i);
    if b in h.allocator {
      assert Attached(h, b);
    }
  }

  lemma ChangedLinked(h: Heap, r: Heap, a: nat, i: nat)
    requires Linked(h) && Housed(h) && Changed(h, r, a, i)
    ensures Linked(r) && Housed(r)
  {
    forall b, j | b in r.managers && 0 <= j < COUNT == |r.managers[b].target| && r.managers[b].target[j] != 0
      ensures r.managers[b].target[j] in r.allocator && r.allocator[r.managers[b].target[j]] == AllocatorAt(b, j)
    {
      ChangedTargets(h, r, a, i, b, j);
    }
    forall b | b in r.allocator ensures b != 0 && b % PAGE_SIZE == 0 && Attached(r, b) {
      ChangedAttached(h, r, a, i, b);
    }
  }

  lemma ChangedGood(h: Heap, r: Heap, a: nat, i: nat, free: map<nat, set<nat>>, after: map<nat, set<nat>>)
    requires Good(h, free) && Changed(h, r, a, i) && InOrder(r.managers[a], after)
    requires OthersFree(h, r, r.managers[a].target[i], free, after)
    ensures Good(r, after)
  {
    ChangedLinked(h, r, a, i);
    ChangedManagers(h, r, a, i, free, after);
  }

  // ---- live slices ----

  // What the allocator of a page records about it.
  function RecordOf(h: Heap, page: nat): Slab {
    if page in h.allocator && PageOf(h.allocator[page]) in h.managers &&
       IndexIn(h.allocator[page]) < |h.managers[PageOf(h.allocator[page])].slabs|
    then h.managers[PageOf(h.allocator[page])].slabs[IndexIn(h.allocator[page])]
    else Slab(16, false, 0, 0, [])
  }

  // Slot k of a page is handed out.
  ghost predicate Live(h: Heap, free: map<nat, set<nat>>, page: nat, k: nat) {
    && page in h.allocator && page in free
    && IsClass(RecordOf(h, page).size) && k < Slots(RecordOf(h, page).size) && k !in free[page]
  }

  function AddressOf(h: Heap, page: nat, k: nat): nat {
    page + SliceAt(RecordOf(h, page).size, k)
  }

  lemma RecordFound(h: Heap, free: map<nat, set<nat>>, page: nat)
    requires Good(h, free) && page in h.allocator
    ensures var a, i := PageOf(h.allocator[page]), IndexIn(h.allocator[page]);
      && a in h.managers && i < COUNT && |h.managers[a].slabs| == COUNT == |h.managers[a].target|
      && h.managers[a].target[i] == page != 0 && page % PAGE_SIZE == 0
      && RecordOf(h, page) == h.managers[a].slabs[i] && h.allocator[page] == AllocatorAt(a, i)
      && page in free && PageHolds(h.managers[a], i, free[page])
  {
    assert Attached(h, page);
    assert ManagerInOrder(h, PageOf(h.allocator[page]), free);
  }

  lemma OwnRecord(h: Heap, a: nat, i: nat)
    requires Linked(h) && Housed(h) && a in h.managers && i < COUNT == |h.managers[a].slabs|
    requires h.managers[a].target[i] != 0
    ensures h.managers[a].target[i] in h.allocator && RecordOf(h, h.managers[a].target[i]) == h.managers[a].slabs[i]
  {
  }

  // Two live slices do not overlap, and both lie in their pages behind the allocator pointer.
  lemma LiveApart(h: Heap, free: map<nat, set<nat>>, page: nat, k: nat, page': nat, k': nat)
    requires Good(h, free) && Live(h, free, page, k) && Live(h, free, page', k') && (page != page' || k != k')
    ensures var x, x' := AddressOf(h, page, k), AddressOf(h, page', k');
      && page <= x && x + RecordOf(h, page).size <= page + PAGE_SIZE
      && (x + RecordOf(h, page).size <= x' || x' + RecordOf(h, page').size <= x)
  {
    SlicesDiffer(page, RecordOf(h, page).size, k, page', RecordOf(h, page').size, k');
  }

  lemma SlicesDiffer(page: nat, size: nat, k: nat, page': nat, size': nat, k': nat)
    requires page % PAGE_SIZE == 0 && page' % PAGE_SIZE == 0 && IsClass(size) && IsClass(size')
    requires k < Slots(size) && k' < Slots(size') && (page != page' || k != k') && (page == page' ==> size == size')
    ensures var x, x' := page + SliceAt(size, k), page' + SliceAt(size', k');
      x + size <= page + PAGE_SIZE && (x + size <= x' || x' + size' <= x)
  {
    SliceInPage(size, k);
    SliceInPage(size', k');
    if page == page' {
      if k < k' { SlicesApart(size, k, k'); } else { SlicesApart(size, k', k); }
    } else if page < page' {
      PagesApart(page, page');
    } else {
      PagesApart(page', page);
    }
  }

  lemma PagesApart(page: nat, page': nat)
    requires page % PAGE_SIZE == 0 && page' % PAGE_SIZE == 0 && page < page'
    ensures page + PAGE_SIZE <= page'
  {
  }

  // Pages of other allocators are recorded as before.
  lemma ElsewhereSame(h: Heap, r: Heap, a: nat, i: nat, page: nat)
    requires Linked(h) && Housed(h) && Changed(h, r, a, i)
    requires page != h.managers[a].target[i] && page != r.managers[a].target[i]
    ensures page in r.allocator <==> page in h.allocator
    ensures RecordOf(r, page) == RecordOf(h, page)
  {
  }

  // ---- kmalloc ----

  // The slice Serve hands out, and what is free afterwards.
  function ServedPage(m: Manager, s: Supply): nat
    requires Ready(m)
  {
    if Head(m.lists, PARTIAL) != COUNT then m.target[Chosen(m)] else s.page
  }

  function ServedSlot(m: Manager): nat
    requires Ready(m)
  {
    if Head(m.lists, PARTIAL) != COUNT then NextSlot(m.slabs[Chosen(m)]) else 0
  }

  ghost function FreeAfter(m: Manager, s: Supply, free: map<nat, set<nat>>): map<nat, set<nat>>
    requires Ready(m)
  {
    var page := ServedPage(m, s);
    if Head(m.lists, PARTIAL) == COUNT then free[page := Above0(Slots(m.size))]
    else if page in free then free[page := free[page] - {ServedSlot(m)}] else free
  }

  lemma ReadyToServe(m: Manager, free: map<nat, set<nat>>)
    requires InOrder(m, free) && HasRoom(m)
    ensures Ready(m)
  {
  }

  ghost predicate Served(h: Heap, a: nat, s: Supply) {
    && a in h.managers && Ready(h.managers[a]) && |s.bytes| == PAGE_SIZE
    && s.page != 0 && s.page % PAGE_SIZE == 0 && s.page !in h.allocator && s.page !in h.managers
  }

  lemma ServeChanges(h: Heap, a: nat, s: Supply)
    requires Linked(h) && Housed(h) && Served(h, a, s)
    requires ChosenFits(h.managers[a])
    ensures Changed(h, Serve(h, a, s).0, a, Chosen(h.managers[a]))
  {
    var m := h.managers[a];
    var i := Chosen(m);
    if Head(m.lists, PARTIAL) != COUNT {
      assert h.allocator[m.target[i] := AllocatorAt(a, i)] == h.allocator;
    }
  }

  // The chosen allocator has a page exactly if it comes from the partially full list.
  predicate ChosenFits(m: Manager)
    requires Ready(m)
  {
    Head(m.lists, PARTIAL) != COUNT <==> m.target[Chosen(m)] != 0
  }

  lemma ServeManager(m: Manager, s: Supply, free: map<nat, set<nat>>)
    requires InOrder(m, free) && Ready(m) && s.page != 0 && s.page !in m.target && |s.bytes| == PAGE_SIZE
    ensures ChosenFits(m)
    ensures ServedPage(m, s) != s.page ==> ServedPage(m, s) in free
    ensures InOrder(
      if Head(m.lists, PARTIAL) != COUNT then TakeSlice(m, Chosen(m)) else StartPage(m, Chosen(m), s.page, s.bytes),
      FreeAfter(m, s, free))
  {
    if Head(m.lists, PARTIAL) != COUNT {
      TakeSliceKeeps(m, free);
    } else {
      StartPageKeeps(m, s.page, s.bytes, free);
    }
  }

  lemma NotTarget(h: Heap, a: nat, page: nat)
    requires Linked(h) && Housed(h) && a in h.managers && page != 0 && page !in h.allocator
    ensures page !in h.managers[a].target
  {
  }

  // Serving a request keeps the heap in order.
  lemma ServeKeeps(h: Heap, a: nat, s: Supply, free: map<nat, set<nat>>)
    requires Good(h, free) && Served(h, a, s)
    ensures ChosenFits(h.managers[a]) && Changed(h, Serve(h, a, s).0, a, Chosen(h.managers[a]))
    ensures Good(Serve(h, a, s).0, FreeAfter(h.managers[a], s, free))
  {
    assert ManagerInOrder(h, a, free);
    NotTarget(h, a, s.page);
    ServeManager(h.managers[a], s, free);
    ServeChanges(h, a, s);
    ServeOthers(h, a, s, free);
    ChangedGood(h, Serve(h, a, s).0, a, Chosen(h.managers[a]), free, FreeAfter(h.managers[a], s, free));
  }

  lemma ServeOthers(h: Heap, a: nat, s: Supply, free: map<nat, set<nat>>)
    requires Linked(h) && Housed(h) && Served(h, a, s) && ChosenFits(h.managers[a]) && free.Keys == h.allocator.Keys
    ensures var r := Serve(h, a, s).0;
      && a in r.managers && Chosen(h.managers[a]) < |r.managers[a].target|
      && OthersFree(h, r, r.managers[a].target[Chosen(h.managers[a])], free, FreeAfter(h.managers[a], s, free))
  {
  }
}
