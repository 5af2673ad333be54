// Runs of kmalloc, kfree and writes to the slices: what the callers can rely on.

module SliceRuns {
  import opened SlicePage
  import opened SliceManager
  import opened SliceHeap
  import opened SliceCalls

  datatype Request = Allocate(n: nat, s: Supply) | Release(x: nat) | Store(y: nat, v: nat)

  // What a caller knows: the slices it holds with their sizes, the bytes written to them and not yet given
  // back, and the pages behind them.
  datatype Client = Client(live: map<nat, nat>, memory: map<nat, nat>, held: set<nat>)

  // ---- memory ----

  // Byte y belongs to slot k of the page.
  ghost predicate Owns(h: Heap, free: map<nat, set<nat>>, page: nat, k: nat, y: nat) {
    && Live(h, free, page, k)
    && AddressOf(h, page, k) <= y < AddressOf(h, page, k) + RecordOf(h, page).size
    && page <= y < page + PAGE_SIZE
  }

  function Reads(h: Heap, page: nat, y: nat): nat {
    if page <= y < page + |RecordOf(h, page).bytes| then RecordOf(h, page).bytes[y - page] else 0
  }

  lemma StaysReads(h: Heap, r: Heap, free: map<nat, set<nat>>, after: map<nat, set<nat>>, page: nat, k: nat, y: nat)
    requires Stays(h, r, free, after, page, k) && Owns(h, free, page, k, y)
    ensures Owns(r, after, page, k, y) && Reads(r, page, y) == Reads(h, page, y)
  {
  }

  // ---- the client's view ----

  ghost predicate Holding(h: Heap, free: map<nat, set<nat>>, x: nat, size: nat, page: nat, k: nat) {
    Live(h, free, page, k) && x == AddressOf(h, page, k) && size == RecordOf(h, page).size
  }

  ghost predicate HoldsSlice(h: Heap, free: map<nat, set<nat>>, x: nat, size: nat) {
    exists page, k :: Holding(h, free, x, size, page, k)
  }

  ghost predicate ReadsBack(h: Heap, free: map<nat, set<nat>>, y: nat, v: nat) {
    exists page, k :: Owns(h, free, page, k, y) && Reads(h, page, y) == v
  }

  // The slices in use are those the client holds.
  ghost predicate SlicesAgree(h: Heap, free: map<nat, set<nat>>, live: map<nat, nat>) {
    && (forall page, k :: Live(h, free, page, k) ==> AddressOf(h, page, k) in live)
    && (forall x :: x in live ==> HoldsSlice(h, free, x, live[x]))
  }

  ghost predicate MemoryAgrees(h: Heap, free: map<nat, set<nat>>, memory: map<nat, nat>) {
    forall y :: y in memory ==> ReadsBack(h, free, y, memory[y])
  }

  ghost predicate Agrees(h: Heap, free: map<nat, set<nat>>, c: Client) {
    Good(h, free) && SlicesAgree(h, free, c.live) && MemoryAgrees(h, free, c.memory) && h.allocator.Keys == c.held
  }

  ghost predicate Agreed(h: Heap, c: Client) {
    exists free :: Agrees(h, free, c)
  }

  // ---- writes ----

  function Written(h: Heap, y: nat, v: nat): Heap {
    var page := PageOf(y);
    if page in h.allocator && PageOf(h.allocator[page]) in h.managers then
      var a, i := PageOf(h.allocator[page]), IndexIn(h.allocator[page]);
      var m := h.managers[a];
      if i < |m.slabs| && y - page < |m.slabs[i].bytes| then
        h.(managers := h.managers[a := m.(slabs := m.slabs[i := WithByte(m.slabs[i], y - page, v)])])
      else h
    else h
  }

  // ---- steps ----

  function PagesOf(live: set<nat>): set<nat> {
    set x | x in live :: PageOf(x)
  }

  function Allocated(c: Client, x: nat, size: nat): Client {
    Client(c.live[x := size], c.memory, c.held + {PageOf(x)})
  }

  // The page goes back with its last slice.
  function Released(c: Client, x: nat): Client
    requires x in c.live
  {
    var live := c.live - {x};
    Client(live, map y | y in c.memory && !(x <= y < x + c.live[x]) :: c.memory[y],
           if PageOf(x) in PagesOf(live.Keys) then c.held else c.held - {PageOf(x)})
  }

  // The slices after a request, and what is remembered of their contents.
  ghost function StepClient(h: Heap, c: Client, q: Request): Client
    requires InUse(h) && (q.Allocate? ==> Fresh(h, q.s)) && (q.Release? ==> q.x in c.live)
  {
    match q
    case Allocate(n, s) =>
      if n > SizeOf(CLASSES - 1) then c else Allocated(c, AllocatedAt(h, n, s), SizeOf(ClassFrom(n, 0)))
    case Release(x) => Released(c, x)
    case Store(y, v) => c.(memory := c.memory[y := v])
  }

  ghost function AllocatedAt(h: Heap, n: nat, s: Supply): nat
    requires InUse(h) && Fresh(h, s)
  {
    if Kmalloc(h, n, s).1.Slice? then Kmalloc(h, n, s).1.address else 0
  }

  ghost predicate Covered(c: Client, y: nat) {
    exists x :: x in c.live && x <= y < x + c.live[x]
  }

  // What the callers owe: fresh pages from the frame allocator, kfree only of what they hold, writes only into
  // slices they hold.
  ghost predicate Proper(h: Heap, c: Client, q: Request) {
    match q
    case Allocate(n, s) => Fresh(h, s)
    case Release(x) => x in c.live
    case Store(y, v) => Covered(c, y)
  }

  // The shipped code needs the guard of FreeSafe as well.
  ghost predicate Allowed(h: Heap, c: Client, q: Request) {
    Proper(h, c, q) && (q.Release? ==> FreeSafe(h, PageOf(q.x)))
  }

  ghost function StepHeap(h: Heap, q: Request): Heap
    requires InUse(h) && (q.Allocate? ==> Fresh(h, q.s)) && (q.Release? ==> CanFree(h, q.x))
  {
    match q
    case Allocate(n, s) => Kmalloc(h, n, s).0
    case Release(x) => Kfree(h, x)
    case Store(y, v) => Written(h, y, v)
  }

  // ---- carrying a slice over a call ----

  lemma StaysHolding(h: Heap, r: Heap, free: map<nat, set<nat>>, after: map<nat, set<nat>>, x: nat, size: nat,
          page: nat, k: nat)
    requires Stays(h, r, free, after, page, k) && Holding(h, free, x, size, page, k)
    ensures Holding(r, after, x, size, page, k)
  {
  }

  lemma SlotBounds(page: nat, size: nat, k: nat)
    requires page % PAGE_SIZE == 0 && IsClass(size) && k < Slots(size)
    ensures PageOf(page + SliceAt(size, k)) == page && page + SliceAt(size, k) + size <= page + PAGE_SIZE
  {
    SliceInPage(size, k);
    PageRecovered(page, SliceAt(size, k));
  }

  lemma SlotAddress(h: Heap, free: map<nat, set<nat>>, page: nat, k: nat)
    requires Linked(h) && Live(h, free, page, k)
    ensures PageOf(AddressOf(h, page, k)) == page
    ensures page <= AddressOf(h, page, k) && AddressOf(h, page, k) + RecordOf(h, page).size <= page + PAGE_SIZE
  {
    SlotBounds(page, RecordOf(h, page).size, k);
  }

  lemma SameAddress(h: Heap, free: map<nat, set<nat>>, page: nat, k: nat, page': nat, k': nat)
    requires Good(h, free) && Live(h, free, page, k) && Live(h, free, page', k')
    requires AddressOf(h, page, k) == AddressOf(h, page', k')
    ensures page == page' && k == k'
  {
    if page != page' || k != k' {
      LiveApart(h, free, page, k, page', k');
    }
  }

  // ---- kmalloc ----

  lemma AllocateLive(h: Heap, r: Heap, free: map<nat, set<nat>>, after: map<nat, set<nat>>, page: nat, k: nat,
                     live: map<nat, nat>, now: map<nat, nat>)
    requires Handed(h, r, free, after, page, k) && SlicesAgree(h, free, live)
    requires now == live[AddressOf(r, page, k) := RecordOf(r, page).size]
    ensures SlicesAgree(r, after, now)
  {
    forall p, j | Live(r, after, p, j) ensures AddressOf(r, p, j) in now {
      if p != page || j != k { assert Stays(h, r, free, after, p, j); }
    }
    assert Holding(r, after, AddressOf(r, page, k), RecordOf(r, page).size, page, k);
    forall x | x in live ensures HoldsSlice(r, after, x, live[x]) {
      var p, j :| Holding(h, free, x, live[x], p, j);
      StaysHolding(h, r, free, after, x, live[x], p, j);
    }
  }

  lemma AllocateReads(h: Heap, r: Heap, free: map<nat, set<nat>>, after: map<nat, set<nat>>, page: nat, k: nat,
          y: nat, v: nat)
    requires Handed(h, r, free, after, page, k) && ReadsBack(h, free, y, v)
    ensures ReadsBack(r, after, y, v)
  {
    var p, j :| Owns(h, free, p, j, y) && Reads(h, p, y) == v;
    StaysReads(h, r, free, after, p, j, y);
  }

  lemma AllocateAgrees(h: Heap, r: Heap, free: map<nat, set<nat>>, after: map<nat, set<nat>>, c: Client, page: nat,
          k: nat)
    requires Agrees(h, free, c) && Good(r, after) && Handed(h, r, free, after, page, k)
    ensures Agrees(r, after, Allocated(c, AddressOf(r, page, k), RecordOf(r, page).size))
  {
    SlotAddress(r, after, page, k);
    AllocateLive(h, r, free, after, page, k, c.live, c.live[AddressOf(r, page, k) := RecordOf(r, page).size]);
    forall y | y in c.memory {
      AllocateReads(h, r, free, after, page, k, y, c.memory[y]);
    }
  }

  lemma GrantAgrees(h: Heap, r: Heap, x: nat, size: nat, free: map<nat, set<nat>>, c: Client)
    requires Agrees(h, free, c) && exists after, page, k :: Granted(h, r, x, size, free, after, page, k)
    ensures Agreed(r, Allocated(c, x, size))
  {
    var after, page, k :| Granted(h, r, x, size, free, after, page, k);
    AllocateAgrees(h, r, free, after, c, page, k);
  }

  lemma AllocateKeeps(h: Heap, free: map<nat, set<nat>>, c: Client, n: nat, s: Supply)
    requires Agrees(h, free, c) && Fresh(h, s)
    ensures Agreed(StepHeap(h, Allocate(n, s)), StepClient(h, c, Allocate(n, s)))
  {
    if n <= SizeOf(CLASSES - 1) {
      KmallocCorrect(h, n, s, free);
      GrantAgrees(h, Kmalloc(h, n, s).0, Kmalloc(h, n, s).1.address, SizeOf(ClassFrom(n, 0)), free, c);
    }
  }

  // ---- kfree ----

  // No other slice in use has the address of slot k.
  ghost predicate Alone(h: Heap, free: map<nat, set<nat>>, page: nat, k: nat) {
    forall p, j :: Live(h, free, p, j) && (p != page || j != k) ==> AddressOf(h, p, j) != AddressOf(h, page, k)
  }

  lemma SliceAlone(h: Heap, free: map<nat, set<nat>>, page: nat, k: nat)
    requires Good(h, free) && Live(h, free, page, k)
    ensures Alone(h, free, page, k)
  {
    forall p, j | Live(h, free, p, j) && AddressOf(h, p, j) == AddressOf(h, page, k) ensures p == page && j == k {
      SameAddress(h, free, p, j, page, k);
    }
  }

  lemma ReleaseLive(h: Heap, r: Heap, free: map<nat, set<nat>>, after: map<nat, set<nat>>, page: nat, k: nat,
          live: map<nat, nat>)
    requires Alone(h, free, page, k) && GivenBack(h, r, free, after, page, k) && SlicesAgree(h, free, live)
    ensures SlicesAgree(r, after, live - {AddressOf(h, page, k)})
  {
    var x := AddressOf(h, page, k);
    forall p, j | Live(r, after, p, j) ensures AddressOf(r, p, j) in live - {x} {
      assert Stays(h, r, free, after, p, j);
    }
    forall z | z in live && z != x ensures HoldsSlice(r, after, z, live[z]) {
      var p, j :| Holding(h, free, z, live[z], p, j);
      StaysHolding(h, r, free, after, z, live[z], p, j);
    }
  }

  lemma ReleaseReads(h: Heap, r: Heap, free: map<nat, set<nat>>, after: map<nat, set<nat>>, page: nat, k: nat,
          y: nat, v: nat)
    requires GivenBack(h, r, free, after, page, k) && ReadsBack(h, free, y, v)
    requires !(AddressOf(h, page, k) <= y < AddressOf(h, page, k) + RecordOf(h, page).size)
    ensures ReadsBack(r, after, y, v)
  {
    var p, j :| Owns(h, free, p, j, y) && Reads(h, p, y) == v;
    StaysReads(h, r, free, after, p, j, y);
  }

  // The page still has a slice in use exactly if the client holds another one in it.
  lemma ReleasePage(h: Heap, free: map<nat, set<nat>>, page: nat, k: nat, live: map<nat, nat>)
    requires Good(h, free) && Live(h, free, page, k) && SlicesAgree(h, free, live)
    ensures PageOf(AddressOf(h, page, k)) == page
    ensures LastSlice(h, page) <==> page !in PagesOf((live - {AddressOf(h, page, k)}).Keys)
  {
    SlotAddress(h, free, page, k);
    PlacedOn(h, free, page);
    LastSliceMeans(h, free, page, k);
    var x := AddressOf(h, page, k);
    if !LastSlice(h, page) {
      var j :| j != k && Live(h, free, page, j);
      OtherSlice(h, free, page, k, j);
      assert AddressOf(h, page, j) in (live - {x}).Keys;
    }
    if page in PagesOf((live - {x}).Keys) {
      var z :| z in live && z != x && PageOf(z) == page;
      var p, j :| Holding(h, free, z, live[z], p, j);
      SlotAddress(h, free, p, j);
      assert p == page && j != k && Live(h, free, page, j);
    }
  }

  lemma OtherSlice(h: Heap, free: map<nat, set<nat>>, page: nat, k: nat, j: nat)
    requires Good(h, free) && Live(h, free, page, k) && Live(h, free, page, j) && j != k
    ensures AddressOf(h, page, j) != AddressOf(h, page, k) && PageOf(AddressOf(h, page, j)) == page
  {
    if AddressOf(h, page, j) == AddressOf(h, page, k) { SameAddress(h, free, page, j, page, k); }
    SlotAddress(h, free, page, j);
  }

  lemma ReleaseAgrees(h: Heap, r: Heap, free: map<nat, set<nat>>, after: map<nat, set<nat>>, page: nat, k: nat,
          c: Client)
    requires Agrees(h, free, c) && Good(r, after) && GivenBack(h, r, free, after, page, k) && Live(h, free, page, k)
    requires AddressOf(h, page, k) in c.live && c.live[AddressOf(h, page, k)] == RecordOf(h, page).size
    ensures Agrees(r, after, Released(c, AddressOf(h, page, k)))
  {
    SliceAlone(h, free, page, k);
    ReleaseLive(h, r, free, after, page, k, c.live);
    ReleasePage(h, free, page, k, c.live);
    forall y | y in Released(c, AddressOf(h, page, k)).memory {
      ReleaseReads(h, r, free, after, page, k, y, c.memory[y]);
    }
  }

  lemma ReleaseKeeps(h: Heap, free: map<nat, set<nat>>, c: Client, x: nat)
    requires Agrees(h, free, c) && x in c.live
    ensures CanFree(h, x)
    ensures FreeSafe(h, PageOf(x)) ==> Agreed(Kfree(h, x), Released(c, x))
    ensures InUse(Kfree(h, x)) <==> FreeSafe(h, PageOf(x))
  {
    var page, k :| Holding(h, free, x, c.live[x], page, k);
    SlotAddress(h, free, page, k);
    KfreeCorrect(h, free, page, k);
    if FreeSafe(h, page) {
      ReleaseAgrees(h, Kfree(h, x), free, FreeWith(h, free, page, k), page, k, c);
    }
  }

  // ---- writes ----

  lemma WrittenManager(m: Manager, r: Manager, i: nat, free: map<nat, set<nat>>, k: nat, o: nat, v: nat)
    requires InOrder(m, free) && i < COUNT && m.target[i] != 0 && m.target[i] in free
    requires k < Slots(m.size) && m.slabs[i].size == m.size && SliceAt(m.size, k) <= o < SliceAt(m.size, k) + m.size
    requires o < |m.slabs[i].bytes| && r == m.(slabs := m.slabs[i := WithByte(m.slabs[i], o, v)])
    ensures InOrder(r, free)
  {
    assert PageHolds(m, i, free[m.target[i]]);
    OwnerWrites(m.slabs[i], free[m.target[i]], k, o, v);
    KindsChanged(m, r, i);
    assert Kinds(r) == Kinds(m);
    OthersInOrder(m, r, i, free, free);
  }

  lemma WriteActs(h: Heap, page: nat, a: nat, i: nat, k: nat, y: nat, v: nat)
    requires OnPage(h, page, a, i) && page <= y < page + PAGE_SIZE
    ensures y - page < |h.managers[a].slabs[i].bytes|
    ensures Written(h, y, v) == h.(managers := h.managers[a := Written(h, y, v).managers[a]])
    ensures Written(h, y, v).managers[a] ==
            h.managers[a].(slabs := h.managers[a].slabs[i := WithByte(h.managers[a].slabs[i], y - page, v)])
  {
  }

  lemma WriteChanges(h: Heap, page: nat, a: nat, i: nat, y: nat, v: nat, free: map<nat, set<nat>>)
    requires OnPage(h, page, a, i) && page != 0 && page <= y < page + PAGE_SIZE && free.Keys == h.allocator.Keys
    ensures var r := Written(h, y, v);
      Changed(h, r, a, i) && OthersFree(h, r, r.managers[a].target[i], free, free)
  {
  }

  lemma OwnsOffset(h: Heap, free: map<nat, set<nat>>, page: nat, a: nat, i: nat, k: nat, y: nat)
    requires OnPage(h, page, a, i) && Owns(h, free, page, k, y)
    ensures k < Slots(h.managers[a].size) && h.managers[a].slabs[i].size == h.managers[a].size
    ensures SliceAt(h.managers[a].size, k) <= y - page < SliceAt(h.managers[a].size, k) + h.managers[a].size
    ensures page in free && h.managers[a].target[i] == page && page <= y < page + PAGE_SIZE
  {
  }

  lemma WriteGood(h: Heap, free: map<nat, set<nat>>, page: nat, k: nat, y: nat, v: nat)
    requires Good(h, free) && Owns(h, free, page, k, y)
    ensures Good(Written(h, y, v), free)
  {
    var a, i := PageOf(h.allocator[page]), IndexIn(h.allocator[page]);
    PlacedOn(h, free, page);
    assert ManagerInOrder(h, a, free);
    OwnsOffset(h, free, page, a, i, k, y);
    WriteActs(h, page, a, i, k, y, v);
    var now := Written(h, y, v).managers[a];
    WrittenManager(h.managers[a], now, i, free, k, y - page, v);
    WriteChanges(h, page, a, i, y, v, free);
    ReplacedGood(h, Written(h, y, v), a, i, free, now);
  }

  lemma ReplacedGood(h: Heap, r: Heap, a: nat, i: nat, free: map<nat, set<nat>>, now: Manager)
    requires Good(h, free) && Changed(h, r, a, i) && r.managers[a] == now && InOrder(now, free)
    requires OthersFree(h, r, now.target[i], free, free)
    ensures Good(r, free)
  {
    ChangedGood(h, r, a, i, free, free);
  }

  lemma WriteRecord(h: Heap, page: nat, a: nat, i: nat, y: nat, v: nat, p: nat)
    requires Linked(h) && OnPage(h, page, a, i) && page <= y < page + PAGE_SIZE
    ensures RecordOf(Written(h, y, v), p) ==
            if p == page then WithByte(RecordOf(h, page), y - page, v) else RecordOf(h, p)
    ensures Written(h, y, v).allocator == h.allocator
  {
    WriteActs(h, page, a, i, 0, y, v);
    if p in h.allocator { assert Attached(h, p); }
  }

  lemma WriteView(h: Heap, free: map<nat, set<nat>>, c: Client, page: nat, a: nat, i: nat, k: nat, y: nat, v: nat)
    requires Linked(h) && OnPage(h, page, a, i) && Owns(h, free, page, k, y)
    requires SlicesAgree(h, free, c.live) && MemoryAgrees(h, free, c.memory)
    ensures SlicesAgree(Written(h, y, v), free, c.live) && MemoryAgrees(Written(h, y, v), free, c.memory[y := v])
    ensures Written(h, y, v).allocator == h.allocator
  {
    forall p {
      WriteRecord(h, page, a, i, y, v, p);
    }
    WriteSlices(h, Written(h, y, v), free, c.live);
    WriteMemory(h, Written(h, y, v), free, c.memory, page, k, y, v);
  }

  lemma WriteAgrees(h: Heap, free: map<nat, set<nat>>, c: Client, page: nat, k: nat, y: nat, v: nat)
    requires Agrees(h, free, c) && Owns(h, free, page, k, y)
    ensures Agrees(Written(h, y, v), free, c.(memory := c.memory[y := v]))
  {
    PlacedOn(h, free, page);
    WriteGood(h, free, page, k, y, v);
    WriteView(h, free, c, page, PageOf(h.allocator[page]), IndexIn(h.allocator[page]), k, y, v);
  }

  // `r` differs from `h` in the contents of pages only.
  ghost predicate SameRecords(h: Heap, r: Heap) {
    && r.allocator == h.allocator
    && forall p :: RecordOf(r, p).size == RecordOf(h, p).size
  }

  lemma WriteSlices(h: Heap, r: Heap, free: map<nat, set<nat>>, live: map<nat, nat>)
    requires SlicesAgree(h, free, live) && SameRecords(h, r)
    ensures SlicesAgree(r, free, live)
  {
    forall p, j | Live(r, free, p, j) ensures AddressOf(r, p, j) in live {
      assert Live(h, free, p, j);
    }
    forall x | x in live ensures HoldsSlice(r, free, x, live[x]) {
      var p, j :| Holding(h, free, x, live[x], p, j);
      assert Holding(r, free, x, live[x], p, j);
    }
  }

  lemma WriteMemory(h: Heap, r: Heap, free: map<nat, set<nat>>, memory: map<nat, nat>, page: nat, k: nat, y: nat,
          v: nat)
    requires MemoryAgrees(h, free, memory) && SameRecords(h, r) && Owns(h, free, page, k, y)
    requires |RecordOf(h, page).bytes| == PAGE_SIZE
    requires RecordOf(r, page) == WithByte(RecordOf(h, page), y - page, v)
    requires forall p :: p != page ==> RecordOf(r, p) == RecordOf(h, p)
    ensures MemoryAgrees(r, free, memory[y := v])
  {
    assert Owns(r, free, page, k, y) && Reads(r, page, y) == v;
    forall z | z in memory && z != y ensures ReadsBack(r, free, z, memory[z]) {
      var p, j :| Owns(h, free, p, j, z) && Reads(h, p, z) == memory[z];
      assert Owns(r, free, p, j, z) && Reads(r, p, z) == memory[z];
    }
  }

  lemma StoreKeeps(h: Heap, free: map<nat, set<nat>>, c: Client, y: nat, v: nat)
    requires Agrees(h, free, c) && Covered(c, y)
    ensures Agreed(Written(h, y, v), c.(memory := c.memory[y := v]))
  {
    var x :| x in c.live && x <= y < x + c.live[x];
    var page, k :| Holding(h, free, x, c.live[x], page, k);
    SlotAddress(h, free, page, k);
    WriteAgrees(h, free, c, page, k, y, v);
  }

  // ---- runs ----

  // A call keeps heap and client in agreement.
  lemma StepKeeps(h: Heap, c: Client, q: Request)
    requires Agreed(h, c) && Allowed(h, c, q)
    ensures InUse(h) && (q.Release? ==> CanFree(h, q.x))
    ensures Agreed(StepHeap(h, q), StepClient(h, c, q))
  {
    var free :| Agrees(h, free, c);
    match q
    case Allocate(n, s) => AllocateKeeps(h, free, c, n, s);
    case Release(x) => ReleaseKeeps(h, free, c, x);
    case Store(y, v) => StoreKeeps(h, free, c, y, v);
  }

  ghost predicate AllowedRun(h: Heap, c: Client, qs: seq<Request>)
    requires Agreed(h, c)
    decreases |qs|
  {
    qs != [] ==>
      && Allowed(h, c, qs[0])
      && (StepKeeps(h, c, qs[0]); AllowedRun(StepHeap(h, qs[0]), StepClient(h, c, qs[0]), qs[1..]))
  }

  ghost function Run(h: Heap, c: Client, qs: seq<Request>): (r: (Heap, Client))
    requires Agreed(h, c) && AllowedRun(h, c, qs)
    decreases |qs|
  {
    if qs == [] then (h, c) else
      StepKeeps(h, c, qs[0]);
      Run(StepHeap(h, qs[0]), StepClient(h, c, qs[0]), qs[1..])
  }

  lemma {:induction false} RunKeeps(h: Heap, c: Client, qs: seq<Request>)
    requires Agreed(h, c) && AllowedRun(h, c, qs)
    ensures Agreed(Run(h, c, qs).0, Run(h, c, qs).1)
    decreases |qs|
  {
    if qs == [] {
    } else {
      StepKeeps(h, c, qs[0]);
      RunKeeps(StepHeap(h, qs[0]), StepClient(h, c, qs[0]), qs[1..]);
    }
  }

  // ---- init_kmm ----

  // One manager for each class, on pages from the frame allocator.
  ghost function Initial(fix: bool, pages: seq<nat>, c: nat): (h: Heap)
    requires c <= CLASSES == |pages|
    ensures |h.chains| == CLASSES && h.allocator == map[] && h.fix == fix
    ensures forall a :: a in h.managers <==> a in pages[..c]
  {
    if c == 0 then Heap(fix, seq(CLASSES, i => []), map[], map[])
    else Extended(Initial(fix, pages, c - 1), c - 1, pages[c - 1])
  }

  ghost predicate ManagerPages(pages: seq<nat>) {
    && |pages| == CLASSES
    && (forall i :: 0 <= i < CLASSES ==> pages[i] != 0 && pages[i] % PAGE_SIZE == 0)
    && (forall i, j :: 0 <= i < j < CLASSES ==> pages[i] != pages[j])
  }

  lemma {:induction false} InitialGood(fix: bool, pages: seq<nat>, c: nat)
    requires ManagerPages(pages) && c <= CLASSES
    ensures Good(Initial(fix, pages, c), map[])
  {
    if c == 0 {
    } else {
      InitialGood(fix, pages, c - 1);
      assert pages[c - 1] !in pages[..c - 1];
      ExtendedKeeps(Initial(fix, pages, c - 1), c - 1, pages[c - 1], map[]);
    }
  }

  lemma InitialAgreed(fix: bool, pages: seq<nat>)
    requires ManagerPages(pages)
    ensures Agreed(Initial(fix, pages, CLASSES), Client(map[], map[], {}))
  {
    InitialGood(fix, pages, CLASSES);
    assert Agrees(Initial(fix, pages, CLASSES), map[], Client(map[], map[], {}));
  }

  // ---- what agreement means to the callers ----

  // The slices held do not overlap, and none crosses a page boundary.
  lemma HeldApart(h: Heap, c: Client, x: nat, x': nat)
    requires Agreed(h, c) && x in c.live && x' in c.live && x != x'
    ensures x + c.live[x] <= x' || x' + c.live[x'] <= x
    ensures x + c.live[x] <= PageOf(x) + PAGE_SIZE
  {
    var free :| Agrees(h, free, c);
    var page, k :| Holding(h, free, x, c.live[x], page, k);
    var page', k' :| Holding(h, free, x', c.live[x'], page', k');
    LiveApart(h, free, page, k, page', k');
    SlotAddress(h, free, page, k);
  }

  // A byte written and not given back reads as written last.
  lemma HeldReads(h: Heap, c: Client, y: nat)
    requires Agreed(h, c) && y in c.memory
    ensures Reads(h, PageOf(y), y) == c.memory[y]
  {
    var free :| Agrees(h, free, c);
    var page, k :| Owns(h, free, page, k, y) && Reads(h, page, y) == c.memory[y];
    HeldOffset(h, free, page, k, y);
  }

  lemma HeldOffset(h: Heap, free: map<nat, set<nat>>, page: nat, k: nat, y: nat)
    requires Linked(h) && Owns(h, free, page, k, y)
    ensures PageOf(y) == page
  {
  }

  // Pages are held exactly as long as one of their slices is: every page goes back with its last slice.
  lemma HeldPages(h: Heap, c: Client)
    requires Agreed(h, c)
    ensures c.held == PagesOf(c.live.Keys)
  {
    var free :| Agrees(h, free, c);
    forall page | page in c.held ensures page in PagesOf(c.live.Keys) {
      HeldPage(h, free, c.live, page);
    }
    forall x | x in c.live ensures PageOf(x) in c.held {
      SlicePageHeld(h, free, c.live, x);
    }
  }

  lemma SlicePageHeld(h: Heap, free: map<nat, set<nat>>, live: map<nat, nat>, x: nat)
    requires Linked(h) && SlicesAgree(h, free, live) && x in live
    ensures PageOf(x) in h.allocator
  {
    var p, k :| Holding(h, free, x, live[x], p, k);
    SlotAddress(h, free, p, k);
  }

  lemma HeldPage(h: Heap, free: map<nat, set<nat>>, live: map<nat, nat>, page: nat)
    requires Good(h, free) && SlicesAgree(h, free, live) && page in h.allocator
    ensures page in PagesOf(live.Keys)
  {
    PlacedOn(h, free, page);
    var k := TakenSlot(RecordOf(h, page), free[page]);
    assert Live(h, free, page, k);
    SlotAddress(h, free, page, k);
    assert AddressOf(h, page, k) in live.Keys;
  }

  lemma TakenSlot(p: Slab, free: set<nat>) returns (k: nat)
    requires Holds(p, free) && p.avail < Slots(p.size)
    ensures k < Slots(p.size) && k !in free
  {
    if forall j: nat :: j < Slots(p.size) ==> j in free {
      AllFree(free, Slots(p.size));
    }
    k :| k < Slots(p.size) && k !in free;
  }

  // With the repair every kfree of a slice held is safe.
  lemma FixedIsSafe(h: Heap, c: Client, x: nat)
    requires Agreed(h, c) && h.fix && x in c.live
    ensures FreeSafe(h, PageOf(x))
  {
    var free :| Agrees(h, free, c);
    var page, k :| Holding(h, free, x, c.live[x], page, k);
    SlotAddress(h, free, page, k);
    PlacedOn(h, free, page);
    assert ManagerInOrder(h, PageOf(h.allocator[page]), free);
  }

  // Slices over 256 bytes need no repair.
  lemma LargeIsSafe(h: Heap, c: Client, x: nat)
    requires Agreed(h, c) && x in c.live && c.live[x] > 256
    ensures FreeSafe(h, PageOf(x))
  {
    var free :| Agrees(h, free, c);
    var page, k :| Holding(h, free, x, c.live[x], page, k);
    SlotAddress(h, free, page, k);
  }

  // ---- runs of the repaired code ----

  ghost predicate ProperRun(h: Heap, c: Client, qs: seq<Request>)
    requires Agreed(h, c) && h.fix
    decreases |qs|
  {
    qs != [] ==>
      && Proper(h, c, qs[0])
      && (FixedStep(h, c, qs[0]); ProperRun(StepHeap(h, qs[0]), StepClient(h, c, qs[0]), qs[1..]))
  }

  lemma FixedStep(h: Heap, c: Client, q: Request)
    requires Agreed(h, c) && h.fix && Proper(h, c, q)
    ensures Allowed(h, c, q) && InUse(h) && (q.Release? ==> CanFree(h, q.x))
    ensures Agreed(StepHeap(h, q), StepClient(h, c, q)) && StepHeap(h, q).fix
  {
    if q.Release? { FixedIsSafe(h, c, q.x); }
    StepKeeps(h, c, q);
    if q.Allocate? { KmallocFix(h, q.n, q.s); }
  }

  lemma KmallocFix(h: Heap, n: nat, s: Supply)
    requires InUse(h) && Fresh(h, s)
    ensures Kmalloc(h, n, s).0.fix == h.fix
  {
  }

  // With the repair every run of proper requests is allowed.
  lemma {:induction false} FixedRun(h: Heap, c: Client, qs: seq<Request>)
    requires Agreed(h, c) && h.fix && ProperRun(h, c, qs)
    ensures AllowedRun(h, c, qs)
    decreases |qs|
  {
    if qs == [] {
    } else {
      FixedStep(h, c, qs[0]);
      FixedRun(StepHeap(h, qs[0]), StepClient(h, c, qs[0]), qs[1..]);
    }
  }
}
