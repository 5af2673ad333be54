// A manager of slices as the source holds it: the allocators' fields in arrays, list heads beside them, and the
// pages in memory, all written in place. Each method is proved to perform the corresponding step of SlicePage
// and SliceManager.

module SliceMemory {
  import opened Links
  import opened Powers
  import opened Rounding
  import opened SlicePage
  import opened SliceManager
  import opened SliceHeap
  import SliceCalls

  // ---- what every call keeps ----

  // Some record of free slots describes the manager.
  ghost predicate Described(m: Manager) {
    exists free :: InOrder(m, free)
  }

  // Allocator i has a page, and the record of free slots leaves this one out.
  ghost predicate InUse(m: Manager, i: nat, slot: nat) {
    exists free :: InOrder(m, free) && UsedBy(m, i, slot, free)
  }

  ghost predicate UsedBy(m: Manager, i: nat, slot: nat, free: map<nat, set<nat>>) {
    && i < COUNT && i < |m.target| && m.target[i] != 0 && m.target[i] in free
    && IsClass(m.size) && slot < Slots(m.size) && slot !in free[m.target[i]]
  }

  lemma DescribedReady(m: Manager)
    requires Described(m) && HasRoom(m)
    ensures Ready(m)
  {
    var free :| InOrder(m, free);
    ReadyToServe(m, free);
  }

  lemma ServedDescribed(m: Manager, s: Supply, r: Manager)
    requires Described(m) && Ready(m) && s.page != 0 && s.page !in m.target && |s.bytes| == PAGE_SIZE
    requires r == if Head(m.lists, PARTIAL) != COUNT then TakeSlice(m, Chosen(m))
      else StartPage(m, Chosen(m), s.page, s.bytes)
    ensures Described(r)
  {
    var free :| InOrder(m, free);
    ServeManager(m, s, free);
  }

  lemma UsedTaken(m: Manager, i: nat, slot: nat, free: map<nat, set<nat>>)
    requires InOrder(m, free) && UsedBy(m, i, slot, free)
    ensures Taken(m.slabs[i], free[m.target[i]], slot) && m.slabs[i].size == m.size
  {
    assert PageHolds(m, i, free[m.target[i]]);
  }

  lemma UsedReady(m: Manager, i: nat, slot: nat, offset: nat)
    requires InUse(m, i, slot) && IsClass(m.size) && slot < Slots(m.size) && offset == SliceAt(m.size, slot)
    ensures i < COUNT == |m.slabs| && |m.target| == COUNT && Whole(m.slabs[i]) && m.slabs[i].size == m.size
    ensures offset < PAGE_SIZE && (IsLinked(m.size) ==> ADDRESS_SIZE < offset) && SlotOf(m.size, offset) == slot
  {
    var free :| InOrder(m, free) && UsedBy(m, i, slot, free);
    UsedTaken(m, i, slot, free);
    GiveBackReady(m.size, slot);
  }

  // The manager after giving back a slice.
  ghost predicate GivenBack(m: Manager, i: nat, offset: nat, r: Manager) {
    && i < COUNT == |m.slabs| && |m.target| == COUNT && IsClass(m.size) && m.slabs[i].size == m.size
    && Whole(m.slabs[i]) && offset < PAGE_SIZE && (IsLinked(m.size) ==> ADDRESS_SIZE < offset)
    && SlotOf(m.size, offset) < Slots(m.size)
    && r == Freed(m, i, GiveBack(m.slabs[i], offset))
  }

  lemma FreedKept(m: Manager, i: nat, slot: nat, offset: nat, r: Manager, free: map<nat, set<nat>>)
    requires InOrder(m, free) && UsedBy(m, i, slot, free) && offset == SliceAt(m.size, slot)
    requires GivenBack(m, i, offset, r) && SliceSafe(m.slabs[i])
    ensures Described(r)
  {
    UsedTaken(m, i, slot, free);
    SliceCalls.FreedManager(m, i, free, m.slabs[i], slot);
  }

  lemma FreedBroken(m: Manager, i: nat, slot: nat, offset: nat, r: Manager, free: map<nat, set<nat>>)
    requires InOrder(m, free) && UsedBy(m, i, slot, free) && offset == SliceAt(m.size, slot)
    requires GivenBack(m, i, offset, r) && !SliceSafe(m.slabs[i])
    ensures !Described(r)
  {
    UsedTaken(m, i, slot, free);
    GiveBackHolds(m.slabs[i], free[m.target[i]], slot);
    forall after ensures !InOrder(r, after) {
      SliceCalls.StillThere(m, i, GiveBack(m.slabs[i], offset), m.target[i], after);
    }
  }

  // A slice in use can be given back, and the manager stays describable exactly under the guard.
  lemma FreedDescribed(m: Manager, i: nat, slot: nat, offset: nat, r: Manager)
    requires InUse(m, i, slot) && GivenBack(m, i, offset, r)
    requires slot < Slots(m.size) && offset == SliceAt(m.size, slot)
    ensures Described(r) <==> SliceSafe(m.slabs[i])
  {
    var free :| InOrder(m, free) && UsedBy(m, i, slot, free);
    if SliceSafe(m.slabs[i]) {
      FreedKept(m, i, slot, offset, r, free);
    } else {
      FreedBroken(m, i, slot, offset, r, free);
    }
  }

  // ---- loops ----

  lemma {:induction false} AndOne(n: nat)
    ensures And(n, 1) == n % 2
  {
  }

  // The test (bitmap >> (7 - i)) & 1.
  lemma TestedBit(bitmap: nat, i: nat)
    requires i < 8
    ensures And(ShiftRight(bitmap, 7 - i), 1) == 0 <==> !SlotBit(bitmap, i)
  {
    AndOne(ShiftRight(bitmap, 7 - i));
    ShiftBit(bitmap, 7 - i, 0);
  }

  // The loop of kmalloc over slice_sizes: the smallest class that fits.
  method FindClass(n: nat) returns (c: nat)
    requires n <= SizeOf(CLASSES - 1)
    ensures c < CLASSES && n <= SizeOf(c) && forall d :: 0 <= d < c ==> SizeOf(d) < n
    ensures c == ClassFrom(n, 0)
  {
    c := 0;
    while n > SizeOf(c)
      invariant c < CLASSES && ClassFrom(n, c) == ClassFrom(n, 0)
      invariant forall d :: 0 <= d < c ==> SizeOf(d) < n
      decreases CLASSES - c
    {
      c := c + 1;
    }
  }

  class ManagerPage {
    const size: nat
    const fix: bool
    var free: nat
    var pFull: nat
    var full: nat
    const prev: array<nat>
    const next: array<nat>
    const first: array<nat>
    const avail: array<nat>
    const target: array<nat>
    var memory: map<nat, array<nat>>    // the contents of the pages in use, under their addresses

    ghost function ListState(): Lists
      reads this, prev, next
    {
      Lists(prev[..], next[..], [free, pFull, full])
    }

    ghost function Contents(page: nat): seq<nat>
      reads this`memory, memory.Values
    {
      if page == 0 || page !in memory then [] else memory[page][..]
    }

    ghost function SlabAt(i: nat): Slab
      requires i < first.Length && i < avail.Length && i < target.Length
      reads this`memory, first, avail, target, memory.Values
    {
      Slab(size, fix, first[i], avail[i], Contents(target[i]))
    }

    ghost function State(): Manager
      requires first.Length == COUNT == avail.Length && target.Length == COUNT
      reads this, prev, next, first, avail, target, memory.Values
    {
      Manager(size, fix, ListState(), target[..], Slabs())
    }

    ghost function Slabs(): (s: seq<Slab>)
      requires first.Length == COUNT == avail.Length && target.Length == COUNT
      reads this`memory, first, avail, target, memory.Values
      ensures |s| == COUNT && forall i :: 0 <= i < COUNT ==> s[i] == SlabAt(i)
    {
      SlabsTo(COUNT)
    }

    ghost function SlabsTo(n: nat): (s: seq<Slab>)
      requires first.Length == COUNT == avail.Length && target.Length == COUNT && n <= COUNT
      reads this`memory, first, avail, target, memory.Values
      ensures |s| == n && forall i :: 0 <= i < n ==> s[i] == SlabAt(i)
    {
      if n == 0 then [] else SlabsTo(n - 1) + [SlabAt(n - 1)]
    }

    // The arrays and the pages are separate, and every page in use is in memory, for one allocator.
    ghost predicate Separate()
      reads this`memory, target
    {
      && IsClass(size)
      && prev.Length == COUNT == next.Length && first.Length == COUNT == avail.Length && target.Length == COUNT
      && prev != next && prev != first && prev != avail && prev != target && next != first && next != avail
      && next != target && first != avail && first != target && avail != target
      && (forall b :: b in memory ==>
            && memory[b].Length == PAGE_SIZE
            && memory[b] != prev && memory[b] != next && memory[b] != first && memory[b] != avail
            && memory[b] != target)
      && (forall b, c :: b in memory && c in memory && b != c ==> memory[b] != memory[c])
      && (forall i :: 0 <= i < COUNT && target[i] != 0 ==> target[i] in memory)
      && (forall i, j :: 0 <= i < j < COUNT && target[i] == target[j] ==> target[i] == 0)
    }

    ghost predicate Valid()
      reads this, prev, next, first, avail, target, memory.Values
    {
      Separate() && Described(State())
    }

    // init_allocator_manager
    constructor (size: nat, fix: bool)
      requires IsClass(size)
      ensures Valid() && this.size == size && this.fix == fix && memory == map[]
      ensures State() == NewManager(size, fix)
    {
      this.size, this.fix := size, fix;
      free, pFull, full := 0, COUNT, COUNT;
      prev, next := new nat[COUNT], new nat[COUNT];
      first, avail, target := new nat[COUNT], new nat[COUNT], new nat[COUNT];
      memory := map[];
      new;
      Initialize();
      assert ListState() == InitialLists();
      assert State().slabs == NewManager(size, fix).slabs;
      NewManagerInOrder(size, fix, map[]);
    }

    method Initialize()
      requires prev.Length == COUNT == next.Length && first.Length == COUNT == avail.Length && target.Length == COUNT
      requires prev != next && prev != first && prev != avail && prev != target && next != first && next != avail
      requires next != target && first != avail && first != target && avail != target
      modifies prev, next, first, avail, target
      ensures forall i :: 0 <= i < COUNT ==> prev[i] == InitialPrev(i) && next[i] == InitialNext(i)
      ensures forall i :: 0 <= i < COUNT ==> first[i] == 0 && avail[i] == 0 && target[i] == 0
    {
      first[0], next[0], prev[0], target[0], avail[0] := 0, 1, COUNT, 0, 0;
      for i := 1 to COUNT - 1
        invariant forall j :: 0 <= j < i ==> prev[j] == InitialPrev(j) && next[j] == InitialNext(j)
        invariant forall j :: 0 <= j < i ==> first[j] == 0 && avail[j] == 0 && target[j] == 0
      {
        first[i], next[i], prev[i], target[i], avail[i] := 0, i + 1, i - 1, 0, 0;
      }
      var last := COUNT - 1;
      first[last], next[last], prev[last], target[last], avail[last] := 0, COUNT, COUNT - 2, 0, 0;
    }

    // ---- the lists ----

    // kmalloc_helper: the first partially full allocator becomes the first full one.
    method PartialToFull()
      requires Separate() && pFull < COUNT && next[pFull] <= COUNT && full <= COUNT
      modifies this`pFull, this`full, prev, next
      ensures Separate() && ListState() == Advance(old(ListState()), PARTIAL, FULL)
    {
      var i := pFull;
      var n := next[i];
      if n != COUNT {
        prev[n] := prev[i];
      }
      pFull := n;
      var f := full;
      next[i] := f;
      if f != COUNT {
        prev[i] := prev[f];
        prev[f] := i;
      }
      full := i;
    }

    // kmalloc_helper: the first free allocator becomes the first partially full one.
    method FreeToPartial()
      requires Separate() && free < COUNT && next[free] <= COUNT && pFull <= COUNT
      modifies this`free, this`pFull, prev, next
      ensures Separate() && ListState() == Advance(old(ListState()), FREE, PARTIAL)
    {
      var i := free;
      var n := next[i];
      if n != COUNT {
        prev[n] := prev[i];
      }
      free := n;
      var f := pFull;
      next[i] := f;
      if f != COUNT {
        prev[i] := prev[f];
        prev[f] := i;
      }
      pFull := i;
    }

    // kfree: an allocator moves from the partially full list to the free list.
    method PartialToFree(i: nat)
      requires Separate() && i < COUNT && next[i] <= COUNT && prev[i] <= COUNT && free <= COUNT
      modifies this`free, this`pFull, prev, next
      ensures Separate() && ListState() == Moved(old(ListState()), i, PARTIAL, FREE)
    {
      var p := UnlinkNext(i);
      if p == COUNT {
        pFull := next[i];
      }
      PushLinks(i, free);
      free := i;
    }

    // kfree: an allocator moves from the full list to the partially full list.
    method FullToPartial(i: nat)
      requires Separate() && i < COUNT && next[i] <= COUNT && prev[i] <= COUNT && pFull <= COUNT
      modifies this`pFull, this`full, prev, next
      ensures Separate() && ListState() == Moved(old(ListState()), i, FULL, PARTIAL)
    {
      var p := UnlinkNext(i);
      if p == COUNT {
        full := next[i];
      }
      PushLinks(i, pFull);
      pFull := i;
    }

    // The neighbours of allocator i link to each other; the caller moves the list's head if there is no
    // previous one.
    method UnlinkNext(i: nat) returns (p: nat)
      requires Separate() && i < COUNT && next[i] <= COUNT && prev[i] <= COUNT
      modifies prev, next
      ensures Separate() && p == old(prev[i])
      ensures prev[..] == Unlinked(old(ListState()), i, 0).prev && next[..] == Unlinked(old(ListState()), i, 0).next
      ensures p == COUNT ==> next[i] == old(next[i])
    {
      p := prev[i];
      var n := next[i];
      if n != COUNT {
        prev[n] := p;
      }
      if p != COUNT {
        next[p] := n;
      }
    }

    // The links of an allocator in front of a list's head.
    method PushLinks(i: nat, head: nat)
      requires Separate() && i < COUNT && head <= COUNT
      modifies prev, next
      ensures Separate() && next[..] == Store(old(next[..]), i, head)
      ensures prev[..] ==
        if head != COUNT then Store(Store(old(prev[..]), i, COUNT), head, i) else Store(old(prev[..]), i, COUNT)
    {
      next[i] := head;
      prev[i] := COUNT;
      if head != COUNT {
        prev[head] := i;
      }
    }

    // ---- slices ----

    // get_slice_addr, for chained slices.
    method LinkedSlice(i: nat) returns (addr: nat, isFull: bool)
      requires Separate() && i < COUNT && target[i] != 0 && IsLinked(size) && CanTake(SlabAt(i))
      modifies first, memory[target[i]]
      ensures Separate() && Slabs() == old(Slabs())[i := Take(old(SlabAt(i))).(avail := old(avail[i]))]
      ensures addr == target[i] + SliceAt(size, old(first[i])) && isFull == old(ReportsFull(SlabAt(i)))
    {
      SliceInPage(size, first[i]);
      ghost var p := SlabAt(i);
      var page := memory[target[i]];
      var realSize := size + 1;
      var at := ADDRESS_SIZE + first[i] * realSize;
      assert at == HeaderAt(size, first[i]);
      var nextAvail := page[at];
      page[at] := SLICE_END;
      first[i] := nextAvail;
      addr, isFull := target[i] + at + 1, nextAvail == SLICE_END;
      assert SlabAt(i) == Take(p).(avail := p.avail);
    }

    // get_slice_addr, for slices in a bitmap.
    method MappedSlice(i: nat) returns (addr: nat, isFull: bool)
      requires Separate() && i < COUNT && target[i] != 0 && !IsLinked(size) && CanTake(SlabAt(i))
      modifies first
      ensures Separate() && Slabs() == old(Slabs())[i := Take(old(SlabAt(i))).(avail := old(avail[i]))]
      ensures addr == target[i] + SliceAt(size, old(NextSlot(SlabAt(i)))) && isFull == old(ReportsFull(SlabAt(i)))
    {
      var bitmap := first[i];
      var bits := PAGE_SIZE / size;
      var k := FindClear(bitmap, bits);
      addr := target[i] + k * size;
      bitmap := Or(bitmap, Pow2(7 - k));
      first[i] := bitmap;
      isFull := ShiftRight(bitmap, 8 - bits) == ShiftRight(0xFF, 8 - bits);
    }

    // The loop over the bitmap.
    static method FindClear(bitmap: nat, bits: nat) returns (k: nat)
      requires bits <= 8
      ensures k == FirstClear(bitmap, bits, 0)
    {
      k := 0;
      while k < bits
        invariant k <= bits && FirstClear(bitmap, bits, 0) == FirstClear(bitmap, bits, k)
      {
        TestedBit(bitmap, k);
        if And(ShiftRight(bitmap, 7 - k), 1) == 0 {
          break;
        }
        k := k + 1;
      }
    }

    // get_slice_addr
    method GetSliceAddr(i: nat) returns (addr: nat, isFull: bool)
      requires Separate() && i < COUNT && target[i] != 0 && CanTake(SlabAt(i))
      modifies first, memory[target[i]]
      ensures Separate() && Slabs() == old(Slabs())[i := Take(old(SlabAt(i))).(avail := old(avail[i]))]
      ensures addr == target[i] + SliceAt(size, old(NextSlot(SlabAt(i)))) && isFull == old(ReportsFull(SlabAt(i)))
    {
      if size <= 256 {
        addr, isFull := LinkedSlice(i);
      } else {
        addr, isFull := MappedSlice(i);
      }
    }

    // The bytes of a page before its first use, with the pointer init_linked_page stores.
    static function WithPointer(size: nat, bytes: seq<nat>, pointer: seq<nat>): seq<nat>
      requires |bytes| == PAGE_SIZE && |pointer| == ADDRESS_SIZE
    {
      if IsLinked(size) then pointer + bytes[ADDRESS_SIZE..] else bytes
    }

    static method StorePointer(page: array<nat>, pointer: seq<nat>)
      requires page.Length == PAGE_SIZE && |pointer| == ADDRESS_SIZE
      modifies page
      ensures page[..] == pointer + old(page[ADDRESS_SIZE..])
    {
      for j := 0 to ADDRESS_SIZE
        invariant forall o :: 0 <= o < PAGE_SIZE ==> page[o] == if o < j then pointer[o] else old(page[o])
      {
        page[j] := pointer[j];
      }
    }

    // init_linked_page
    static method InitLinkedPage(page: array<nat>, size: nat, pointer: seq<nat>, ghost p: Slab)
      requires page.Length == PAGE_SIZE && IsClass(size) && IsLinked(size) && |pointer| == ADDRESS_SIZE
      requires p.size == size && p.bytes == WithPointer(size, page[..], pointer)
      modifies page
      ensures page[..] == InitLinked(p).bytes
    {
      StorePointer(page, pointer);
      var addr := ThreadHeaders(page, size, p);
      page[addr - (size + 1)] := SLICE_END;
    }

    // The loop over the headers; it ends one slot past the last.
    static method ThreadHeaders(page: array<nat>, size: nat, ghost p: Slab) returns (addr: nat)
      requires page.Length == PAGE_SIZE && IsClass(size) && IsLinked(size) && p.size == size && p.bytes == page[..]
      modifies page
      ensures page[..] == Threaded(p, Slots(size)).bytes
      ensures size + 1 <= addr && addr - (size + 1) == HeaderAt(size, Slots(size) - 1)
    {
      var realSize := size + 1;
      addr := ADDRESS_SIZE;
      var i := 0;
      SlotFits(size, i);
      while addr + realSize <= PAGE_SIZE
        invariant i <= Slots(size) && addr == HeaderAt(size, i) && (addr + realSize <= PAGE_SIZE <==> i < Slots(size))
        invariant page[..] == Threaded(p, i).bytes
        decreases PAGE_SIZE - addr
      {
        ThreadedNext(p, i);
        page[addr] := i + 1;
        SlotFits(size, i);
        addr := addr + realSize;
        i := i + 1;
        SlotFits(size, i);
      }
    }

    // kmalloc_helper, from the first partially full allocator.
    method AllocPartial() returns (addr: nat)
      requires Separate() && pFull < COUNT && next[pFull] <= COUNT && full <= COUNT
      requires target[pFull] != 0 && CanTake(SlabAt(pFull))
      modifies this`pFull, this`full, prev, next, first, avail, memory[target[pFull]]
      ensures Separate() && State() == TakeSlice(old(State()), old(pFull))
      ensures addr == old(target[pFull]) + SliceAt(size, old(NextSlot(SlabAt(pFull))))
    {
      var i := pFull;
      ghost var m := State();
      var isFull;
      addr, isFull := GetSliceAddr(i);
      if isFull {
        PartialToFull();
      }
      SetAvail(i, avail[i] - 1);
      assert Slabs() == m.slabs[i := Take(m.slabs[i])];
    }

    // The lists can be followed, and the head of the partially full one has a slice to give.
    ghost predicate Serves()
      requires Separate()
      reads this, prev, next, first, avail, target, memory.Values
    {
      && free <= COUNT && pFull <= COUNT && full <= COUNT
      && (free < COUNT ==> next[free] <= COUNT && target[free] == 0)
      && (pFull < COUNT ==> next[pFull] <= COUNT && target[pFull] != 0 && CanTake(SlabAt(pFull)))
    }

    // A new page for allocator i: its fields, and the slices chained.
    method AssignPage(i: nat, page: nat, bytes: array<nat>, pointer: seq<nat>)
      requires Separate() && i < COUNT && target[i] == 0 && page != 0 && page !in memory && page !in target[..]
      requires Detached(bytes) && |pointer| == ADDRESS_SIZE
      modifies this`memory, target, avail, bytes
      ensures Separate() && target[..] == old(target[..])[i := page] && page in memory && memory[page] == bytes
      ensures Slabs() == old(Slabs())[i := Chained(old(first[i]), WithPointer(size, old(bytes[..]), pointer))]
    {
      AttachPage(i, page, bytes);
      if size <= 256 {
        SetAvail(i, (PAGE_SIZE - ADDRESS_SIZE) / (size + 1));
        ChainPage(i, pointer);
      } else {
        SetAvail(i, PAGE_SIZE / size);
      }
    }

    method ChainPage(i: nat, pointer: seq<nat>)
      requires Separate() && i < COUNT && target[i] != 0 && IsLinked(size) && |pointer| == ADDRESS_SIZE
      modifies memory[target[i]]
      ensures Separate()
      ensures Slabs() == old(Slabs())[i :=
        InitLinked(Slab(size, fix, first[i], avail[i], WithPointer(size, old(memory[target[i]][..]), pointer)))]
    {
      ghost var p := Slab(size, fix, first[i], avail[i], WithPointer(size, memory[target[i]][..], pointer));
      InitLinkedPage(memory[target[i]], size, pointer, p);
      assert SlabAt(i) == InitLinked(p);
    }

    method AttachPage(i: nat, page: nat, bytes: array<nat>)
      requires Separate() && i < COUNT && target[i] == 0 && page != 0 && page !in memory && page !in target[..]
      requires Detached(bytes)
      modifies this`memory, target
      ensures Separate() && target[..] == old(target[..])[i := page] && page in memory && memory[page] == bytes
      ensures Slabs() == old(Slabs())[i := Slab(size, fix, first[i], avail[i], bytes[..])]
    {
      memory := memory[page := bytes];
      target[i] := page;
    }

    method SetAvail(i: nat, v: nat)
      requires Separate() && i < COUNT
      modifies avail
      ensures Separate() && avail[i] == v && Slabs() == old(Slabs())[i := old(SlabAt(i)).(avail := v)]
    {
      avail[i] := v;
    }

    // An array the manager does not use yet.
    ghost predicate Detached(bytes: array<nat>)
      reads this`memory
    {
      && bytes.Length == PAGE_SIZE
      && bytes != prev && bytes != next && bytes != first && bytes != avail && bytes != target
      && forall b :: b in memory ==> memory[b] != bytes
    }

    ghost function Chained(at: nat, bytes: seq<nat>): Slab
      requires |bytes| == PAGE_SIZE && IsClass(size)
    {
      var p := Slab(size, fix, at, Slots(size), bytes);
      if IsLinked(size) then InitLinked(p) else p
    }

    // kmalloc_helper, from a new page.
    method AllocFree(page: nat, bytes: array<nat>, pointer: seq<nat>) returns (addr: nat)
      requires Separate() && Serves() && pFull == COUNT && free != COUNT
      requires page != 0 && page !in memory && page !in target[..] && Detached(bytes) && |pointer| == ADDRESS_SIZE
      modifies this`free, this`pFull, this`memory, prev, next, first, avail, target, bytes
      ensures Separate()
      ensures State() == StartPage(old(State()), old(free), page, WithPointer(size, old(bytes[..]), pointer))
      ensures addr == page + SliceAt(size, 0)
    {
      var i := free;
      ghost var m, content := State(), WithPointer(size, bytes[..], pointer);
      addr := BeginPage(i, page, bytes, pointer, content);
      assert SlabAt(i) == Slabs()[i];
      FreeToPartial();
      SetAvail(i, avail[i] - 1);
      assert Slabs() == m.slabs[i := NewPage(size, fix, content)];
    }

    // The first slice of a new page.
    method FirstSlice(i: nat, page: nat, ghost content: seq<nat>) returns (addr: nat)
      requires Separate() && i < COUNT && target[i] == page != 0 && |content| == PAGE_SIZE
      requires SlabAt(i) == Chained(first[i], content)
      modifies first, memory[page]
      ensures Separate() && Slabs() == old(Slabs())[i := NewPage(size, fix, content).(avail := Slots(size))]
      ensures addr == page + SliceAt(size, 0)
    {
      addr := page;
      if size <= 256 {
        ThreadedFirst(Slab(size, fix, 0, Slots(size), content), first[i], Slots(size));
        var bytes := memory[page];
        var nextAvail := bytes[ADDRESS_SIZE];
        bytes[ADDRESS_SIZE] := SLICE_END;
        addr := addr + ADDRESS_SIZE + 1;
        first[i] := nextAvail;
      } else {
        first[i] := 0x80;
      }
      assert SlabAt(i) == NewPage(size, fix, content).(avail := Slots(size));
    }

    method BeginPage(i: nat, page: nat, bytes: array<nat>, pointer: seq<nat>,
            ghost content: seq<nat>) returns (addr: nat)
      requires Separate() && i < COUNT && target[i] == 0 && page != 0 && page !in memory && page !in target[..]
      requires Detached(bytes) && |pointer| == ADDRESS_SIZE && content == WithPointer(size, bytes[..], pointer)
      modifies this`memory, first, target, avail, bytes
      ensures Separate() && target[..] == old(target[..])[i := page]
      ensures Slabs() == old(Slabs())[i := NewPage(size, fix, content).(avail := Slots(size))]
      ensures addr == page + SliceAt(size, 0)
    {
      AssignPage(i, page, bytes, pointer);
      addr := FirstSlice(i, page, content);
    }

    // kmalloc_helper on a manager with room.
    method Kmalloc(page: nat, bytes: array<nat>, pointer: seq<nat>) returns (addr: nat)
      requires Valid() && HasRoom(State())
      requires page != 0 && page !in memory && page !in target[..] && Detached(bytes) && |pointer| == ADDRESS_SIZE
      modifies this`free, this`pFull, this`full, this`memory, prev, next, first, avail, target, bytes, memory.Values
      ensures Valid() && Ready(old(State()))
      ensures State() ==
        if old(pFull) != COUNT then TakeSlice(old(State()), old(pFull))
        else StartPage(old(State()), old(free), page, WithPointer(size, old(bytes[..]), pointer))
      ensures addr ==
        if old(pFull) != COUNT then old(target[pFull]) + SliceAt(size, old(NextSlot(State().slabs[pFull])))
        else page + SliceAt(size, 0)
    {
      ghost var m, supply := State(), Supply(page, WithPointer(size, bytes[..], pointer), 0);
      DescribedReady(m);
      DescribedServes();
      if pFull != COUNT {
        addr := AllocPartial();
      } else {
        addr := AllocFree(page, bytes, pointer);
      }
      ServedDescribed(m, supply, State());
    }

    // ---- kfree ----

    // The slice goes back into the chain or the bitmap of allocator i.
    method GiveBackSlice(i: nat, offset: nat)
      requires Separate() && i < COUNT && target[i] != 0
      requires (IsLinked(size) ==> ADDRESS_SIZE < offset) && offset < PAGE_SIZE && SlotOf(size, offset) < Slots(size)
      modifies first, avail, memory[target[i]]
      ensures Separate() && Slabs() == old(Slabs())[i := GiveBack(old(SlabAt(i)), offset)]
    {
      ghost var p := SlabAt(i);
      avail[i] := avail[i] + 1;
      if size <= 256 {
        var index := (offset - ADDRESS_SIZE) / (size + 1);
        memory[target[i]][if fix then offset - 1 else offset] := first[i];
        first[i] := index;
      } else {
        var index := offset / size;
        first[i] := Buddy(first[i], 7 - index);
      }
      assert SlabAt(i) == GiveBack(p, offset);
    }

    // The page of allocator i goes back to the frame allocator.
    method DropPage(i: nat)
      requires Separate() && i < COUNT && target[i] != 0
      modifies this`memory, target, avail
      ensures Separate() && target[..] == old(target[..])[i := 0]
      ensures Slabs() == old(Slabs())[i := old(SlabAt(i)).(avail := 0, bytes := [])]
      ensures memory == old(memory - {target[i]})
    {
      memory := memory - {target[i]};
      target[i] := 0;
      avail[i] := 0;
    }

    // A manager in order can be served from and freed to.
    lemma InOrderServes(sets: map<nat, set<nat>>)
      requires Separate() && InOrder(State(), sets)
      ensures Serves()
    {
      var l, kind := ListState(), Kinds(State());
      HeadOf(l, FREE, kind);
      HeadOf(l, PARTIAL, kind);
      HeadOf(l, FULL, kind);
      if free < COUNT { ListNeighbours(l, FREE, kind, free); }
      if pFull < COUNT {
        ListNeighbours(l, PARTIAL, kind, pFull);
        TakeSliceKeeps(State(), sets);
      }
    }

    lemma DescribedServes()
      requires Valid()
      ensures Serves()
    {
      var sets :| InOrder(State(), sets);
      InOrderServes(sets);
    }

    lemma DescribedNeighbours(i: nat)
      requires Valid() && i < COUNT
      ensures Neighbours(i)
    {
      NeighboursBounded(ListState(), Kinds(State()), i);
    }

    // The lists around allocator i can be followed.
    ghost predicate Neighbours(i: nat)
      requires Separate() && i < COUNT
      reads this, prev, next, target
    {
      prev[i] <= COUNT && next[i] <= COUNT && free <= COUNT && pFull <= COUNT && full <= COUNT
    }

    // kfree: an allocator whose page has no slice in use loses it, one whose page was full gets room.
    method Settle(i: nat) returns (returned: bool)
      requires Separate() && i < COUNT && target[i] != 0 && Neighbours(i)
      modifies this`free, this`pFull, this`full, this`memory, prev, next, avail, target
      ensures Separate() && State() == Freed(old(State()), i, old(SlabAt(i)))
      ensures returned <==> old(avail[i]) == Slots(size)
    {
      ghost var m, p := State(), SlabAt(i);
      assert m.slabs[i := p] == m.slabs;
      var sum := if size <= 256 then (PAGE_SIZE - ADDRESS_SIZE) / (size + 1) else PAGE_SIZE / size;
      returned := sum == avail[i];
      if returned {
        DropPage(i);
        PartialToFree(i);
      } else if avail[i] == 1 {
        FullToPartial(i);
      }
    }

    // kfree of a slice in use, from the allocator and the offset in its page on; says whether the page went back.
    method Kfree(i: nat, offset: nat, ghost slot: nat) returns (returned: bool)
      requires Valid() && i < COUNT && target[i] != 0 && InUse(State(), i, slot)
      requires slot < Slots(size) && offset == SliceAt(size, slot)
      modifies this`free, this`pFull, this`full, this`memory, prev, next, first, avail, target, memory[target[i]]
      ensures Separate() && GivenBack(old(State()), i, offset, State())
      ensures returned <==> old(avail[i]) + 1 == Slots(size)
      ensures Valid() <==> SliceSafe(old(SlabAt(i)))
    {
      ghost var m := State();
      DescribedNeighbours(i);
      UsedReady(m, i, slot, offset);
      returned := Release(i, offset);
      FreedDescribed(m, i, slot, offset, State());
    }

    method Release(i: nat, offset: nat) returns (returned: bool)
      requires Separate() && i < COUNT && target[i] != 0 && Neighbours(i)
      requires (IsLinked(size) ==> ADDRESS_SIZE < offset) && offset < PAGE_SIZE && SlotOf(size, offset) < Slots(size)
      modifies this`free, this`pFull, this`full, this`memory, prev, next, first, avail, target, memory[target[i]]
      ensures Separate() && State() == Freed(old(State()), i, GiveBack(old(SlabAt(i)), offset))
      ensures returned <==> BecomesEmpty(old(State()), GiveBack(old(SlabAt(i)), offset))
    {
      ghost var m, p := State(), GiveBack(SlabAt(i), offset);
      GiveBackSlice(i, offset);
      assert SlabAt(i) == p;
      FreedTwice(m, i, p);
      returned := Settle(i);
    }
  }

  lemma FreedTwice(m: Manager, i: nat, p: Slab)
    requires i < |m.slabs| && i < |m.target| && IsClass(m.size)
    ensures Freed(m.(slabs := m.slabs[i := p]), i, p) == Freed(m, i, p)
  {
    var q := p.(avail := 0, bytes := []);
    assert m.slabs[i := p][i := q] == m.slabs[i := q];
    assert m.slabs[i := p][i := p] == m.slabs[i := p];
  }

  lemma NeighboursBounded(l: Lists, kind: seq<nat>, i: nat)
    requires ListsAgree(l, kind) && i < COUNT && kind[i] < 3
    ensures l.prev[i] <= COUNT && l.next[i] <= COUNT
    ensures l.heads[FREE] <= COUNT && l.heads[PARTIAL] <= COUNT && l.heads[FULL] <= COUNT
  {
    HeadOf(l, FREE, kind);
    HeadOf(l, PARTIAL, kind);
    HeadOf(l, FULL, kind);
    ListNeighbours(l, kind[i], kind, i);
  }

  lemma ListNeighbours(l: Lists, a: nat, kind: seq<nat>, i: nat)
    requires Shaped(l, kind) && a < 3 && i < COUNT && kind[i] == a && HasList(l, a, kind)
    ensures l.prev[i] <= COUNT && l.next[i] <= COUNT
  {
    var s: seq<nat> :| LinkedAs(l, a, s) && Members(kind, a, s);
    assert i in s;
    var k: nat :| k < |s| && s[k] == i;
    UnlinkNeighbours(l, a, s, k);
  }

  // What an allocator's `first` was does not matter to a new page.
  lemma {:induction false} ThreadedFirst(p: Slab, at: nat, k: nat)
    requires Whole(p) && IsLinked(p.size) && k <= Slots(p.size)
    ensures Threaded(p.(first := at), k) == Threaded(p, k).(first := at)
  {
    if k > 0 { ThreadedFirst(p, at, k - 1); }
  }

  lemma ThreadedNext(p: Slab, i: nat)
    requires Whole(p) && IsLinked(p.size) && i < Slots(p.size)
    ensures HeaderAt(p.size, i) < PAGE_SIZE
    ensures Threaded(p, i + 1).bytes == Threaded(p, i).bytes[HeaderAt(p.size, i) := i + 1]
  {
  }

  // The loop of init_linked_page runs once for every slot.
  lemma SlotFits(size: nat, i: nat)
    requires IsClass(size) && IsLinked(size) && i <= Slots(size)
    ensures HeaderAt(size, i) + size + 1 <= PAGE_SIZE <==> i < Slots(size)
    ensures HeaderAt(size, i + 1) == HeaderAt(size, i) + size + 1
    ensures i > 0 ==> HeaderAt(size, i - 1) == HeaderAt(size, i) - (size + 1) && HeaderAt(size, i - 1) < PAGE_SIZE
  {
  }
}
