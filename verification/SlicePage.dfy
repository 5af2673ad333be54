// One page of small slices and the two fields of its allocator that describe it (kernel/kernel/kmm.c). Up to
// 256 bytes the free slices are chained through one-byte headers inside the page; above, the byte `first` is a
// bitmap whose top bits say which slices are taken.

module SlicePage {
  import opened Basics
  import opened Links
  import opened Powers
  import opened Rounding

  const PAGE_SIZE: nat := 4096
  const ADDRESS_SIZE: nat := 4
  const SLICE_END: nat := 0xFF

  // The classes of slice_sizes.
  predicate IsClass(size: nat) {
    size == 16 || size == 32 || size == 64 || size == 128 || size == 256 || size == 512 || size == 1024 || size == 2048
  }

  predicate IsLinked(size: nat) {
    size <= 256
  }

  // `fix` stands for the repair that stores the link in the header byte instead of the slice's first byte.
  datatype Slab = Slab(size: nat, fix: bool, first: nat, avail: nat, bytes: seq<nat>)

  // ---- where the slices lie ----

  function Slots(size: nat): (n: nat)
    requires IsClass(size)
    ensures 2 <= n <= 240 && (!IsLinked(size) ==> n <= 8)
  {
    if IsLinked(size) then (PAGE_SIZE - ADDRESS_SIZE) / (size + 1) else PAGE_SIZE / size
  }

  // Offset of the header byte of slot k: the page starts with a pointer to the allocator.
  function HeaderAt(size: nat, k: nat): nat {
    ADDRESS_SIZE + k * (size + 1)
  }

  function SliceAt(size: nat, k: nat): nat {
    if IsLinked(size) then HeaderAt(size, k) + 1 else k * size
  }

  // The slot kfree computes from the offset of a slice in its page.
  function SlotOf(size: nat, offset: nat): nat
    requires IsClass(size) && (IsLinked(size) ==> ADDRESS_SIZE <= offset)
  {
    if IsLinked(size) then (offset - ADDRESS_SIZE) / (size + 1) else offset / size
  }

  lemma {:induction false} TimesApart(j: nat, k: nat, d: nat)
    requires j < k
    ensures j * d + d <= k * d
  {
    assert k * d == (k - 1) * d + d;
    if j < k - 1 { TimesApart(j, k - 1, d); }
  }

  // Every slice lies in its page, behind its header byte.
  lemma SliceInPage(size: nat, k: nat)
    requires IsClass(size) && k < Slots(size)
    ensures SliceAt(size, k) + size <= PAGE_SIZE
    ensures IsLinked(size) ==> ADDRESS_SIZE <= HeaderAt(size, k) < SliceAt(size, k)
  {
  }

  // And no further slice would fit.
  lemma NoMoreSlots(size: nat)
    requires IsClass(size)
    ensures SliceAt(size, Slots(size) - 1) + size <= PAGE_SIZE < SliceAt(size, Slots(size)) + size
  {
  }

  // No two slices of a page share a byte.
  lemma SlicesApart(size: nat, j: nat, k: nat)
    requires IsClass(size) && j < k
    ensures SliceAt(size, j) + size <= SliceAt(size, k)
  {
  }

  // No slice contains a header byte.
  lemma HeaderNotInSlice(size: nat, j: nat, k: nat, offset: nat)
    requires IsClass(size) && IsLinked(size) && SliceAt(size, k) <= offset < SliceAt(size, k) + size
    ensures offset != HeaderAt(size, j)
  {
  }

  // The address arithmetic of kfree finds the slot again.
  lemma SlotRecovered(size: nat, k: nat)
    requires IsClass(size)
    ensures SlotOf(size, SliceAt(size, k)) == k
  {
  }

  // ---- the header bytes of a linked page ----

  predicate Whole(p: Slab) {
    IsClass(p.size) && |p.bytes| == PAGE_SIZE
  }

  ghost function Headers(p: Slab): (h: seq<nat>)
    requires Whole(p) && IsLinked(p.size)
    ensures |h| == Slots(p.size)
  {
    seq(Slots(p.size), k requires 0 <= k < Slots(p.size) => HeaderByte(p, k))
  }

  function HeaderByte(p: Slab, k: nat): nat
    requires Whole(p) && IsLinked(p.size) && k < Slots(p.size)
  {
    SliceInPage(p.size, k);
    p.bytes[HeaderAt(p.size, k)]
  }

  function WithByte(p: Slab, offset: nat, v: nat): Slab
    requires offset < |p.bytes|
  {
    p.(bytes := p.bytes[offset := v])
  }

  lemma HeaderStored(p: Slab, k: nat, v: nat)
    requires Whole(p) && IsLinked(p.size) && k < Slots(p.size)
    ensures HeaderAt(p.size, k) < PAGE_SIZE
    ensures Headers(WithByte(p, HeaderAt(p.size, k), v)) == Headers(p)[k := v]
  {
    SliceInPage(p.size, k);
    forall j | 0 <= j < Slots(p.size) && j != k ensures HeaderAt(p.size, j) != HeaderAt(p.size, k) {
      TimesApart(if j < k then j else k, if j < k then k else j, p.size + 1);
    }
  }

  lemma SliceStored(p: Slab, k: nat, offset: nat, v: nat)
    requires Whole(p) && IsLinked(p.size) && k < Slots(p.size)
    requires SliceAt(p.size, k) <= offset < SliceAt(p.size, k) + p.size && offset < PAGE_SIZE
    ensures Headers(WithByte(p, offset, v)) == Headers(p)
  {
    forall j | 0 <= j < Slots(p.size) ensures HeaderAt(p.size, j) != offset {
      HeaderNotInSlice(p.size, j, k, offset);
    }
  }

  // ---- the operations ----

  // init_linked_page: every header links to the next slot.
  function Threaded(p: Slab, k: nat): (r: Slab)
    requires Whole(p) && IsLinked(p.size) && k <= Slots(p.size)
    ensures Whole(r) && r == p.(bytes := r.bytes)
  {
    if k == 0 then p else
      SliceInPage(p.size, k - 1);
      WithByte(Threaded(p, k - 1), HeaderAt(p.size, k - 1), k)
  }

  function InitLinked(p: Slab): (r: Slab)
    requires Whole(p) && IsLinked(p.size)
    ensures Whole(r) && r == p.(bytes := r.bytes)
  {
    SliceInPage(p.size, Slots(p.size) - 1);
    WithByte(Threaded(p, Slots(p.size)), HeaderAt(p.size, Slots(p.size) - 1), SLICE_END)
  }

  // A page just taken from the frame allocator, with the first slice handed out.
  function NewPage(size: nat, fix: bool, bytes: seq<nat>): (r: Slab)
    requires IsClass(size) && |bytes| == PAGE_SIZE
    ensures Whole(r) && r.size == size && r.fix == fix
  {
    var p := Slab(size, fix, 0, Slots(size), bytes);
    if IsLinked(size) then
      var q := InitLinked(p);
      WithByte(q, ADDRESS_SIZE, SLICE_END).(first := q.bytes[ADDRESS_SIZE], avail := p.avail - 1)
    else
      p.(first := 0x80, avail := p.avail - 1)
  }

  // Slot 0 is the top bit of the byte.
  predicate SlotBit(bitmap: nat, k: nat)
    requires k < 8
  {
    Bit(bitmap, 7 - k)
  }

  // The first clear bit of a bitmap, from slot i on.
  function FirstClear(bitmap: nat, bits: nat, i: nat): (k: nat)
    requires i <= bits <= 8
    ensures i <= k <= bits
    ensures forall j :: i <= j < k ==> SlotBit(bitmap, j)
    ensures k < bits ==> !SlotBit(bitmap, k)
    decreases bits - i
  {
    if i == bits || !SlotBit(bitmap, i) then i else FirstClear(bitmap, bits, i + 1)
  }

  // The slot get_slice_addr takes.
  function NextSlot(p: Slab): nat
    requires IsClass(p.size)
  {
    if IsLinked(p.size) then p.first else FirstClear(p.first, Slots(p.size), 0)
  }

  predicate CanTake(p: Slab) {
    Whole(p) && p.avail > 0 && NextSlot(p) < Slots(p.size)
  }

  // get_slice_addr and the decrement of its caller.
  function Take(p: Slab): (r: Slab)
    requires CanTake(p)
    ensures Whole(r) && r.size == p.size && r.fix == p.fix && r.avail == p.avail - 1
  {
    if IsLinked(p.size) then
      SliceInPage(p.size, p.first);
      WithByte(p, HeaderAt(p.size, p.first), SLICE_END).(first := HeaderByte(p, p.first), avail := p.avail - 1)
    else
      p.(first := Or(p.first, Pow2(7 - NextSlot(p))), avail := p.avail - 1)
  }

  // What get_slice_addr returns: the page has become full.
  predicate ReportsFull(p: Slab)
    requires CanTake(p)
  {
    if IsLinked(p.size) then HeaderByte(p, p.first) == SLICE_END
    else ShiftRight(Take(p).first, 8 - Slots(p.size)) == ShiftRight(0xFF, 8 - Slots(p.size))
  }

  // What kfree does to the page and the allocator's fields.
  function GiveBack(p: Slab, offset: nat): (r: Slab)
    requires Whole(p) && (IsLinked(p.size) ==> ADDRESS_SIZE < offset) && offset < PAGE_SIZE
    requires SlotOf(p.size, offset) < Slots(p.size)
    ensures Whole(r) && r.size == p.size && r.fix == p.fix && r.avail == p.avail + 1
  {
    if IsLinked(p.size) then
      WithByte(p, if p.fix then offset - 1 else offset, p.first).(first := SlotOf(p.size, offset), avail := p.avail + 1)
    else
      p.(first := Buddy(p.first, 7 - SlotOf(p.size, offset)), avail := p.avail + 1)
  }

  // ---- the invariant ----

  // The chain from `first` through the header bytes `h` visits the free slots, each once.
  ghost predicate Threads(h: seq<nat>, first: nat, avail: nat, free: set<nat>, s: seq<nat>) {
    && NextLinks(h, first, SLICE_END, s) && Distinct(s) && |s| == avail
    && (forall k :: k in s <==> k in free)
  }

  // The headers of the slots that are not free say SLICE_END.
  ghost predicate Chained(h: seq<nat>, first: nat, avail: nat, free: set<nat>) {
    && (exists s :: Threads(h, first, avail, free, s))
    && (forall k :: 0 <= k < |h| && k !in free ==> h[k] == SLICE_END)
  }

  ghost predicate Mapped(p: Slab, free: set<nat>)
    requires Whole(p) && !IsLinked(p.size)
  {
    p.first < 256 && forall k :: 0 <= k < 8 ==> (SlotBit(p.first, k) <==> k < Slots(p.size) && k !in free)
  }

  // `free` are the free slots of the page.
  ghost predicate Holds(p: Slab, free: set<nat>) {
    && Whole(p)
    && p.avail == |free|
    && (forall k :: k in free ==> k < Slots(p.size))
    && if IsLinked(p.size) then Chained(Headers(p), p.first, p.avail, free) else Mapped(p, free)
  }

  // ---- a new page ----

  lemma {:induction false} ThreadedHeaders(p: Slab, k: nat, j: nat)
    requires Whole(p) && IsLinked(p.size) && j < k <= Slots(p.size)
    ensures Headers(Threaded(p, k))[j] == j + 1
  {
    SliceInPage(p.size, k - 1);
    HeaderStored(Threaded(p, k - 1), k - 1, k);
    if j < k - 1 { ThreadedHeaders(p, k - 1, j); }
  }

  lemma InitialHeaders(p: Slab, j: nat)
    requires Whole(p) && IsLinked(p.size) && j < Slots(p.size)
    ensures Headers(InitLinked(p))[j] == if j + 1 < Slots(p.size) then j + 1 else SLICE_END
  {
    SliceInPage(p.size, Slots(p.size) - 1);
    HeaderStored(Threaded(p, Slots(p.size)), Slots(p.size) - 1, SLICE_END);
    ThreadedHeaders(p, Slots(p.size), j);
  }

  ghost function Above0(n: nat): (r: set<nat>)
    requires n > 0
    ensures |r| == n - 1
    ensures forall k :: k in r <==> 0 < k < n
  {
    if n == 1 then {} else Above0(n - 1) + {n - 1}
  }

  ghost function Upwards(n: nat): (s: seq<nat>)
    requires n > 0
    ensures |s| == n - 1 && forall i :: 0 <= i < n - 1 ==> s[i] == i + 1
    ensures forall k :: k in s <==> 0 < k < n
  {
    if n == 1 then [] else Upwards(n - 1) + [n - 1]
  }

  lemma NewChain(h: seq<nat>, n: nat)
    requires 1 < n == |h| <= 240
    requires forall j :: 0 <= j < n ==> h[j] == if j == 0 || j + 1 == n then SLICE_END else j + 1
    ensures Chained(h, 1, n - 1, Above0(n))
  {
    NewThreads(h, n);
    forall k | 0 <= k < |h| && k !in Above0(n) ensures h[k] == SLICE_END {
      assert k == 0;
    }
  }

  lemma NewThreads(h: seq<nat>, n: nat)
    requires 1 < n == |h| <= 240
    requires forall j :: 0 <= j < n ==> h[j] == if j == 0 || j + 1 == n then SLICE_END else j + 1
    ensures Threads(h, 1, n - 1, Above0(n), Upwards(n))
  {
  }

  lemma NewLinkedPage(size: nat, fix: bool, bytes: seq<nat>)
    requires IsClass(size) && |bytes| == PAGE_SIZE && IsLinked(size)
    ensures Holds(NewPage(size, fix, bytes), Above0(Slots(size)))
  {
    var n := Slots(size);
    var p := Slab(size, fix, 0, n, bytes);
    var q := InitLinked(p);
    forall j | 0 <= j < n ensures Headers(q)[j] == if j + 1 < n then j + 1 else SLICE_END {
      InitialHeaders(p, j);
    }
    FirstTaken(q, NewPage(size, fix, bytes));
    NewChain(Headers(q)[0 := SLICE_END], n);
  }

  lemma FirstTaken(q: Slab, r: Slab)
    requires Whole(q) && IsLinked(q.size)
    requires Whole(r) && r.size == q.size && r.bytes == q.bytes[ADDRESS_SIZE := SLICE_END] &&
      r.first == q.bytes[ADDRESS_SIZE]
    ensures Headers(r) == Headers(q)[0 := SLICE_END] && r.first == Headers(q)[0]
  {
  }

  lemma NewMappedPage(size: nat, fix: bool, bytes: seq<nat>)
    requires IsClass(size) && |bytes| == PAGE_SIZE && !IsLinked(size)
    ensures Holds(NewPage(size, fix, bytes), Above0(Slots(size)))
  {
    var r := NewPage(size, fix, bytes);
    assert r.first == 0x80;
    assert Bit(0x80, 7) && !Bit(0x80, 6) && !Bit(0x80, 5) && !Bit(0x80, 4);
    assert !Bit(0x80, 3) && !Bit(0x80, 2) && !Bit(0x80, 1) && !Bit(0x80, 0);
    forall k | 0 <= k < 8 ensures SlotBit(0x80, k) <==> k == 0 {
      if k == 0 {} else if k == 1 {} else if k == 2 {} else if k == 3 {}
      else if k == 4 {} else if k == 5 {} else if k == 6 {}
    }
  }

  // The new page holds every slot but the one handed out.
  lemma NewPageHolds(size: nat, fix: bool, bytes: seq<nat>)
    requires IsClass(size) && |bytes| == PAGE_SIZE
    ensures Holds(NewPage(size, fix, bytes), Above0(Slots(size)))
  {
    if IsLinked(size) {
      NewLinkedPage(size, fix, bytes);
    } else {
      NewMappedPage(size, fix, bytes);
    }
  }

  // ---- taking a slice ----

  lemma ChainTake(h: seq<nat>, first: nat, avail: nat, free: set<nat>)
    requires Chained(h, first, avail, free) && free != {} && |h| < SLICE_END && avail == |free|
    ensures first in free && first < |h| && avail > 0
    ensures Chained(h[first := SLICE_END], h[first], avail - 1, free - {first})
    ensures h[first] == SLICE_END <==> free == {first}
  {
    var s: seq<nat> :| Threads(h, first, avail, free, s);
    TakeThreads(h, first, avail, free, s);
    assert Threads(h[first := SLICE_END], h[first], avail - 1, free - {first}, s[1..]);
    TakeLast(h, first, avail, free, s);
  }

  lemma TakeThreads(h: seq<nat>, first: nat, avail: nat, free: set<nat>, s: seq<nat>)
    requires Threads(h, first, avail, free, s) && free != {} && avail == |free|
    ensures s != [] && first == s[0] && first in free && first < |h| && avail > 0
    ensures Threads(h[first := SLICE_END], h[first], avail - 1, free - {first}, s[1..])
  {
    assert s[0] in free;
    TailLinks(h, first, s);
    TailMembers(s);
  }

  lemma TakeLast(h: seq<nat>, first: nat, avail: nat, free: set<nat>, s: seq<nat>)
    requires Threads(h, first, avail, free, s) && s != [] && first < |h|
    ensures h[first] == SLICE_END <==> free == {first}
  {
    assert h[s[0]] == At(s, 1, SLICE_END);
    if |s| == 1 {
      assert forall k :: k in free ==> k == s[0];
      assert s[0] in free;
    } else {
      assert s[1] in free && s[1] < SLICE_END;
    }
  }

  lemma TailLinks(h: seq<nat>, first: nat, s: seq<nat>)
    requires NextLinks(h, first, SLICE_END, s) && Distinct(s) && s != []
    ensures first < |h| && NextLinks(h[first := SLICE_END], h[first], SLICE_END, s[1..])
  {
  }

  lemma LinkedTake(p: Slab, free: set<nat>)
    requires Holds(p, free) && free != {} && IsLinked(p.size)
    ensures CanTake(p) && p.first in free
    ensures Holds(Take(p), free - {p.first})
    ensures ReportsFull(p) <==> free == {p.first}
  {
    ChainTake(Headers(p), p.first, p.avail, free);
    HeaderStored(p, p.first, SLICE_END);
    assert Headers(Take(p)) == Headers(WithByte(p, HeaderAt(p.size, p.first), SLICE_END));
  }

  lemma {:induction false} PowerBit(j: nat, k: nat)
    ensures Bit(Pow2(j), k) <==> j == k
  {
    if j > 0 && k > 0 { PowerBit(j - 1, k - 1); }
    if j == 0 && k > 0 { ZeroBit(k - 1); }
  }

  lemma SetSlotBit(bitmap: nat, i: nat, k: nat)
    requires i < 8 && k < 8
    ensures SlotBit(Or(bitmap, Pow2(7 - i)), k) <==> SlotBit(bitmap, k) || k == i
  {
    OrBit(bitmap, Pow2(7 - i), 7 - k);
    PowerBit(7 - i, 7 - k);
  }

  lemma FlipSlotBit(bitmap: nat, i: nat, k: nat)
    requires i < 8 && k < 8
    ensures SlotBit(Buddy(bitmap, 7 - i), k) <==> SlotBit(bitmap, k) != (k == i)
  {
    BuddyFlipsOneBit(bitmap, 7 - i, 7 - k);
  }

  // The comparison of the shifted bitmap with the shifted 0xFF asks whether every slot is taken.
  lemma ShiftedFull(bitmap: nat, bits: nat)
    requires bitmap < 256 && 0 < bits <= 8
    ensures ShiftRight(bitmap, 8 - bits) == ShiftRight(0xFF, 8 - bits) <==>
      forall k :: 0 <= k < bits ==> SlotBit(bitmap, k)
  {
    var low := 8 - bits;
    ShiftLimits(bitmap, low);
    ShiftLimits(0xFF, low);
    forall k | 0 <= k < bits
      ensures SlotBit(bitmap, k) <==> Bit(ShiftRight(bitmap, low), bits - 1 - k)
      ensures SlotBit(0xFF, k) && Bit(ShiftRight(0xFF, low), bits - 1 - k)
    {
      ShiftBit(bitmap, low, bits - 1 - k);
      ShiftBit(0xFF, low, bits - 1 - k);
      FullByte(7 - k);
    }
    if forall k :: 0 <= k < bits ==> SlotBit(bitmap, k) {
      forall j | 0 <= j < bits ensures Bit(ShiftRight(bitmap, low), j) && Bit(ShiftRight(0xFF, low), j) {
        assert SlotBit(bitmap, bits - 1 - j) && SlotBit(0xFF, bits - 1 - j);
      }
      AllOnes(ShiftRight(bitmap, low), bits);
      AllOnes(ShiftRight(0xFF, low), bits);
    }
  }

  lemma FullByte(j: nat)
    requires j < 8
    ensures Bit(0xFF, j)
  {
    if j == 0 {} else if j == 1 {} else if j == 2 {} else if j == 3 {}
    else if j == 4 {} else if j == 5 {} else if j == 6 {}
  }

  lemma ShiftLimits(n: nat, low: nat)
    requires n < 256 && low < 8
    ensures ShiftRight(n, low) < Pow2(8 - low)
  {
    assert Pow2(8) == 256 by { assert Pow2(4) == 16; }
    ShiftUnder(n, low, 8);
  }

  lemma {:induction false} ShiftUnder(n: nat, low: nat, top: nat)
    requires low <= top && n < Pow2(top)
    ensures ShiftRight(n, low) < Pow2(top - low)
  {
    if low > 0 { ShiftUnder(n / 2, low - 1, top - 1); }
  }

  lemma MappedTake(p: Slab, free: set<nat>)
    requires Holds(p, free) && free != {} && !IsLinked(p.size)
    ensures CanTake(p) && NextSlot(p) in free
    ensures Holds(Take(p), free - {NextSlot(p)})
    ensures ReportsFull(p) <==> free == {NextSlot(p)}
  {
    var f: nat :| f in free;
    assert !SlotBit(p.first, f);
    var i, r := NextSlot(p), Take(p);
    ByteSet(p.first, i);
    forall k | 0 <= k < 8 ensures SlotBit(r.first, k) <==> k < Slots(p.size) && k !in free - {i} {
      SetSlotBit(p.first, i, k);
    }
    assert Mapped(r, free - {i});
    MappedFull(r, free - {i});
    assert free - {i} == {} <==> free == {i};
  }

  lemma MappedFull(r: Slab, free: set<nat>)
    requires Whole(r) && !IsLinked(r.size) && Mapped(r, free) && forall k :: k in free ==> k < Slots(r.size)
    ensures ShiftRight(r.first, 8 - Slots(r.size)) == ShiftRight(0xFF, 8 - Slots(r.size)) <==> free == {}
  {
    ShiftedFull(r.first, Slots(r.size));
    if free != {} {
      var g: nat :| g in free;
      assert !SlotBit(r.first, g);
    }
  }

  lemma ByteSet(bitmap: nat, i: nat)
    requires bitmap < 256 && i < 8
    ensures Or(bitmap, Pow2(7 - i)) < 256
  {
    assert Pow2(8) == 256 by { assert Pow2(4) == 16; }
    Pow2Monotone(7 - i, 8);
    OrBelow(bitmap, Pow2(7 - i), 8);
  }

  // get_slice_addr takes a free slot, and reports the page full exactly when it was the last.
  lemma TakeHolds(p: Slab, free: set<nat>)
    requires Holds(p, free) && free != {}
    ensures CanTake(p) && NextSlot(p) in free
    ensures Holds(Take(p), free - {NextSlot(p)})
    ensures ReportsFull(p) <==> free == {NextSlot(p)}
    ensures ReportsFull(p) <==> Take(p).avail == 0
  {
    if IsLinked(p.size) {
      LinkedTake(p, free);
    } else {
      MappedTake(p, free);
    }
    assert |free - {NextSlot(p)}| == 0 <==> free == {NextSlot(p)};
  }

  // ---- giving a slice back ----

  // When the chain comes through: with the repair, with a bitmap, and otherwise only for a page without any
  // other free slice.
  predicate ChainSafe(p: Slab) {
    p.fix || !IsLinked(p.size) || p.avail == 0
  }

  // One slice of the page is in use.
  predicate OneOut(p: Slab) {
    IsClass(p.size) && p.avail + 1 == Slots(p.size)
  }

  // Where the shipped kfree keeps track: without chains, on a full page, or when the page goes back as a whole.
  predicate SliceSafe(p: Slab) {
    ChainSafe(p) || OneOut(p)
  }

  lemma GiveBackReady(size: nat, slot: nat)
    requires IsClass(size) && slot < Slots(size)
    ensures SliceAt(size, slot) < PAGE_SIZE && (IsLinked(size) ==> ADDRESS_SIZE < SliceAt(size, slot))
    ensures SlotOf(size, SliceAt(size, slot)) == slot
  {
    SliceInPage(size, slot);
    SlotRecovered(size, slot);
  }

  ghost predicate Taken(p: Slab, free: set<nat>, slot: nat) {
    Holds(p, free) && slot < Slots(p.size) && slot !in free
  }

  lemma LinkedHeaders(p: Slab, slot: nat)
    requires Whole(p) && IsLinked(p.size) && slot < Slots(p.size)
    ensures SliceAt(p.size, slot) < PAGE_SIZE && ADDRESS_SIZE < SliceAt(p.size, slot)
    ensures SlotOf(p.size, SliceAt(p.size, slot)) == slot
    ensures var r := GiveBack(p, SliceAt(p.size, slot));
      r.first == slot && Headers(r) == if p.fix then Headers(p)[slot := p.first] else Headers(p)
  {
    GiveBackReady(p.size, slot);
    var at := SliceAt(p.size, slot);
    if p.fix {
      HeaderStored(p, slot, p.first);
      assert Headers(GiveBack(p, at)) == Headers(WithByte(p, at - 1, p.first));
    } else {
      SliceStored(p, slot, at, p.first);
      assert Headers(GiveBack(p, at)) == Headers(WithByte(p, at, p.first));
    }
  }

  lemma PushedLinks(h: seq<nat>, first: nat, s: seq<nat>, slot: nat)
    requires NextLinks(h, first, SLICE_END, s) && Distinct(s) && slot < |h| < SLICE_END && slot !in s
    ensures NextLinks(h[slot := first], slot, SLICE_END, [slot] + s) && Distinct([slot] + s)
  {
    var t := [slot] + s;
    assert forall k :: 0 < k < |t| ==> t[k] == s[k - 1] && At(t, k + 1, SLICE_END) == At(s, k, SLICE_END);
  }

  lemma ChainGiveBack(h: seq<nat>, first: nat, avail: nat, free: set<nat>, slot: nat)
    requires Chained(h, first, avail, free) && slot < |h| < SLICE_END && slot !in free
    ensures Chained(h[slot := first], slot, avail + 1, free + {slot})
  {
    var s: seq<nat> :| Threads(h, first, avail, free, s);
    PushedLinks(h, first, s, slot);
    assert Threads(h[slot := first], slot, avail + 1, free + {slot}, [slot] + s);
  }

  lemma LinkedGiveBack(p: Slab, free: set<nat>, slot: nat)
    requires Taken(p, free, slot) && IsLinked(p.size) && ChainSafe(p)
    ensures SliceAt(p.size, slot) < PAGE_SIZE && ADDRESS_SIZE < SliceAt(p.size, slot)
    ensures SlotOf(p.size, SliceAt(p.size, slot)) == slot
    ensures Holds(GiveBack(p, SliceAt(p.size, slot)), free + {slot})
  {
    LinkedHeaders(p, slot);
    ChainGiveBack(Headers(p), p.first, p.avail, free, slot);
    if !p.fix {
      var s: seq<nat> :| Threads(Headers(p), p.first, p.avail, free, s);
      assert p.first == SLICE_END && Headers(p)[slot := p.first] == Headers(p);
    }
  }

  lemma MappedGiveBack(p: Slab, free: set<nat>, slot: nat)
    requires Taken(p, free, slot) && !IsLinked(p.size)
    ensures SliceAt(p.size, slot) < PAGE_SIZE && SlotOf(p.size, SliceAt(p.size, slot)) == slot
    ensures Holds(GiveBack(p, SliceAt(p.size, slot)), free + {slot})
  {
    GiveBackReady(p.size, slot);
    var r := GiveBack(p, SliceAt(p.size, slot));
    forall k | 0 <= k < 8 ensures SlotBit(r.first, k) <==> k < Slots(p.size) && k !in free + {slot} {
      FlipSlotBit(p.first, slot, k);
    }
    BuddyClears(p.first, 7 - slot);
  }

  // Flipping a set bit makes the number smaller.
  lemma {:induction false} BuddyClears(n: nat, l: nat)
    requires Bit(n, l)
    ensures Buddy(n, l) < n
  {
    if l > 0 { BuddyClears(n / 2, l - 1); }
  }

  // kfree keeps the page's record of its free slices exactly if ChainSafe held.
  lemma GiveBackHolds(p: Slab, free: set<nat>, slot: nat)
    requires Taken(p, free, slot)
    ensures SliceAt(p.size, slot) < PAGE_SIZE && (IsLinked(p.size) ==> ADDRESS_SIZE < SliceAt(p.size, slot))
    ensures SlotOf(p.size, SliceAt(p.size, slot)) == slot
    ensures ChainSafe(p) ==> Holds(GiveBack(p, SliceAt(p.size, slot)), free + {slot})
    ensures !ChainSafe(p) ==> forall f :: !Holds(GiveBack(p, SliceAt(p.size, slot)), f)
  {
    GiveBackReady(p.size, slot);
    if !IsLinked(p.size) {
      MappedGiveBack(p, free, slot);
    } else if ChainSafe(p) {
      LinkedGiveBack(p, free, slot);
    } else {
      LinkedHeaders(p, slot);
      forall f ensures !Holds(GiveBack(p, SliceAt(p.size, slot)), f) {
        CutChain(GiveBack(p, SliceAt(p.size, slot)), f, slot);
      }
    }
  }

  // A chain that ends at its first slot has no second one.
  lemma CutChain(p: Slab, free: set<nat>, slot: nat)
    requires Whole(p) && IsLinked(p.size) && slot < Slots(p.size)
    requires p.first == slot && Headers(p)[slot] == SLICE_END && p.avail > 1
    ensures !Holds(p, free)
  {
    forall s: seq<nat> ensures !Threads(Headers(p), p.first, p.avail, free, s) {
      assert NextLinks(Headers(p), p.first, SLICE_END, s) && s != [] ==> Headers(p)[s[0]] == At(s, 1, SLICE_END);
    }
  }

  // ---- use of a slice ----

  // Its owner can write any byte of a slice without touching the record of free slices.
  lemma OwnerWrites(p: Slab, free: set<nat>, slot: nat, offset: nat, v: nat)
    requires Holds(p, free) && slot < Slots(p.size)
    requires SliceAt(p.size, slot) <= offset < SliceAt(p.size, slot) + p.size
    ensures offset < PAGE_SIZE && Holds(WithByte(p, offset, v), free)
  {
    SliceInPage(p.size, slot);
    if IsLinked(p.size) {
      SliceStored(p, slot, offset, v);
    }
  }

  // ---- which free slot is next ----

  // With a bitmap the lowest one.
  lemma LowestFree(p: Slab, free: set<nat>)
    requires Holds(p, free) && !IsLinked(p.size) && p.avail > 0
    ensures NextSlot(p) in free && forall k :: k in free ==> NextSlot(p) <= k
  {
    TakeHolds(p, free);
    forall k | k in free ensures NextSlot(p) <= k {
      assert !SlotBit(p.first, k);
    }
  }

  // With a chain the one given back last.
  lemma LastGivenBack(p: Slab, slot: nat)
    requires Whole(p) && IsLinked(p.size) && slot < Slots(p.size)
    ensures SliceAt(p.size, slot) < PAGE_SIZE && ADDRESS_SIZE < SliceAt(p.size, slot)
    ensures SlotOf(p.size, SliceAt(p.size, slot)) == slot
    ensures NextSlot(GiveBack(p, SliceAt(p.size, slot))) == slot
  {
    GiveBackReady(p.size, slot);
  }
}
