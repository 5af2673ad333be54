// What one call of kmalloc or kfree does to the slices in use.

module SliceCalls {
  import opened SlicePage
  import opened SliceManager
  import opened SliceHeap

  // The bytes of slot k of a page.
  ghost predicate SameContents(h: Heap, r: Heap, page: nat, k: nat) {
    var p, q := RecordOf(h, page), RecordOf(r, page);
    && q.size == p.size && |p.bytes| == PAGE_SIZE == |q.bytes|
    && forall o :: SliceAt(p.size, k) <= o < SliceAt(p.size, k) + p.size && o < PAGE_SIZE ==> q.bytes[o] == p.bytes[o]
  }

  lemma TakeLeavesSlices(p: Slab, k: nat, o: nat)
    requires CanTake(p) && k < Slots(p.size) && SliceAt(p.size, k) <= o < SliceAt(p.size, k) + p.size && o < PAGE_SIZE
    ensures Take(p).bytes[o] == p.bytes[o]
  {
    if IsLinked(p.size) { HeaderNotInSlice(p.size, p.first, k, o); }
  }

  // ---- kmalloc ----

  lemma ServePageBefore(h: Heap, a: nat, s: Supply, free: map<nat, set<nat>>)
    requires Good(h, free) && Served(h, a, s)
    ensures var m, page := h.managers[a], ServedPage(h.managers[a], s);
      && ChosenFits(m)
      && if Head(m.lists, PARTIAL) != COUNT then
           && page in h.allocator && page in free && RecordOf(h, page) == m.slabs[Chosen(m)]
           && PageHolds(m, Chosen(m), free[page]) && ServedSlot(m) in free[page]
         else page !in h.allocator
  {
    var m := h.managers[a];
    ServeKeeps(h, a, s, free);
    assert ManagerInOrder(h, a, free);
    if Head(m.lists, PARTIAL) != COUNT {
      TakeSliceKeeps(m, free);
      OwnRecord(h, a, Chosen(m));
    }
  }

  lemma ServePageAfter(h: Heap, a: nat, s: Supply, free: map<nat, set<nat>>)
    requires Good(h, free) && Served(h, a, s)
    ensures var m, r, page := h.managers[a], Serve(h, a, s).0, ServedPage(h.managers[a], s);
      && page in r.allocator
      && RecordOf(r, page) ==
         if Head(m.lists, PARTIAL) != COUNT then Take(m.slabs[Chosen(m)]) else NewPage(m.size, m.fix, s.bytes)
  {
    ServeKeeps(h, a, s, free);
    OwnRecord(Serve(h, a, s).0, a, Chosen(h.managers[a]));
  }

  // The slice handed out was free or on a page not in use, has the size of its manager, and is in use now.
  lemma ServeGives(h: Heap, a: nat, s: Supply, free: map<nat, set<nat>>)
    requires Good(h, free) && Served(h, a, s)
    ensures var m, r := h.managers[a], Serve(h, a, s);
      var page, k := ServedPage(m, s), ServedSlot(m);
      && !Live(h, free, page, k) && Live(r.0, FreeAfter(m, s, free), page, k)
      && RecordOf(r.0, page).size == m.size && r.1 == AddressOf(r.0, page, k)
  {
    ServePageBefore(h, a, s, free);
    ServePageAfter(h, a, s, free);
  }

  // Slot k of a page is in use after a call exactly if it was before, and then its contents are the same.
  ghost predicate Stays(h: Heap, r: Heap, free: map<nat, set<nat>>, after: map<nat, set<nat>>, page: nat, k: nat) {
    (Live(r, after, page, k) <==> Live(h, free, page, k)) && (Live(h, free, page, k) ==> SameContents(h, r, page, k))
  }

  // The page gave one of its slices away.
  ghost predicate Gave(h: Heap, r: Heap, free: map<nat, set<nat>>, after: map<nat, set<nat>>, page: nat, slot: nat) {
    && page in h.allocator && page in r.allocator && page in free && page in after
    && after[page] == free[page] - {slot}
    && CanTake(RecordOf(h, page)) && RecordOf(r, page) == Take(RecordOf(h, page))
  }

  // The page was taken into use, with its first slice handed out.
  ghost predicate Started(h: Heap, r: Heap, after: map<nat, set<nat>>, page: nat) {
    && page !in h.allocator && page in r.allocator && page in after
    && IsClass(RecordOf(r, page).size) && after[page] == Above0(Slots(RecordOf(r, page).size))
  }

  lemma StaysTake(h: Heap, r: Heap, free: map<nat, set<nat>>, after: map<nat, set<nat>>, page: nat, k: nat, slot: nat)
    requires Gave(h, r, free, after, page, slot) && k != slot
    ensures Stays(h, r, free, after, page, k)
  {
    var p := RecordOf(h, page);
    if k < Slots(p.size) {
      forall o | SliceAt(p.size, k) <= o < SliceAt(p.size, k) + p.size &&
        o < PAGE_SIZE ensures Take(p).bytes[o] == p.bytes[o] {
        TakeLeavesSlices(p, k, o);
      }
    }
  }

  lemma StaysNew(h: Heap, r: Heap, free: map<nat, set<nat>>, after: map<nat, set<nat>>, page: nat, k: nat)
    requires Started(h, r, after, page) && k != 0
    ensures Stays(h, r, free, after, page, k)
  {
  }

  lemma StaysSame(h: Heap, r: Heap, free: map<nat, set<nat>>, after: map<nat, set<nat>>, page: nat, k: nat)
    requires page in r.allocator <==> page in h.allocator
    requires page in h.allocator ==> SameFree(free, after, page) && |RecordOf(h, page).bytes| == PAGE_SIZE
    requires RecordOf(r, page) == RecordOf(h, page)
    ensures Stays(h, r, free, after, page, k)
  {
  }

  // Every other slice stays as it is.
  lemma ServeLeaves(h: Heap, a: nat, s: Supply, free: map<nat, set<nat>>, page: nat, k: nat)
    requires Good(h, free) && Served(h, a, s)
    requires page != ServedPage(h.managers[a], s) || k != ServedSlot(h.managers[a])
    ensures Stays(h, Serve(h, a, s).0, free, FreeAfter(h.managers[a], s, free), page, k)
  {
    var m, r := h.managers[a], Serve(h, a, s).0;
    var after := FreeAfter(m, s, free);
    if page != ServedPage(m, s) {
      ServeOtherPage(h, a, s, free, page);
      StaysSame(h, r, free, after, page, k);
    } else {
      if Head(m.lists, PARTIAL) != COUNT {
        PageGave(h, a, s, free);
        StaysTake(h, r, free, after, page, k, ServedSlot(m));
      } else {
        PageStarted(h, a, s, free);
        StaysNew(h, r, free, after, page, k);
      }
    }
  }

  lemma PageGave(h: Heap, a: nat, s: Supply, free: map<nat, set<nat>>)
    requires Good(h, free) && Served(h, a, s) && Head(h.managers[a].lists, PARTIAL) != COUNT
    ensures var m := h.managers[a];
      Gave(h, Serve(h, a, s).0, free, FreeAfter(m, s, free), ServedPage(m, s), ServedSlot(m))
  {
    ServePageBefore(h, a, s, free);
    ServePageAfter(h, a, s, free);
  }

  lemma PageStarted(h: Heap, a: nat, s: Supply, free: map<nat, set<nat>>)
    requires Good(h, free) && Served(h, a, s) && Head(h.managers[a].lists, PARTIAL) == COUNT
    ensures Started(h, Serve(h, a, s).0, FreeAfter(h.managers[a], s, free), ServedPage(h.managers[a], s))
  {
    ServePageBefore(h, a, s, free);
    ServePageAfter(h, a, s, free);
  }

  lemma ServeOtherPage(h: Heap, a: nat, s: Supply, free: map<nat, set<nat>>, page: nat)
    requires Good(h, free) && Served(h, a, s) && page != ServedPage(h.managers[a], s)
    ensures var r := Serve(h, a, s).0;
      && (page in r.allocator <==> page in h.allocator)
      && (page in h.allocator ==>
            SameFree(free, FreeAfter(h.managers[a], s, free), page) && |RecordOf(h, page).bytes| == PAGE_SIZE)
      && RecordOf(r, page) == RecordOf(h, page)
  {
    if page in h.allocator { RecordFound(h, free, page); }
    ServeKeeps(h, a, s, free);
    ServeElsewhere(h, a, s, free, page);
  }

  lemma ServeElsewhere(h: Heap, a: nat, s: Supply, free: map<nat, set<nat>>, page: nat)
    requires Linked(h) && Housed(h) && Served(h, a, s) && ChosenFits(h.managers[a]) &&
      page != ServedPage(h.managers[a], s)
    requires Changed(h, Serve(h, a, s).0, a, Chosen(h.managers[a])) && free.Keys == h.allocator.Keys
    ensures var r := Serve(h, a, s).0;
      && (page in r.allocator <==> page in h.allocator)
      && (page in h.allocator ==> SameFree(free, FreeAfter(h.managers[a], s, free), page))
      && RecordOf(r, page) == RecordOf(h, page)
  {
    if page in h.allocator || page != 0 {
      ElsewhereSame(h, Serve(h, a, s).0, a, Chosen(h.managers[a]), page);
    }
  }

  // A manager added to a chain changes nothing that is in use.
  lemma ExtendedKeeps(h: Heap, c: nat, a: nat, free: map<nat, set<nat>>)
    requires Good(h, free) && c < CLASSES
    requires a != 0 && a % PAGE_SIZE == 0 && a !in h.managers && a !in h.allocator
    ensures Good(Extended(h, c, a), free)
  {
    ExtendedLinked(h, c, a);
    ExtendedManagers(h, c, a, free);
  }

  lemma ExtendedLinked(h: Heap, c: nat, a: nat)
    requires ChainsInOrder(h) && Linked(h) && Housed(h) && c < CLASSES
    requires a != 0 && a % PAGE_SIZE == 0 && a !in h.managers && a !in h.allocator
    ensures ChainsInOrder(Extended(h, c, a)) && Linked(Extended(h, c, a)) && Housed(Extended(h, c, a))
  {
    var r := Extended(h, c, a);
    forall b | b in r.allocator ensures b != 0 && b % PAGE_SIZE == 0 && Attached(r, b) {
      assert Attached(h, b);
    }
  }

  lemma ExtendedManagers(h: Heap, c: nat, a: nat, free: map<nat, set<nat>>)
    requires |h.chains| == CLASSES && c < CLASSES && ManagersInOrder(h, free) && a !in h.managers
    ensures ManagersInOrder(Extended(h, c, a), free)
  {
    NewManagerInOrder(SizeOf(c), h.fix, free);
    forall b | b in h.managers {
      OldManager(h, c, a, free, b);
    }
  }

  lemma OldManager(h: Heap, c: nat, a: nat, free: map<nat, set<nat>>, b: nat)
    requires |h.chains| == CLASSES && c < CLASSES && a !in h.managers && b in h.managers && ManagerInOrder(h, b, free)
    ensures b in Extended(h, c, a).managers && ManagerInOrder(Extended(h, c, a), b, free)
  {
  }

  lemma ExtendedLeaves(h: Heap, c: nat, a: nat, free: map<nat, set<nat>>, page: nat, k: nat)
    requires Good(h, free) && c < CLASSES && a !in h.managers
    ensures Extended(h, c, a).allocator == h.allocator
    ensures RecordOf(Extended(h, c, a), page) == RecordOf(h, page)
    ensures Live(Extended(h, c, a), free, page, k) <==> Live(h, free, page, k)
  {
    if page in h.allocator { RecordFound(h, free, page); }
  }

  lemma PreparedKeeps(h: Heap, c: nat, s: Supply, free: map<nat, set<nat>>)
    requires Good(h, free) && c < CLASSES && Fresh(h, s)
    ensures var q := Prepared(h, c, s);
      && Good(q.0, free) && Served(q.0, q.1, s) && q.0.managers[q.1].size == SizeOf(c)
      && q.0.allocator == h.allocator
  {
    var k := Seek(h.managers, h.chains[c]);
    var q := Prepared(h, c, s);
    if k < |h.chains[c]| {
      assert h.chains[c][k] in h.chains[c];
    } else {
      ExtendedKeeps(h, c, s.managerPage, free);
    }
    assert ManagerInOrder(q.0, q.1, free);
    ReadyToServe(q.0.managers[q.1], free);
  }

  lemma PreparedLeaves(h: Heap, c: nat, s: Supply, free: map<nat, set<nat>>, page: nat, k: nat)
    requires Good(h, free) && c < CLASSES && Fresh(h, s)
    ensures RecordOf(Prepared(h, c, s).0, page) == RecordOf(h, page)
    ensures Live(Prepared(h, c, s).0, free, page, k) <==> Live(h, free, page, k)
  {
    ExtendedLeaves(h, c, s.managerPage, free, page, k);
  }

  ghost predicate InUse(h: Heap) {
    exists free :: Good(h, free)
  }

  // kmalloc; requests over 2048 bytes go to the frame allocator.
  ghost function Kmalloc(h: Heap, n: nat, s: Supply): (Heap, Answer)
    requires InUse(h) && Fresh(h, s)
  {
    if n > MAX_ALLOC then (h, Refused)
    else if n > SizeOf(CLASSES - 1) then (h, WholePages)
    else
      var free :| Good(h, free);
      PreparedKeeps(h, ClassFrom(n, 0), s, free);
      var q := Prepared(h, ClassFrom(n, 0), s);
      var r := Serve(q.0, q.1, s);
      (r.0, Slice(r.1))
  }

  // Slot k of the page is handed out by the call; everything else stays as it was.
  ghost predicate Handed(h: Heap, r: Heap, free: map<nat, set<nat>>, after: map<nat, set<nat>>, page: nat, k: nat) {
    && !Live(h, free, page, k) && Live(r, after, page, k)
    && r.allocator.Keys == h.allocator.Keys + {page} && r.fix == h.fix
    && forall p, j :: p != page || j != k ==> Stays(h, r, free, after, p, j)
  }

  lemma ServeHands(h: Heap, a: nat, s: Supply, free: map<nat, set<nat>>)
    requires Good(h, free) && Served(h, a, s)
    ensures var m, r := h.managers[a], Serve(h, a, s).0;
      Handed(h, r, free, FreeAfter(m, s, free), ServedPage(m, s), ServedSlot(m))
  {
    var m, r := h.managers[a], Serve(h, a, s).0;
    ServeGives(h, a, s, free);
    ServePages(h, a, s, free);
    forall p, j | p != ServedPage(m, s) || j != ServedSlot(m) {
      ServeLeaves(h, a, s, free, p, j);
    }
  }

  lemma ServePages(h: Heap, a: nat, s: Supply, free: map<nat, set<nat>>)
    requires Good(h, free) && Served(h, a, s)
    ensures Serve(h, a, s).0.allocator.Keys == h.allocator.Keys + {ServedPage(h.managers[a], s)}
  {
    ServePageBefore(h, a, s, free);
  }

  // `q` is `h` with one more manager perhaps; then what a call does to `q` it does to `h`.
  lemma HandedBefore(h: Heap, q: Heap, r: Heap, free: map<nat, set<nat>>, after: map<nat, set<nat>>, page: nat, k: nat)
    requires Handed(q, r, free, after, page, k) && q.allocator == h.allocator && q.fix == h.fix
    requires forall p :: RecordOf(q, p) == RecordOf(h, p)
    ensures Handed(h, r, free, after, page, k)
  {
    assert Live(h, free, page, k) ==> Live(q, free, page, k);
    forall p, j | p != page || j != k ensures Stays(h, r, free, after, p, j) {
      assert Stays(q, r, free, after, p, j);
    }
  }

  // What a successful request for n bytes yields.
  ghost predicate Granted(h: Heap, r: Heap, x: nat, size: nat, free: map<nat, set<nat>>, after: map<nat, set<nat>>,
          page: nat, k: nat) {
    && Good(r, after) && Handed(h, r, free, after, page, k)
    && x == AddressOf(r, page, k) && RecordOf(r, page).size == size
  }

  lemma ServeGrants(h: Heap, a: nat, s: Supply, free: map<nat, set<nat>>)
    requires Good(h, free) && Served(h, a, s)
    ensures var m, r := h.managers[a], Serve(h, a, s);
      Granted(h, r.0, r.1, m.size, free, FreeAfter(m, s, free), ServedPage(m, s), ServedSlot(m))
  {
    ServeKeeps(h, a, s, free);
    ServeHands(h, a, s, free);
    ServeGives(h, a, s, free);
  }

  // Up to 2048 bytes, kmalloc yields a slice that was not in use, of the smallest class that fits.
  lemma KmallocCorrect(h: Heap, n: nat, s: Supply, free: map<nat, set<nat>>)
    requires Good(h, free) && Fresh(h, s) && n <= SizeOf(CLASSES - 1)
    ensures Kmalloc(h, n, s).1.Slice?
    ensures exists after, page, k ::
      Granted(h, Kmalloc(h, n, s).0, Kmalloc(h, n, s).1.address, SizeOf(ClassFrom(n, 0)), free, after, page, k)
  {
    var c := ClassFrom(n, 0);
    var q := Prepared(h, c, s);
    PreparedKeeps(h, c, s, free);
    ServeGrants(q.0, q.1, s, free);
    forall p {
      PreparedLeaves(h, c, s, free, p, 0);
    }
    var m, r := q.0.managers[q.1], Serve(q.0, q.1, s);
    HandedBefore(h, q.0, r.0, free, FreeAfter(m, s, free), ServedPage(m, s), ServedSlot(m));
    assert Granted(h, r.0, r.1, m.size, free, FreeAfter(m, s, free), ServedPage(m, s), ServedSlot(m));
  }

  // ---- kfree ----

  // The page's frame names an allocator, and the offset is one of a slice.
  predicate CanFree(h: Heap, x: nat) {
    var page := PageOf(x);
    && page in h.allocator && PageOf(h.allocator[page]) in h.managers
    && var m, i := h.managers[PageOf(h.allocator[page])], IndexIn(h.allocator[page]);
    && i < COUNT == |m.slabs| && |m.target| == COUNT && IsClass(m.size) && m.slabs[i].size == m.size
    && |m.slabs[i].bytes| == PAGE_SIZE
    && (IsLinked(m.size) ==> ADDRESS_SIZE < x - page) && SlotOf(m.size, x - page) < Slots(m.size)
  }

  function Kfree(h: Heap, x: nat): (r: Heap)
    requires CanFree(h, x)
    ensures r.fix == h.fix
  {
    var page := PageOf(x);
    var a, i := PageOf(h.allocator[page]), IndexIn(h.allocator[page]);
    var m := h.managers[a];
    var p := GiveBack(m.slabs[i], x - page);
    h.(managers := h.managers[a := Freed(m, i, p)],
       allocator := if BecomesEmpty(m, p) then h.allocator - {page} else h.allocator)
  }

  // The last slice of its page is given back.
  predicate LastSlice(h: Heap, page: nat) {
    OneOut(RecordOf(h, page))
  }

  predicate FreeSafe(h: Heap, page: nat) {
    SliceSafe(RecordOf(h, page))
  }

  ghost function FreeWith(h: Heap, free: map<nat, set<nat>>, page: nat, k: nat): map<nat, set<nat>>
    requires page in free
  {
    if LastSlice(h, page) then free - {page} else free[page := free[page] + {k}]
  }

  // The page is in use, by allocator i of the manager at `a`.
  predicate OnPage(h: Heap, page: nat, a: nat, i: nat) {
    && page in h.allocator && a == PageOf(h.allocator[page]) && i == IndexIn(h.allocator[page])
    && page % PAGE_SIZE == 0 && a in h.managers
    && i < COUNT == |h.managers[a].slabs| && |h.managers[a].target| == COUNT && h.managers[a].target[i] == page
    && h.allocator[page] == AllocatorAt(a, i)
    && Whole(h.managers[a].slabs[i]) && h.managers[a].slabs[i].size == h.managers[a].size
    && h.managers[a].slabs[i].fix == h.managers[a].fix
  }

  lemma PlacedOn(h: Heap, free: map<nat, set<nat>>, page: nat)
    requires Good(h, free) && page in h.allocator
    ensures OnPage(h, page, PageOf(h.allocator[page]), IndexIn(h.allocator[page]))
    ensures page != 0 && page in free && Holds(RecordOf(h, page), free[page])
    ensures RecordOf(h, page).avail < Slots(RecordOf(h, page).size)
  {
    RecordFound(h, free, page);
  }

  lemma FreeReady(h: Heap, page: nat, a: nat, i: nat, k: nat)
    requires OnPage(h, page, a, i) && k < Slots(h.managers[a].size)
    ensures PageOf(AddressOf(h, page, k)) == page && CanFree(h, AddressOf(h, page, k))
  {
    GiveBackReady(h.managers[a].size, k);
    PageRecovered(page, SliceAt(h.managers[a].size, k));
  }

  ghost function PageGiven(h: Heap, page: nat, k: nat): Slab
    requires Whole(RecordOf(h, page)) && k < Slots(RecordOf(h, page).size)
  {
    GiveBackReady(RecordOf(h, page).size, k);
    GiveBack(RecordOf(h, page), SliceAt(RecordOf(h, page).size, k))
  }

  // kfree acts on the allocator and the slot the address came from.
  lemma KfreeActs(h: Heap, page: nat, a: nat, i: nat, k: nat)
    requires OnPage(h, page, a, i) && k < Slots(h.managers[a].size)
    ensures CanFree(h, AddressOf(h, page, k))
    ensures Kfree(h, AddressOf(h, page, k)) ==
            h.(managers := h.managers[a := Freed(h.managers[a], i, PageGiven(h, page, k))],
               allocator := if LastSlice(h, page) then h.allocator - {page} else h.allocator)
  {
    FreeReady(h, page, a, i, k);
    PageRecovered(page, SliceAt(h.managers[a].size, k));
  }

  lemma KfreeChanges(h: Heap, page: nat, a: nat, i: nat, k: nat)
    requires OnPage(h, page, a, i) && page != 0 && k < Slots(h.managers[a].size)
    ensures CanFree(h, AddressOf(h, page, k)) && Changed(h, Kfree(h, AddressOf(h, page, k)), a, i)
  {
    KfreeActs(h, page, a, i, k);
    assert h.allocator[page := AllocatorAt(a, i)] == h.allocator;
  }

  lemma FreedManager(m: Manager, i: nat, free: map<nat, set<nat>>, p: Slab, k: nat)
    requires InOrder(m, free) && i < COUNT && m.target[i] != 0 && p == m.slabs[i]
    requires Taken(p, free[m.target[i]], k) && (ChainSafe(p) || p.avail + 1 == Slots(p.size))
    ensures SliceAt(p.size, k) < PAGE_SIZE && (IsLinked(p.size) ==> ADDRESS_SIZE < SliceAt(p.size, k))
    ensures SlotOf(p.size, SliceAt(p.size, k)) == k
    ensures InOrder(Freed(m, i, GiveBack(p, SliceAt(p.size, k))),
      if p.avail + 1 == Slots(p.size) then free - {m.target[i]} else free[m.target[i] := free[m.target[i]] + {k}])
  {
    assert PageHolds(m, i, free[m.target[i]]);
    GiveBackHolds(p, free[m.target[i]], k);
    FreedKeeps(m, i, GiveBack(p, SliceAt(p.size, k)), free, free[m.target[i]] + {k});
  }

  lemma KfreeRecord(h: Heap, page: nat, a: nat, i: nat, k: nat)
    requires OnPage(h, page, a, i) && k < Slots(h.managers[a].size)
    ensures CanFree(h, AddressOf(h, page, k)) && a in Kfree(h, AddressOf(h, page, k)).managers
    ensures Whole(RecordOf(h, page)) && RecordOf(h, page) == h.managers[a].slabs[i]
    ensures Kfree(h, AddressOf(h, page, k)).managers[a] == Freed(h.managers[a], i, PageGiven(h, page, k))
  {
    KfreeActs(h, page, a, i, k);
  }

  lemma KfreeManager(h: Heap, free: map<nat, set<nat>>, page: nat, a: nat, i: nat, k: nat)
    requires OnPage(h, page, a, i) && page != 0 && InOrder(h.managers[a], free) && page in free
    requires Taken(RecordOf(h, page), free[page], k) && FreeSafe(h, page)
    ensures Whole(RecordOf(h, page)) && k < Slots(RecordOf(h, page).size)
    ensures InOrder(Freed(h.managers[a], i, PageGiven(h, page, k)), FreeWith(h, free, page, k))
  {
    FreedManager(h.managers[a], i, free, RecordOf(h, page), k);
  }

  lemma KfreeKeeps(h: Heap, free: map<nat, set<nat>>, page: nat, k: nat)
    requires Good(h, free) && Live(h, free, page, k) && FreeSafe(h, page)
    ensures CanFree(h, AddressOf(h, page, k))
    ensures Good(Kfree(h, AddressOf(h, page, k)), FreeWith(h, free, page, k))
  {
    var a, i := PageOf(h.allocator[page]), IndexIn(h.allocator[page]);
    PlacedOn(h, free, page);
    assert ManagerInOrder(h, a, free);
    KfreeManager(h, free, page, a, i, k);
    KfreeRecord(h, page, a, i, k);
    KfreeChanges(h, page, a, i, k);
    KfreeOthers(h, free, page, a, i, k);
    ChangedGood(h, Kfree(h, AddressOf(h, page, k)), a, i, free, FreeWith(h, free, page, k));
  }

  lemma KfreeOthers(h: Heap, free: map<nat, set<nat>>, page: nat, a: nat, i: nat, k: nat)
    requires OnPage(h, page, a, i) && page != 0 && k < Slots(h.managers[a].size) && free.Keys == h.allocator.Keys
    ensures CanFree(h, AddressOf(h, page, k))
    ensures var r := Kfree(h, AddressOf(h, page, k));
      && a in r.managers && i < |r.managers[a].target|
      && OthersFree(h, r, r.managers[a].target[i], free, FreeWith(h, free, page, k))
  {
    KfreeActs(h, page, a, i, k);
  }

  // Without the guard, the page's chain loses its other free slices for good.
  lemma KfreeBreaks(h: Heap, free: map<nat, set<nat>>, page: nat, k: nat, after: map<nat, set<nat>>)
    requires Good(h, free) && Live(h, free, page, k) && !FreeSafe(h, page)
    ensures CanFree(h, AddressOf(h, page, k))
    ensures !Good(Kfree(h, AddressOf(h, page, k)), after)
  {
    var a, i := PageOf(h.allocator[page]), IndexIn(h.allocator[page]);
    PlacedOn(h, free, page);
    KfreeRecord(h, page, a, i, k);
    BrokenManager(h, free, page, a, i, k, after);
    var r := Kfree(h, AddressOf(h, page, k));
    assert ManagersInOrder(r, after) ==> ManagerInOrder(r, a, after);
  }

  lemma BrokenManager(h: Heap, free: map<nat, set<nat>>, page: nat, a: nat, i: nat, k: nat, after: map<nat, set<nat>>)
    requires OnPage(h, page, a, i) && page != 0 && page in free
    requires Taken(RecordOf(h, page), free[page], k) && !FreeSafe(h, page)
    ensures Whole(RecordOf(h, page)) && k < Slots(RecordOf(h, page).size)
    ensures !InOrder(Freed(h.managers[a], i, PageGiven(h, page, k)), after)
  {
    GiveBackHolds(RecordOf(h, page), free[page], k);
    StillThere(h.managers[a], i, PageGiven(h, page, k), page, after);
  }

  lemma StillThere(m: Manager, i: nat, p: Slab, page: nat, after: map<nat, set<nat>>)
    requires IsClass(m.size) && |m.target| == COUNT == |m.slabs| && i < COUNT && m.target[i] == page != 0
    requires !BecomesEmpty(m, p) && forall f :: !Holds(p, f)
    ensures !InOrder(Freed(m, i, p), after)
  {
  }

  lemma {:induction false} AtMost(s: set<nat>, n: nat)
    requires forall x :: x in s ==> x < n
    ensures |s| <= n
  {
    if n > 0 {
      AtMost(s - {n - 1}, n - 1);
    } else {
      assert s == {};
    }
  }

  // If all but one slot are free, only one is taken.
  lemma OnlyTaken(free: set<nat>, n: nat, j: nat, k: nat)
    requires forall x :: x in free ==> x < n
    requires j < n && k < n && j !in free && k !in free && |free| + 1 == n
    ensures j == k
  {
    if j != k {
      AtMost(free + {j} + {k}, n);
    }
  }

  lemma GiveBackLeavesSlices(p: Slab, k: nat, j: nat, o: nat)
    requires Whole(p) && k < Slots(p.size) && j < Slots(p.size) && j != k
    requires SliceAt(p.size, j) <= o < SliceAt(p.size, j) + p.size && o < PAGE_SIZE
    ensures SliceAt(p.size, k) < PAGE_SIZE && (IsLinked(p.size) ==> ADDRESS_SIZE < SliceAt(p.size, k))
    ensures SlotOf(p.size, SliceAt(p.size, k)) == k
    ensures GiveBack(p, SliceAt(p.size, k)).bytes[o] == p.bytes[o]
  {
    GiveBackReady(p.size, k);
    if IsLinked(p.size) {
      HeaderNotInSlice(p.size, k, j, o);
      if j < k { SlicesApart(p.size, j, k); } else { SlicesApart(p.size, k, j); }
    }
  }

  // The page got slot k back.
  ghost predicate GotBack(h: Heap, r: Heap, free: map<nat, set<nat>>, after: map<nat, set<nat>>, page: nat, k: nat) {
    && page in h.allocator && page in r.allocator && page in free && page in after
    && after[page] == free[page] + {k}
    && Whole(RecordOf(h, page)) && k < Slots(RecordOf(h, page).size) && RecordOf(r, page) == PageGiven(h, page, k)
  }

  lemma StaysGiven(h: Heap, r: Heap, free: map<nat, set<nat>>, after: map<nat, set<nat>>, page: nat, k: nat, j: nat)
    requires GotBack(h, r, free, after, page, k) && j != k
    ensures Stays(h, r, free, after, page, j)
  {
    var p := RecordOf(h, page);
    if j < Slots(p.size) {
      forall o | SliceAt(p.size, j) <= o < SliceAt(p.size, j) + p.size && o < PAGE_SIZE
        ensures PageGiven(h, page, k).bytes[o] == p.bytes[o]
      {
        GiveBackLeavesSlices(p, k, j, o);
      }
    }
  }

  lemma StaysEnded(h: Heap, r: Heap, free: map<nat, set<nat>>, after: map<nat, set<nat>>, page: nat, k: nat, j: nat)
    requires page !in r.allocator && page in free && Taken(RecordOf(h, page), free[page], k)
    requires LastSlice(h, page) && j != k
    ensures Stays(h, r, free, after, page, j)
  {
    var p := RecordOf(h, page);
    if Live(h, free, page, j) {
      OnlyTaken(free[page], Slots(p.size), j, k);
    }
  }

  lemma KfreeSamePage(h: Heap, free: map<nat, set<nat>>, page: nat, a: nat, i: nat, k: nat, j: nat)
    requires OnPage(h, page, a, i) && page in free && Taken(RecordOf(h, page), free[page], k) && j != k
    ensures CanFree(h, AddressOf(h, page, k))
    ensures Stays(h, Kfree(h, AddressOf(h, page, k)), free, FreeWith(h, free, page, k), page, j)
  {
    KfreeActs(h, page, a, i, k);
    var r, after := Kfree(h, AddressOf(h, page, k)), FreeWith(h, free, page, k);
    if LastSlice(h, page) {
      StaysEnded(h, r, free, after, page, k, j);
    } else {
      StaysGiven(h, r, free, after, page, k, j);
    }
  }

  lemma KfreeOtherPage(h: Heap, free: map<nat, set<nat>>, page: nat, a: nat, i: nat, k: nat, p: nat, j: nat)
    requires Linked(h) && Housed(h) && free.Keys == h.allocator.Keys
    requires OnPage(h, page, a, i) && page != 0 && k < Slots(h.managers[a].size) && p != page
    requires p in h.allocator ==> |RecordOf(h, p).bytes| == PAGE_SIZE
    ensures CanFree(h, AddressOf(h, page, k))
    ensures Stays(h, Kfree(h, AddressOf(h, page, k)), free, FreeWith(h, free, page, k), p, j)
  {
    KfreeActs(h, page, a, i, k);
    KfreeChanges(h, page, a, i, k);
    var r := Kfree(h, AddressOf(h, page, k));
    if p != 0 { ElsewhereSame(h, r, a, i, p); }
    StaysSame(h, r, free, FreeWith(h, free, page, k), p, j);
  }

  // Slot k of the page is given back; everything else stays as it was. The page itself goes back exactly when
  // it has no other slice in use.
  ghost predicate GivenBack(h: Heap, r: Heap, free: map<nat, set<nat>>, after: map<nat, set<nat>>, page: nat, k: nat) {
    && !Live(r, after, page, k) && r.fix == h.fix
    && (forall p, j :: p != page || j != k ==> Stays(h, r, free, after, p, j))
    && r.allocator.Keys == if LastSlice(h, page) then h.allocator.Keys - {page} else h.allocator.Keys
  }

  lemma LastSliceMeans(h: Heap, free: map<nat, set<nat>>, page: nat, k: nat)
    requires page in h.allocator && page in free && Taken(RecordOf(h, page), free[page], k)
    ensures LastSlice(h, page) <==> forall j :: j != k ==> !Live(h, free, page, j)
  {
    var p := RecordOf(h, page);
    LastSliceCount(p, free[page], k);
    forall j: nat | j < Slots(p.size) ensures Live(h, free, page, j) <==> j !in free[page] {
    }
  }

  lemma LastSliceCount(p: Slab, free: set<nat>, k: nat)
    requires Taken(p, free, k)
    ensures p.avail + 1 == Slots(p.size) <==> forall j: nat :: j < Slots(p.size) && j != k ==> j in free
  {
    var n := Slots(p.size);
    if p.avail + 1 == n {
      forall j: nat | j < n && j != k ensures j in free {
        if j !in free { OnlyTaken(free, n, j, k); }
      }
    } else if forall j: nat :: j < n && j != k ==> j in free {
      AllFree(free + {k}, n);
    }
  }

  lemma {:induction false} AllFree(s: set<nat>, n: nat)
    requires forall x: nat :: x < n <==> x in s
    ensures |s| == n
  {
    if n > 0 {
      AllFree(s - {n - 1}, n - 1);
    } else {
      assert s == {};
    }
  }

  // kfree of a slice in use gives back that slice and nothing else.
  lemma KfreeCorrect(h: Heap, free: map<nat, set<nat>>, page: nat, k: nat)
    requires Good(h, free) && Live(h, free, page, k)
    ensures CanFree(h, AddressOf(h, page, k))
    ensures GivenBack(h, Kfree(h, AddressOf(h, page, k)), free, FreeWith(h, free, page, k), page, k)
    ensures FreeSafe(h, page) ==> Good(Kfree(h, AddressOf(h, page, k)), FreeWith(h, free, page, k))
    ensures InUse(Kfree(h, AddressOf(h, page, k))) <==> FreeSafe(h, page)
  {
    KfreeGives(h, free, page, k);
    if FreeSafe(h, page) {
      KfreeKeeps(h, free, page, k);
    } else {
      forall after ensures !Good(Kfree(h, AddressOf(h, page, k)), after) {
        KfreeBreaks(h, free, page, k, after);
      }
    }
  }

  lemma KfreeGives(h: Heap, free: map<nat, set<nat>>, page: nat, k: nat)
    requires Good(h, free) && Live(h, free, page, k)
    ensures CanFree(h, AddressOf(h, page, k))
    ensures GivenBack(h, Kfree(h, AddressOf(h, page, k)), free, FreeWith(h, free, page, k), page, k)
  {
    var a, i := PageOf(h.allocator[page]), IndexIn(h.allocator[page]);
    PlacedOn(h, free, page);
    KfreeActs(h, page, a, i, k);
    forall p, j | p != page || j != k {
      KfreeLeaves(h, free, page, k, p, j);
    }
  }

  lemma KfreeLeaves(h: Heap, free: map<nat, set<nat>>, page: nat, k: nat, p: nat, j: nat)
    requires Good(h, free) && Live(h, free, page, k) && (p != page || j != k)
    ensures CanFree(h, AddressOf(h, page, k))
    ensures Stays(h, Kfree(h, AddressOf(h, page, k)), free, FreeWith(h, free, page, k), p, j)
  {
    var a, i := PageOf(h.allocator[page]), IndexIn(h.allocator[page]);
    PlacedOn(h, free, page);
    if p == page {
      KfreeSamePage(h, free, page, a, i, k, j);
    } else {
      if p in h.allocator { PlacedOn(h, free, p); }
      KfreeOtherPage(h, free, page, a, i, k, p, j);
    }
  }
}
