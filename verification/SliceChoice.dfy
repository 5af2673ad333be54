// Which manager and which page serve a request of kmalloc, told from the free slices alone: the first manager of
// the chain that can, a page in use before a new one, and a new manager only when every other is exhausted.

module SliceChoice {
  import opened SlicePage
  import opened SliceManager
  import opened SliceHeap
  import opened SliceCalls

  // ---- one manager ----

  // No page of the manager has a free slice.
  ghost predicate PagesFull(m: Manager, free: map<nat, set<nat>>) {
    forall i :: 0 <= i < |m.target| && m.target[i] != 0 ==> m.target[i] in free && free[m.target[i]] == {}
  }

  // And none of its allocators is without a page.
  ghost predicate Exhausted(m: Manager, free: map<nat, set<nat>>) {
    PagesFull(m, free) && 0 !in m.target
  }

  lemma PageKind(m: Manager, free: map<nat, set<nat>>, i: nat)
    requires InOrder(m, free) && i < COUNT
    ensures Kinds(m)[i] == FREE <==> m.target[i] == 0
    ensures Kinds(m)[i] == PARTIAL <==> m.target[i] != 0 && free[m.target[i]] != {}
  {
    if m.target[i] != 0 { assert PageHolds(m, i, free[m.target[i]]); }
  }

  lemma NonePartial(m: Manager, free: map<nat, set<nat>>)
    requires InOrder(m, free)
    ensures Head(m.lists, PARTIAL) == COUNT <==> PagesFull(m, free)
  {
    HeadOf(m.lists, PARTIAL, Kinds(m));
    if Head(m.lists, PARTIAL) == COUNT {
      forall i | 0 <= i < |m.target| && m.target[i] != 0 ensures m.target[i] in free && free[m.target[i]] == {} {
        PageKind(m, free, i);
      }
    } else {
      PageKind(m, free, Head(m.lists, PARTIAL));
    }
  }

  lemma NoneFree(m: Manager, free: map<nat, set<nat>>)
    requires InOrder(m, free)
    ensures Head(m.lists, FREE) == COUNT <==> 0 !in m.target
  {
    HeadOf(m.lists, FREE, Kinds(m));
    if Head(m.lists, FREE) == COUNT {
      forall i | 0 <= i < |m.target| ensures m.target[i] != 0 {
        PageKind(m, free, i);
      }
    } else {
      PageKind(m, free, Head(m.lists, FREE));
    }
  }

  // The test on the two list heads asks whether the manager can serve a request.
  lemma RoomMeans(m: Manager, free: map<nat, set<nat>>)
    requires InOrder(m, free)
    ensures HasRoom(m) <==> !Exhausted(m, free)
  {
    NonePartial(m, free);
    NoneFree(m, free);
  }

  // The page started last, or the full one that got a slice back last, serves the next request.
  lemma RecentFirst(m: Manager, free: map<nat, set<nat>>, i: nat, page: nat, bytes: seq<nat>, p: Slab)
    requires InOrder(m, free) && i < COUNT && |bytes| == PAGE_SIZE
    ensures Head(m.lists, PARTIAL) == COUNT && Head(m.lists, FREE) == i ==> Chosen(StartPage(m, i, page, bytes)) == i
    ensures !BecomesEmpty(m, p) && p.avail == 1 ==> Chosen(Freed(m, i, p)) == i
  {
  }

  // ---- the chain of a class ----

  // Number k of the chain is the first manager that is not exhausted; |chain| if they all are.
  ghost predicate FirstAble(h: Heap, free: map<nat, set<nat>>, chain: seq<nat>, k: nat) {
    && (forall a :: a in chain ==> a in h.managers) && k <= |chain|
    && (forall j :: 0 <= j < k ==> Exhausted(h.managers[chain[j]], free))
    && (k < |chain| ==> !Exhausted(h.managers[chain[k]], free))
  }

  lemma {:induction false} NoneBefore(managers: map<nat, Manager>, chain: seq<nat>, j: nat)
    requires (forall a :: a in chain ==> a in managers) && j < Seek(managers, chain)
    ensures !HasRoom(managers[chain[j]])
    decreases |chain|
  {
    if j == 0 {
    } else {
      NoneBefore(managers, chain[1..], j - 1);
    }
  }

  lemma ChainRoom(h: Heap, free: map<nat, set<nat>>, chain: seq<nat>, j: nat)
    requires ManagersInOrder(h, free) && (forall a :: a in chain ==> a in h.managers) && j < |chain|
    ensures HasRoom(h.managers[chain[j]]) <==> !Exhausted(h.managers[chain[j]], free)
  {
    assert chain[j] in chain;
    assert ManagerInOrder(h, chain[j], free);
    RoomMeans(h.managers[chain[j]], free);
  }

  lemma SeekIsFirst(h: Heap, free: map<nat, set<nat>>, chain: seq<nat>)
    requires ManagersInOrder(h, free) && forall a :: a in chain ==> a in h.managers
    ensures FirstAble(h, free, chain, Seek(h.managers, chain))
  {
    var k := Seek(h.managers, chain);
    forall j | 0 <= j < k ensures Exhausted(h.managers[chain[j]], free) {
      NoneBefore(h.managers, chain, j);
      ChainRoom(h, free, chain, j);
    }
    if k < |chain| { ChainRoom(h, free, chain, k); }
  }

  // Every manager of the class is exhausted, or the pages of the first that is not are full.
  ghost predicate WantsManager(h: Heap, free: map<nat, set<nat>>, c: nat)
    requires ChainsInOrder(h) && c < CLASSES
  {
    forall a :: a in h.chains[c] ==> Exhausted(h.managers[a], free)
  }

  ghost predicate WantsPage(h: Heap, free: map<nat, set<nat>>, c: nat)
    requires ChainsInOrder(h) && c < CLASSES
  {
    forall k: nat :: k < |h.chains[c]| && FirstAble(h, free, h.chains[c], k) ==>
      PagesFull(h.managers[h.chains[c][k]], free)
  }

  lemma FirstAbleUnique(h: Heap, free: map<nat, set<nat>>, chain: seq<nat>, j: nat, k: nat)
    requires FirstAble(h, free, chain, j) && FirstAble(h, free, chain, k)
    ensures j == k
  {
  }

  lemma ManagerWanted(h: Heap, free: map<nat, set<nat>>, c: nat)
    requires Good(h, free) && c < CLASSES
    ensures Seek(h.managers, h.chains[c]) == |h.chains[c]| <==> WantsManager(h, free, c)
  {
    var chain := h.chains[c];
    SeekIsFirst(h, free, chain);
    if Seek(h.managers, chain) < |chain| { assert chain[Seek(h.managers, chain)] in chain; }
  }

  lemma PageWanted(h: Heap, free: map<nat, set<nat>>, c: nat, k: nat)
    requires Good(h, free) && c < CLASSES && k == Seek(h.managers, h.chains[c])
    ensures k == |h.chains[c]| || Head(h.managers[h.chains[c][k]].lists, PARTIAL) == COUNT <==> WantsPage(h, free, c)
  {
    var chain := h.chains[c];
    SeekIsFirst(h, free, chain);
    if k < |chain| {
      assert chain[k] in chain;
      assert ManagerInOrder(h, chain[k], free);
      NonePartial(h.managers[chain[k]], free);
      forall j: nat | FirstAble(h, free, chain, j) ensures j == k {
        FirstAbleUnique(h, free, chain, j, k);
      }
    } else {
      forall j: nat | FirstAble(h, free, chain, j) ensures j == |chain| {
        FirstAbleUnique(h, free, chain, j, k);
      }
    }
  }

  // ---- kmalloc ----

  // c is the smallest class whose slices hold n bytes.
  predicate Fits(n: nat, c: nat) {
    c < CLASSES && n <= SizeOf(c) && (c > 0 ==> SizeOf(c - 1) < n)
  }

  lemma Doubling(c: nat)
    requires c < CLASSES
    ensures SizeOf(0) == 16 && (c > 0 ==> SizeOf(c) == 2 * SizeOf(c - 1))
  {
  }

  lemma {:induction false} SizesGrow(c: nat, d: nat)
    requires c <= d < CLASSES
    ensures SizeOf(c) <= SizeOf(d)
  {
    if c < d {
      Doubling(d);
      SizesGrow(c, d - 1);
    }
  }

  lemma ClassIs(n: nat, c: nat)
    requires Fits(n, c)
    ensures n <= SizeOf(CLASSES - 1) && ClassFrom(n, 0) == c
  {
    SizesGrow(c, CLASSES - 1);
    var d := ClassFrom(n, 0);
    if d < c {
      SizesGrow(d, c - 1);
    }
  }

  // `r` has one more manager than `h`, the first of class c, if `more`; otherwise the same ones.
  predicate Managed(h: Heap, r: Heap, c: nat, a: nat, more: bool) {
    && |h.chains| == CLASSES && c < CLASSES
    && r.managers.Keys == h.managers.Keys + (if more then {a} else {})
    && r.chains == if more then h.chains[c := [a] + h.chains[c]] else h.chains
  }

  ghost predicate OthersSame(h: Heap, r: Heap, a: nat) {
    forall b :: b in h.managers && b != a ==> b in r.managers && r.managers[b] == h.managers[b]
  }

  lemma PreparedIs(h: Heap, c: nat, s: Supply, k: nat)
    requires Known(h) && c < CLASSES && k == Seek(h.managers, h.chains[c]) && s.managerPage !in h.managers
    ensures var q := Prepared(h, c, s);
      && q.1 in q.0.managers && q.0.allocator == h.allocator
      && Managed(h, q.0, c, s.managerPage, k == |h.chains[c]|) && OthersSame(h, q.0, q.1)
      && (Head(q.0.managers[q.1].lists, PARTIAL) == COUNT <==>
          k == |h.chains[c]| || Head(h.managers[h.chains[c][k]].lists, PARTIAL) == COUNT)
  {
    if k < |h.chains[c]| { assert h.chains[c][k] in h.chains[c]; }
  }

  lemma PreparedFirst(h: Heap, c: nat, s: Supply, free: map<nat, set<nat>>)
    requires Good(h, free) && c < CLASSES
    ensures FirstOf(h, free, c, s, Prepared(h, c, s).1)
  {
    SeekIsFirst(h, free, h.chains[c]);
  }

  // The manager at `a` is the first of the class that is not exhausted, or the new one.
  ghost predicate FirstOf(h: Heap, free: map<nat, set<nat>>, c: nat, s: Supply, a: nat)
    requires ChainsInOrder(h) && c < CLASSES
  {
    exists k: nat ::
      FirstAble(h, free, h.chains[c], k) && a == if k < |h.chains[c]| then h.chains[c][k] else s.managerPage
  }

  lemma ServeChooses(h: Heap, a: nat, s: Supply)
    requires a in h.managers && Ready(h.managers[a]) && |s.bytes| == PAGE_SIZE
    ensures var r := Serve(h, a, s).0;
      && r.managers.Keys == h.managers.Keys && r.chains == h.chains && OthersSame(h, r, a)
      && r.allocator.Keys == h.allocator.Keys +
           (if Head(h.managers[a].lists, PARTIAL) == COUNT then {s.page} else {})
  {
  }

  // Between a heap and the one after a request of class c.
  ghost predicate Chose(h: Heap, r: Heap, c: nat, s: Supply, free: map<nat, set<nat>>)
    requires ChainsInOrder(h) && c < CLASSES
  {
    && Managed(h, r, c, s.managerPage, WantsManager(h, free, c))
    && r.allocator.Keys == h.allocator.Keys + (if WantsPage(h, free, c) then {s.page} else {})
    && exists a :: FirstOf(h, free, c, s, a) && OthersSame(h, r, a)
  }

  // kmalloc asks for a manager exactly if every manager of the class is exhausted, and puts it in front; it asks for
  // a page of slices exactly if the first manager that is not has none with a free slice; no other manager changes.
  lemma KmallocChooses(h: Heap, n: nat, c: nat, s: Supply, free: map<nat, set<nat>>)
    requires Good(h, free) && Fresh(h, s) && Fits(n, c)
    ensures Chose(h, Kmalloc(h, n, s).0, c, s, free)
  {
    ClassIs(n, c);
    PreparedKeeps(h, c, s, free);
    PreparedFirst(h, c, s, free);
    ManagerWanted(h, free, c);
    PageWanted(h, free, c, Seek(h.managers, h.chains[c]));
    var q := Prepared(h, c, s);
    KmallocTwoSteps(h, n, c, s, free, q.0, q.1, Kmalloc(h, n, s).0);
  }

  lemma KmallocTwoSteps(h: Heap, n: nat, c: nat, s: Supply, free: map<nat, set<nat>>, q: Heap, a: nat, r: Heap)
    requires ChainsInOrder(h) && c < CLASSES && s.managerPage !in h.managers && |s.bytes| == PAGE_SIZE
    requires (q, a) == Prepared(h, c, s) && a in q.managers && Ready(q.managers[a]) && r == Serve(q, a, s).0
    requires FirstOf(h, free, c, s, a)
    requires Seek(h.managers, h.chains[c]) == |h.chains[c]| <==> WantsManager(h, free, c)
    requires var k := Seek(h.managers, h.chains[c]);
      k == |h.chains[c]| || Head(h.managers[h.chains[c][k]].lists, PARTIAL) == COUNT <==> WantsPage(h, free, c)
    ensures Chose(h, r, c, s, free)
  {
    PreparedIs(h, c, s, Seek(h.managers, h.chains[c]));
    ServeChooses(q, a, s);
    assert OthersSame(h, r, a);
  }

  // Requests over 2048 bytes leave the slices alone; up to 4 MB they are met in whole blocks of frames.
  lemma LargeRequests(h: Heap, n: nat, s: Supply)
    requires InUse(h) && Fresh(h, s) && n > 2048
    ensures Kmalloc(h, n, s) == (h, if n <= 0x40_0000 then WholePages else Refused)
  {
  }
}
