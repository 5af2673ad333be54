// One page of allocators for one slice size (kernel/kernel/kmm.c): every allocator is in one of three
// index-linked lists, according to the page it manages.

module SliceManager {
  import opened Basics
  import opened Links
  import opened SlicePage

  const COUNT: nat := 408      // NUM_OF_ALLOC_PER_MANAGER, and as an index END_FLAG

  // The heads free, p_full and full, by number; an allocator of kind NOWHERE is being moved.
  const FREE: nat := 0
  const PARTIAL: nat := 1
  const FULL: nat := 2
  const NOWHERE: nat := 3

  datatype Lists = Lists(prev: seq<nat>, next: seq<nat>, heads: seq<nat>)

  // ---- the moves between lists ----

  function Head(l: Lists, a: nat): nat {
    At(l.heads, a, COUNT)
  }

  // kmalloc_helper: the head of one list becomes the head of another.
  function Advance(l: Lists, from: nat, to: nat): Lists {
    var i := Head(l, from);
    var n := At(l.next, i, COUNT);
    var prev := if n != COUNT then Store(l.prev, n, At(l.prev, i, COUNT)) else l.prev;
    var heads := Store(l.heads, from, n);
    var f := At(heads, to, COUNT);
    Lists(if f != COUNT then Store(Store(prev, i, At(prev, f, COUNT)), f, i) else prev,
          Store(l.next, i, f),
          Store(heads, to, i))
  }

  // kfree: taking an allocator out of its list ...
  function Unlinked(l: Lists, i: nat, from: nat): Lists {
    var p, n := At(l.prev, i, COUNT), At(l.next, i, COUNT);
    Lists(if n != COUNT then Store(l.prev, n, p) else l.prev,
          if p != COUNT then Store(l.next, p, n) else l.next,
          if p != COUNT then l.heads else Store(l.heads, from, n))
  }

  // ... and putting it at the head of another.
  function Pushed(l: Lists, i: nat, to: nat): Lists {
    var f := Head(l, to);
    Lists(if f != COUNT then Store(Store(l.prev, i, COUNT), f, i) else Store(l.prev, i, COUNT),
          Store(l.next, i, f),
          Store(l.heads, to, i))
  }

  function Moved(l: Lists, i: nat, from: nat, to: nat): Lists {
    Pushed(Unlinked(l, i, from), i, to)
  }

  // ---- the lists hold the allocators of each kind ----

  predicate Shaped(l: Lists, kind: seq<nat>) {
    |l.prev| == COUNT && |l.next| == COUNT && |l.heads| == 3 && |kind| == COUNT
  }

  // `s` is list a, properly linked.
  ghost predicate LinkedAs(l: Lists, a: nat, s: seq<nat>)
    requires a < |l.heads|
  {
    Chain(l.prev, l.next, l.heads[a], COUNT, s) && HeadClean(l.prev, COUNT, s)
  }

  ghost predicate Members(kind: seq<nat>, a: nat, s: seq<nat>) {
    forall i: nat :: i in s <==> i < |kind| && kind[i] == a
  }

  ghost predicate HasList(l: Lists, a: nat, kind: seq<nat>)
    requires a < |l.heads|
  {
    exists s :: LinkedAs(l, a, s) && Members(kind, a, s)
  }

  ghost predicate ListsAgree(l: Lists, kind: seq<nat>) {
    Shaped(l, kind) && HasList(l, FREE, kind) && HasList(l, PARTIAL, kind) && HasList(l, FULL, kind)
  }

  // The head of a list is an allocator of its kind, if there is any.
  lemma HeadOf(l: Lists, a: nat, kind: seq<nat>)
    requires Shaped(l, kind) && a < 3 && HasList(l, a, kind)
    ensures l.heads[a] != COUNT ==> l.heads[a] < COUNT && kind[l.heads[a]] == a
    ensures l.heads[a] == COUNT ==> forall i :: 0 <= i < COUNT ==> kind[i] != a
    ensures l.heads[a] != COUNT ==> l.prev[l.heads[a]] == COUNT
  {
  }

  lemma UnlinkNeighbours(l: Lists, from: nat, t: seq<nat>, k: nat)
    requires |l.prev| == COUNT == |l.next| && from < |l.heads| && LinkedAs(l, from, t) && k < |t|
    ensures l.next[t[k]] == At(t, k + 1, COUNT) && l.prev[t[k]] == if k == 0 then COUNT else t[k - 1]
    ensures Unlinked(l, t[k], from) ==
            Lists(if k + 1 < |t| then l.prev[t[k + 1] := l.prev[t[k]]] else l.prev,
                  if k > 0 then l.next[t[k - 1] := l.next[t[k]]] else l.next,
                  if k > 0 then l.heads else l.heads[from := l.next[t[k]]])
  {
  }

  lemma OtherUnlinked(l: Lists, a: nat, s: seq<nat>, from: nat, t: seq<nat>, k: nat)
    requires |l.prev| == COUNT == |l.next| && |l.heads| == 3 && a < 3 && from < 3 && a != from
    requires LinkedAs(l, from, t) && k < |t| && LinkedAs(l, a, s) && forall x :: x in s ==> x !in t
    ensures |Unlinked(l, t[k], from).heads| == 3 && LinkedAs(Unlinked(l, t[k], from), a, s)
  {
    UnlinkNeighbours(l, from, t, k);
    var r := Unlinked(l, t[k], from);
    forall x | x in s ensures r.next[x] == l.next[x] && r.prev[x] == l.prev[x] {
      assert x !in t;
      if k > 0 { assert t[k - 1] in t; }
      if k + 1 < |t| { assert t[k + 1] in t; }
    }
    ChainStable(l.prev, l.next, r.prev, r.next, l.heads[a], COUNT, s);
  }

  lemma OwnUnlinked(l: Lists, from: nat, t: seq<nat>, k: nat)
    requires |l.prev| == COUNT == |l.next| && |l.heads| == 3 && from < 3
    requires LinkedAs(l, from, t) && k < |t|
    ensures |Unlinked(l, t[k], from).heads| == 3 && LinkedAs(Unlinked(l, t[k], from), from, Without(t, k))
  {
    UnlinkNeighbours(l, from, t, k);
    var r := Unlinked(l, t[k], from);
    UnlinkNext(l.next, r.next, l.heads[from], r.heads[from], COUNT, t, k);
    UnlinkPrev(l.prev, r.prev, t, k);
    WithoutAt(t, k);
  }

  lemma MembersWithout(kind: seq<nat>, from: nat, t: seq<nat>, k: nat)
    requires Members(kind, from, t) && Distinct(t) && k < |t| && from != NOWHERE
    ensures t[k] < |kind| && kind[t[k]] == from && Members(kind[t[k] := NOWHERE], from, Without(t, k))
  {
    assert t[k] in t;
    forall x: nat ensures x in Without(t, k) <==> x in t && x != t[k] {
      WithoutMembers(t, k, x);
    }
  }

  lemma MembersStay(kind: seq<nat>, a: nat, s: seq<nat>, i: nat, b: nat)
    requires Members(kind, a, s) && i < |kind| && kind[i] != a && b != a
    ensures Members(kind[i := b], a, s)
  {
  }

  lemma UnlinkedList(l: Lists, kind: seq<nat>, a: nat, i: nat, from: nat)
    requires Shaped(l, kind) && a < 3 && from < 3 && i < COUNT && kind[i] == from
    requires HasList(l, a, kind) && HasList(l, from, kind)
    ensures |Unlinked(l, i, from).heads| == 3 && HasList(Unlinked(l, i, from), a, kind[i := NOWHERE])
  {
    var t: seq<nat> :| LinkedAs(l, from, t) && Members(kind, from, t);
    assert i in t;
    var k: nat :| k < |t| && t[k] == i;
    if a == from {
      OwnUnlinked(l, from, t, k);
      MembersWithout(kind, from, t, k);
    } else {
      var s: seq<nat> :| LinkedAs(l, a, s) && Members(kind, a, s);
      OtherUnlinked(l, a, s, from, t, k);
      MembersStay(kind, a, s, i, NOWHERE);
    }
  }

  lemma OtherPushed(l: Lists, a: nat, s: seq<nat>, i: nat, to: nat)
    requires |l.prev| == COUNT == |l.next| && |l.heads| == 3 && a < 3 && to < 3 && a != to && i < COUNT
    requires LinkedAs(l, a, s) && i !in s && l.heads[to] !in s
    ensures LinkedAs(Pushed(l, i, to), a, s)
  {
    var r := Pushed(l, i, to);
    ChainStable(l.prev, l.next, r.prev, r.next, l.heads[a], COUNT, s);
  }

  lemma OwnPushed(l: Lists, s: seq<nat>, i: nat, to: nat)
    requires |l.prev| == COUNT == |l.next| && |l.heads| == 3 && to < 3 && i < COUNT
    requires LinkedAs(l, to, s) && i !in s
    ensures LinkedAs(Pushed(l, i, to), to, [i] + s)
  {
    var r := Pushed(l, i, to);
    ChainPush(l.prev, l.next, r.prev, r.next, l.heads[to], COUNT, s, i);
  }

  lemma MembersPushed(kind: seq<nat>, s: seq<nat>, i: nat, to: nat)
    requires Members(kind, to, s) && i < |kind| && kind[i] != to
    ensures Members(kind[i := to], to, [i] + s)
  {
  }

  lemma PushedList(l: Lists, kind: seq<nat>, a: nat, i: nat, to: nat)
    requires Shaped(l, kind) && a < 3 && to < 3 && i < COUNT && kind[i] == NOWHERE
    requires HasList(l, a, kind) && HasList(l, to, kind)
    ensures HasList(Pushed(l, i, to), a, kind[i := to])
  {
    var s: seq<nat> :| LinkedAs(l, a, s) && Members(kind, a, s);
    assert i !in s;
    if a == to {
      OwnPushed(l, s, i, to);
      MembersPushed(kind, s, i, to);
    } else {
      HeadOf(l, to, kind);
      OtherPushed(l, a, s, i, to);
      MembersStay(kind, a, s, i, to);
    }
  }

  // A move keeps all three lists well formed and changes the kind of one allocator.
  lemma MovedAgree(l: Lists, kind: seq<nat>, i: nat, from: nat, to: nat)
    requires ListsAgree(l, kind) && from < 3 && to < 3 && i < COUNT && kind[i] == from
    ensures ListsAgree(Moved(l, i, from, to), kind[i := to])
  {
    ListOf(l, kind, from);
    ListOf(l, kind, to);
    MovedList(l, kind, FREE, i, from, to);
    MovedList(l, kind, PARTIAL, i, from, to);
    MovedList(l, kind, FULL, i, from, to);
  }

  lemma ListOf(l: Lists, kind: seq<nat>, a: nat)
    requires ListsAgree(l, kind) && a < 3
    ensures HasList(l, a, kind)
  {
    if a == FREE {
      assert HasList(l, FREE, kind);
    } else if a == PARTIAL {
      assert HasList(l, PARTIAL, kind);
    } else {
      assert HasList(l, FULL, kind);
    }
  }

  lemma MovedList(l: Lists, kind: seq<nat>, a: nat, i: nat, from: nat, to: nat)
    requires Shaped(l, kind) && a < 3 && from < 3 && to < 3 && i < COUNT && kind[i] == from
    requires HasList(l, a, kind) && HasList(l, from, kind) && HasList(l, to, kind)
    ensures |Moved(l, i, from, to).heads| == 3 && HasList(Moved(l, i, from, to), a, kind[i := to])
  {
    UnlinkedList(l, kind, a, i, from);
    UnlinkedList(l, kind, to, i, from);
    Overwritten(kind, i, NOWHERE, to);
    PushedList(Unlinked(l, i, from), kind[i := NOWHERE], a, i, to);
  }

  lemma Overwritten(s: seq<nat>, i: nat, x: nat, y: nat)
    requires i < |s|
    ensures s[i := x][i := y] == s[i := y]
  {
  }

  // The move written out in kmalloc_helper is the one of kfree, applied to a list's head.
  lemma AdvanceIsMove(l: Lists, kind: seq<nat>, from: nat, to: nat)
    requires ListsAgree(l, kind) && from < 3 && to < 3 && from != to && l.heads[from] != COUNT
    ensures l.heads[from] < COUNT && kind[l.heads[from]] == from
    ensures Advance(l, from, to) == Moved(l, l.heads[from], from, to)
  {
    ListOf(l, kind, from);
    ListOf(l, kind, to);
    TwoHeads(l, kind, from, to);
    AdvanceSame(l, from, to);
  }

  lemma TwoHeads(l: Lists, kind: seq<nat>, from: nat, to: nat)
    requires Shaped(l, kind) && from < 3 && to < 3 && from != to && l.heads[from] != COUNT
    requires HasList(l, from, kind) && HasList(l, to, kind)
    ensures l.heads[from] < COUNT && kind[l.heads[from]] == from && l.prev[l.heads[from]] == COUNT
    ensures l.next[l.heads[from]] <= COUNT && l.next[l.heads[from]] != l.heads[from]
    ensures l.heads[to] <= COUNT
    ensures l.heads[to] != COUNT ==>
      l.prev[l.heads[to]] == COUNT && l.heads[to] != l.heads[from] && l.heads[to] != l.next[l.heads[from]]
  {
  }

  lemma AdvanceSame(l: Lists, from: nat, to: nat)
    requires |l.prev| == COUNT == |l.next| && |l.heads| == 3 && from < 3 && to < 3 && from != to
    requires l.heads[from] < COUNT && l.prev[l.heads[from]] == COUNT && l.next[l.heads[from]] <= COUNT
    requires l.heads[to] <= COUNT && (l.heads[to] != COUNT ==> l.prev[l.heads[to]] == COUNT)
    requires l.heads[to] != COUNT ==> l.heads[to] != l.heads[from] && l.heads[to] != l.next[l.heads[from]]
    requires l.next[l.heads[from]] != l.heads[from]
    ensures Advance(l, from, to) == Moved(l, l.heads[from], from, to)
  {
  }

  // ---- init_allocator_manager ----

  function InitialLists(): Lists {
    Lists(seq(COUNT, i requires 0 <= i < COUNT => InitialPrev(i)),
          seq(COUNT, i requires 0 <= i < COUNT => InitialNext(i)),
          [0, COUNT, COUNT])
  }

  function InitialPrev(i: nat): nat {
    if i == 0 then COUNT else i - 1
  }

  function InitialNext(i: nat): nat {
    i + 1
  }

  ghost function Indices(n: nat): (s: seq<nat>)
    ensures |s| == n && forall i :: 0 <= i < n ==> s[i] == i
  {
    if n == 0 then [] else Indices(n - 1) + [n - 1]
  }

  lemma InitialAgree(kind: seq<nat>)
    requires |kind| == COUNT && forall i :: 0 <= i < COUNT ==> kind[i] == FREE
    ensures ListsAgree(InitialLists(), kind)
  {
    var l := InitialLists();
    InitialLinked();
    assert LinkedAs(l, PARTIAL, []) && Members(kind, PARTIAL, []);
    assert LinkedAs(l, FULL, []) && Members(kind, FULL, []);
    forall i: nat ensures i in Indices(COUNT) <==> i < |kind| && kind[i] == FREE {
      if i < COUNT { assert Indices(COUNT)[i] == i; }
    }
    assert Members(kind, FREE, Indices(COUNT));
  }

  lemma InitialLinked()
    ensures LinkedAs(InitialLists(), FREE, Indices(COUNT))
  {
  }

  // ---- a manager ----

  // `target` holds the address of the page each allocator manages, 0 if none; a page address is not 0.
  datatype Manager = Manager(size: nat, fix: bool, lists: Lists, target: seq<nat>, slabs: seq<Slab>)

  // Free without a page, full without a free slice, partially full otherwise.
  function KindOf(target: nat, p: Slab): nat {
    if target == 0 then FREE else if p.avail == 0 then FULL else PARTIAL
  }

  function Kinds(m: Manager): (k: seq<nat>)
    requires |m.target| == COUNT == |m.slabs|
    ensures |k| == COUNT && forall i :: 0 <= i < COUNT ==> k[i] == KindOf(m.target[i], m.slabs[i])
  {
    seq(COUNT, i requires 0 <= i < COUNT => KindOf(m.target[i], m.slabs[i]))
  }

  // The slices of the page at index i are managed as `free` says, and not all of them are free.
  ghost predicate PageHolds(m: Manager, i: nat, free: set<nat>)
    requires i < |m.slabs|
  {
    && Holds(m.slabs[i], free)
    && m.slabs[i].size == m.size && m.slabs[i].fix == m.fix
    && m.slabs[i].avail < Slots(m.slabs[i].size)
  }

  // `free` gives the free slots of each page.
  ghost predicate InOrder(m: Manager, free: map<nat, set<nat>>) {
    && IsClass(m.size) && |m.target| == COUNT == |m.slabs|
    && ListsAgree(m.lists, Kinds(m))
    && (forall i, j :: 0 <= i < j < COUNT && m.target[i] == m.target[j] ==> m.target[i] == 0)
    && (forall i :: 0 <= i < COUNT && m.target[i] != 0 ==> m.target[i] in free && PageHolds(m, i, free[m.target[i]]))
  }

  function NewManager(size: nat, fix: bool): Manager {
    Manager(size, fix, InitialLists(), seq(COUNT, i => 0), seq(COUNT, i => Slab(size, fix, 0, 0, [])))
  }

  lemma NewManagerInOrder(size: nat, fix: bool, free: map<nat, set<nat>>)
    requires IsClass(size)
    ensures InOrder(NewManager(size, fix), free)
  {
    InitialAgree(Kinds(NewManager(size, fix)));
  }

  // ---- kmalloc_helper on one manager ----

  predicate HasRoom(m: Manager) {
    Head(m.lists, PARTIAL) != COUNT || Head(m.lists, FREE) != COUNT
  }

  // From the first partially full page.
  function TakeSlice(m: Manager, i: nat): Manager
    requires i < |m.slabs| && CanTake(m.slabs[i])
  {
    m.(slabs := m.slabs[i := Take(m.slabs[i])],
       lists := if ReportsFull(m.slabs[i]) then Advance(m.lists, PARTIAL, FULL) else m.lists)
  }

  // From a new page, for the first allocator without one.
  function StartPage(m: Manager, i: nat, page: nat, bytes: seq<nat>): Manager
    requires i < |m.slabs| && i < |m.target| && IsClass(m.size) && |bytes| == PAGE_SIZE
  {
    m.(slabs := m.slabs[i := NewPage(m.size, m.fix, bytes)], target := m.target[i := page],
       lists := Advance(m.lists, FREE, PARTIAL))
  }

  // kfree on one manager: a page without taken slices goes back, and a page that was full gets room.
  predicate BecomesEmpty(m: Manager, p: Slab)
    requires IsClass(m.size)
  {
    p.avail == Slots(m.size)
  }

  function Freed(m: Manager, i: nat, p: Slab): Manager
    requires i < |m.slabs| && i < |m.target| && IsClass(m.size)
  {
    if BecomesEmpty(m, p) then
      m.(slabs := m.slabs[i := p.(avail := 0, bytes := [])], target := m.target[i := 0],
         lists := Moved(m.lists, i, PARTIAL, FREE))
    else if p.avail == 1 then
      m.(slabs := m.slabs[i := p], lists := Moved(m.lists, i, FULL, PARTIAL))
    else
      m.(slabs := m.slabs[i := p])
  }

  // ---- what they keep ----

  // Replacing one allocator's record.
  ghost predicate OnlyAt(m: Manager, r: Manager, i: nat) {
    && i < COUNT && |m.target| == COUNT == |m.slabs| && |r.target| == COUNT == |r.slabs|
    && r.size == m.size && r.fix == m.fix
    && forall j :: 0 <= j < COUNT && j != i ==> r.target[j] == m.target[j] && r.slabs[j] == m.slabs[j]
  }

  lemma OthersInOrder(m: Manager, r: Manager, i: nat, free: map<nat, set<nat>>, after: map<nat, set<nat>>)
    requires InOrder(m, free) && OnlyAt(m, r, i) && ListsAgree(r.lists, Kinds(r))
    requires forall b :: b in free && b != r.target[i] && b != m.target[i] ==> b in after && after[b] == free[b]
    requires r.target[i] != 0 ==> r.target[i] in after && PageHolds(r, i, after[r.target[i]])
    requires r.target[i] != 0 && r.target[i] != m.target[i] ==> r.target[i] !in m.target
    ensures InOrder(r, after)
  {
    forall j, k | 0 <= j < k < COUNT && r.target[j] == r.target[k] ensures r.target[j] == 0 {
      assert m.target[j] in m.target && m.target[k] in m.target;
    }
    forall j | 0 <= j < COUNT && r.target[j] != 0 ensures r.target[j] in after && PageHolds(r, j, after[r.target[j]]) {
      if j != i {
        assert m.target[j] in m.target;
        assert PageHolds(m, j, free[m.target[j]]);
      }
    }
  }

  lemma KindsChanged(m: Manager, r: Manager, i: nat)
    requires OnlyAt(m, r, i)
    ensures Kinds(r) == Kinds(m)[i := KindOf(r.target[i], r.slabs[i])]
  {
  }

  // The first partially full allocator can give a slice.
  lemma TakeSliceKeeps(m: Manager, free: map<nat, set<nat>>)
    requires InOrder(m, free) && Head(m.lists, PARTIAL) != COUNT
    ensures var i := Head(m.lists, PARTIAL);
      && i < COUNT && m.target[i] != 0 && m.target[i] in free && CanTake(m.slabs[i])
      && NextSlot(m.slabs[i]) in free[m.target[i]] && m.slabs[i].size == m.size
      && InOrder(TakeSlice(m, i), free[m.target[i] := free[m.target[i]] - {NextSlot(m.slabs[i])}])
  {
    var i := Head(m.lists, PARTIAL);
    HeadOf(m.lists, PARTIAL, Kinds(m));
    var page := m.target[i];
    assert PageHolds(m, i, free[page]);
    TakeHolds(m.slabs[i], free[page]);
    var r := TakeSlice(m, i);
    KindsChanged(m, r, i);
    if ReportsFull(m.slabs[i]) {
      AdvanceIsMove(m.lists, Kinds(m), PARTIAL, FULL);
      MovedAgree(m.lists, Kinds(m), i, PARTIAL, FULL);
    } else {
      assert Kinds(r) == Kinds(m);
    }
    OthersInOrder(m, r, i, free, free[page := free[page] - {NextSlot(m.slabs[i])}]);
  }

  lemma StartPageKeeps(m: Manager, page: nat, bytes: seq<nat>, free: map<nat, set<nat>>)
    requires InOrder(m, free) && Head(m.lists, FREE) != COUNT
    requires page != 0 && page !in m.target && |bytes| == PAGE_SIZE
    ensures var i := Head(m.lists, FREE);
      && i < COUNT && m.target[i] == 0
      && InOrder(StartPage(m, i, page, bytes), free[page := Above0(Slots(m.size))])
  {
    var i := Head(m.lists, FREE);
    HeadOf(m.lists, FREE, Kinds(m));
    NewPageHolds(m.size, m.fix, bytes);
    var r := StartPage(m, i, page, bytes);
    KindsChanged(m, r, i);
    AdvanceIsMove(m.lists, Kinds(m), FREE, PARTIAL);
    MovedAgree(m.lists, Kinds(m), i, FREE, PARTIAL);
    OthersInOrder(m, r, i, free, free[page := Above0(Slots(m.size))]);
  }

  // The other two outcomes of kfree.
  lemma FreedKeeps(m: Manager, i: nat, p: Slab, free: map<nat, set<nat>>, now: set<nat>)
    requires InOrder(m, free) && i < COUNT && m.target[i] != 0
    requires p.size == m.size && p.fix == m.fix && p.avail == m.slabs[i].avail + 1
    requires !BecomesEmpty(m, p) ==> Holds(p, now)
    ensures InOrder(Freed(m, i, p), if BecomesEmpty(m, p) then free - {m.target[i]} else free[m.target[i] := now])
  {
    var page := m.target[i];
    assert PageHolds(m, i, free[page]);
    var r := Freed(m, i, p);
    KindsChanged(m, r, i);
    if BecomesEmpty(m, p) {
      MovedAgree(m.lists, Kinds(m), i, PARTIAL, FREE);
      OthersInOrder(m, r, i, free, free - {page});
    } else {
      if p.avail == 1 {
        MovedAgree(m.lists, Kinds(m), i, FULL, PARTIAL);
      } else {
        assert Kinds(r) == Kinds(m);
      }
      OthersInOrder(m, r, i, free, free[page := now]);
    }
  }
}
