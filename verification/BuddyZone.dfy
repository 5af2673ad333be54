// The buddy allocator of kernel/kernel/pmm.c as steps on the values of its frame table and free lists.
// Each step stores exactly what the source stores, in the source's order. With `fix` unset the steps are
// the shipped code; setting it adds the two stores the shipped code lacks (the back link of a list's new
// first block after a pop, and of the right half after a split).

module BuddyZone {
  import opened Powers
  import opened Tiling
  import opened Links

  const LEVELS: nat := 11     // BUDDY_MAXLEVEL
  const ALLOCATED: nat := 1   // PAGE_FRAME_ALLOCATED
  const HEAD: nat := 2        // PAGE_FRAME_BLOCK_HEAD

  // One sequence per field of page_frame_t; records from index n on are whatever memory follows the table.
  datatype Zone = Zone(n: nat, fix: bool, flags: seq<nat>, level: seq<nat>, prev: seq<nat>, next: seq<nat>,
    heads: seq<nat>)

  // The merge loop can look at most one buddy of level 9 past the table.
  predicate Shape(z: Zone) {
    && 0 < z.n && z.n + 512 <= |z.flags|
    && |z.flags| == |z.level| == |z.prev| == |z.next|
    && |z.heads| == LEVELS
  }

  predicate HasHead(flags: nat) {
    (flags / 2) % 2 == 1
  }

  // ---- allocation: buddy_system_get_frame_page_block ----

  function FindLevel(z: Zone, l: nat): (m: nat)
    requires Shape(z)
    ensures l <= LEVELS ==> l <= m <= LEVELS
    ensures m < LEVELS ==> z.heads[m] != z.n
    ensures forall k :: l <= k < m && k < LEVELS ==> z.heads[k] == z.n
    decreases LEVELS - l
  {
    if l < LEVELS && z.heads[l] == z.n then FindLevel(z, l + 1) else l
  }

  function Pop(z: Zone, m: nat): (r: Zone)
    requires Shape(z) && m < LEVELS && z.heads[m] < z.n
    ensures Shape(r) && r.n == z.n
  {
    var nx := z.next[z.heads[m]];
    z.(heads := z.heads[m := nx], prev := if z.fix && nx < z.n then Store(z.prev, nx, z.n) else z.prev)
  }

  function SplitOnce(z: Zone, i: nat, l: nat): (r: Zone)
    requires Shape(z) && i < z.n && l < TOP
    ensures Shape(r) && r.n == z.n
  {
    BuddyBound(i, l);
    var right := Buddy(i, l);
    var first := z.heads[l];
    var prev := Store(z.prev, first, right);
    z.(level := z.level[right := l],
       prev := if z.fix then prev[right := z.n] else prev,
       next := z.next[right := first],
       flags := z.flags[right := HEAD],
       heads := z.heads[l := right])
  }

  lemma BuddyBound(i: nat, l: nat)
    requires l < TOP
    ensures Buddy(i, l) <= i + 512
  {
    Pow2Monotone(l, 9);
    assert Pow2(9) == 512;
  }

  function SplitDown(z: Zone, i: nat, m: nat, level: nat): (r: Zone)
    requires Shape(z) && i < z.n && m <= TOP
    ensures Shape(r) && r.n == z.n
    decreases m
  {
    if m > level then SplitDown(SplitOnce(z, i, m - 1), i, m - 1, level) else z
  }

  lemma SplitDownStep(z: Zone, i: nat, m: nat, level: nat)
    requires Shape(z) && i < z.n && m <= TOP
    ensures m > level ==> SplitDown(z, i, m, level) == SplitDown(SplitOnce(z, i, m - 1), i, m - 1, level)
    ensures m <= level ==> SplitDown(z, i, m, level) == z
  {
  }

  function Claim(z: Zone, i: nat, level: nat): (r: Zone)
    requires Shape(z) && i < z.n
    ensures Shape(r) && r.n == z.n
  {
    z.(flags := z.flags[i := ALLOCATED + HEAD], level := z.level[i := level],
       prev := z.prev[i := z.n], next := z.next[i := z.n])
  }

  // ---- freeing: buddy_system_free_frame_page_block ----

  predicate Mergeable(z: Zone, p: nat, l: nat)
    requires Shape(z) && p < z.n
  {
    && l < TOP
    && (BuddyBound(p, l); true)
    && l == z.level[Buddy(p, l)] && z.flags[Buddy(p, l)] == HEAD
  }

  function Unlink(z: Zone, b: nat, l: nat): (r: Zone)
    requires Shape(z) && b < |z.flags| && l < LEVELS
    ensures Shape(r) && r.n == z.n
  {
    var p, nx := z.prev[b], z.next[b];
    z.(heads := if p == z.n then z.heads[l := nx] else z.heads,
       next := if p == z.n then z.next else Store(z.next, p, nx),
       prev := if nx < z.n then Store(z.prev, nx, p) else z.prev)
  }

  function Join(z: Zone, p: nat, b: nat, l: nat): (r: Zone)
    requires Shape(z) && p < |z.flags| && b < |z.flags|
    ensures Shape(r) && r.n == z.n
  {
    z.(flags := z.flags[Upper(p, b) := ALLOCATED],
       level := z.level[Upper(p, b) := 0][Lower(p, b) := l + 1])
  }

  function MergeOnce(z: Zone, p: nat, l: nat): (r: Zone)
    requires Shape(z) && p < z.n && l < TOP
    ensures Shape(r) && r.n == z.n
  {
    BuddyBound(p, l);
    Join(Unlink(z, Buddy(p, l), l), p, Buddy(p, l), l)
  }

  function Push(z: Zone, p: nat, l: nat): (r: Zone)
    requires Shape(z) && p < z.n && l < LEVELS
    ensures Shape(r) && r.n == z.n
  {
    var first := z.heads[l];
    z.(flags := z.flags[p := HEAD], level := z.level[p := l],
       next := z.next[p := first],
       prev := (if first < z.n then Store(z.prev, first, p) else z.prev)[p := z.n],
       heads := z.heads[l := p])
  }

  // The merge loop and the final push.
  function MergeUp(z: Zone, p: nat, l: nat): (r: Zone)
    requires Shape(z) && p < z.n && l <= TOP
    ensures Shape(r) && r.n == z.n
    decreases TOP - l
  {
    if Mergeable(z, p, l) then MergeUp(MergeOnce(z, p, l), Lower(p, Buddy(p, l)), l + 1) else Push(z, p, l)
  }

  // ---- the invariant ----

  function CellOf(z: Zone, f: nat): Cell
    requires Shape(z) && f < z.n
  {
    if HasHead(z.flags[f]) then Block(z.level[f], z.flags[f] % 2 == 0) else Interior
  }

  function Cells(z: Zone): seq<Cell>
    requires Shape(z)
  {
    seq(z.n, f requires 0 <= f < z.n => CellOf(z, f))
  }

  // Each level's list holds exactly the free blocks of that level.
  ghost predicate ListsAgree(z: Zone, lists: seq<seq<nat>>, c: seq<Cell>)
    requires Shape(z)
  {
    && |lists| == LEVELS
    && (forall l :: 0 <= l < LEVELS ==> Chain(z.prev, z.next, z.heads[l], z.n, lists[l]))
    && (forall l, i: nat :: 0 <= l < LEVELS ==> (i in lists[l] <==> IsFree(c, i, l)))
    && (z.fix ==> forall l :: 0 <= l < LEVELS ==> HeadClean(z.prev, z.n, lists[l]))
  }

  // The records show the cells, except that of the block `held` between being unlisted and being claimed.
  ghost predicate RecordsAgree(z: Zone, c: seq<Cell>, held: nat)
    requires Shape(z)
  {
    && |c| == z.n
    && (forall f :: 0 <= f < z.n ==> z.flags[f] < 4)
    && (forall f :: 0 <= f < z.n && f != held ==> CellOf(z, f) == c[f])
    && (held < z.n ==> c[held].Block? && !c[held].free)
  }

  ghost predicate Held(z: Zone, lists: seq<seq<nat>>, c: seq<Cell>, held: nat) {
    && Shape(z) && RecordsAgree(z, c, held)
    && Tiled(c) && Coalesced(c)
    && ListsAgree(z, lists, c)
  }

  ghost predicate Valid(z: Zone) {
    Shape(z) && exists lists :: Held(z, lists, Cells(z), z.n)
  }

  // ---- one list changes, the others stay ----

  lemma ListsStep(z: Zone, z': Zone, lists: seq<seq<nat>>, c: seq<Cell>, c': seq<Cell>, l: nat, s: seq<nat>)
    requires Shape(z) && Shape(z') && z.n == z'.n && z.fix == z'.fix && |z.flags| == |z'.flags| && l < LEVELS
    requires ListsAgree(z, lists, c)
    requires Chain(z'.prev, z'.next, z'.heads[l], z.n, s) && (z.fix ==> HeadClean(z'.prev, z.n, s))
    requires forall i: nat :: i in s <==> IsFree(c', i, l)
    requires forall m :: 0 <= m < LEVELS && m != l ==> z'.heads[m] == z.heads[m]
    requires forall i: nat, m :: 0 <= m < LEVELS && m != l ==> IsFree(c', i, m) == IsFree(c, i, m)
    requires forall i: nat, m :: 0 <= m < LEVELS && m != l && IsFree(c, i, m) ==>
      i < |z.prev| && z'.prev[i] == z.prev[i] && z'.next[i] == z.next[i]
    ensures ListsAgree(z', lists[l := s], c')
  {
    forall m | 0 <= m < LEVELS && m != l
      ensures Chain(z'.prev, z'.next, z'.heads[m], z.n, lists[m])
    {
      assert forall x :: x in lists[m] ==> IsFree(c, x, m);
      ChainStable(z.prev, z.next, z'.prev, z'.next, z.heads[m], z.n, lists[m]);
    }
    if z.fix {
      forall m | 0 <= m < LEVELS && m != l ensures HeadClean(z'.prev, z.n, lists[m]) {
        if lists[m] != [] { assert IsFree(c, lists[m][0], m); }
      }
    }
  }

  lemma PopLists(z: Zone, lists: seq<seq<nat>>, c: seq<Cell>, m: nat, i: nat)
    requires Held(z, lists, c, z.n) && m < LEVELS && lists[m] != [] && i == lists[m][0]
    ensures z.heads[m] == i && IsFree(c, i, m)
    ensures ListsAgree(Pop(z, m), lists[m := lists[m][1..]], Mark(c, i, false))
  {
    assert i in lists[m];
    var z', s, c' := Pop(z, m), lists[m][1..], Mark(c, i, false);
    ChainPop(z.prev, z.next, i, z.n, lists[m]);
    assert s != [] ==> z.next[i] == s[0] && s[0] in lists[m];
    ChainStable(z.prev, z.next, z'.prev, z'.next, z.next[i], z.n, s);
    ListsStep(z, z', lists, c, c', m, s);
  }

  lemma PopKeeps(z: Zone, lists: seq<seq<nat>>, c: seq<Cell>, m: nat)
    requires Held(z, lists, c, z.n) && m < LEVELS && lists[m] != []
    ensures z.heads[m] == lists[m][0] && IsFree(c, z.heads[m], m)
    ensures Held(Pop(z, m), lists[m := lists[m][1..]], Mark(c, z.heads[m], false), z.heads[m])
  {
    var i := lists[m][0];
    PopLists(z, lists, c, m, i);
    SameCoverTiled(c, Mark(c, i, false));
    FewerFree(c, Mark(c, i, false));
  }

  // A block that becomes free goes to the front of its level's list.
  lemma PushLists(z: Zone, z': Zone, lists: seq<seq<nat>>, c: seq<Cell>, c': seq<Cell>, l: nat, r: nat)
    requires Shape(z) && Shape(z') && z.n == z'.n && z.fix == z'.fix && |z.flags| == |z'.flags| && l < LEVELS
    requires ListsAgree(z, lists, c) && |c| <= z.n
    requires r < z.n && !IsFree(c, r, l)
    requires z'.heads == z.heads[l := r] && z'.next == z.next[r := z.heads[l]]
    requires forall x :: 0 <= x < z.n && x != r ==> z'.prev[x] == if x == z.heads[l] then r else z.prev[x]
    requires z.fix ==> z'.prev[r] == z.n
    requires forall x: nat, m :: 0 <= m < LEVELS ==> (IsFree(c', x, m) <==> IsFree(c, x, m) || (x == r && m == l))
    requires forall m :: 0 <= m < LEVELS ==> !IsFree(c, r, m)
    ensures ListsAgree(z', lists[l := [r] + lists[l]], c')
  {
    var s, first := lists[l], z.heads[l];
    assert forall y :: y in s ==> IsFree(c, y, l);
    assert Chain(z.prev, z.next, first, z.n, s);
    assert s != [] ==> first == s[0] && first in s;
    assert s == [] ==> first == z.n;
    assert r !in s;
    ChainPush(z.prev, z.next, z'.prev, z'.next, first, z.n, s, r);
    ListsStep(z, z', lists, c, c', l, [r] + s);
  }

  lemma SplitOnceLinks(z: Zone, i: nat, l: nat, r: nat)
    requires Shape(z) && i < z.n && l < TOP && r == Buddy(i, l) < z.n
    ensures var y := SplitOnce(z, i, l);
      && y.fix == z.fix && |y.flags| == |z.flags|
      && y.heads == z.heads[l := r] && y.next == z.next[r := z.heads[l]] && (z.fix ==> y.prev[r] == z.n)
      && forall x :: 0 <= x < z.n && x != r ==> y.prev[x] == if x == z.heads[l] then r else z.prev[x]
  {
  }

  lemma SplitLists(z: Zone, y: Zone, lists: seq<seq<nat>>, c: seq<Cell>, i: nat, l: nat, r: nat, after: seq<seq<nat>>)
    requires Shape(z) && ListsAgree(z, lists, c) && |c| == z.n
    requires i < z.n && l < TOP && r < |c| && c[i] == Block(l + 1, false) && c[r] == Interior &&
      r == i + Pow2(l) == Buddy(i, l)
    requires Shape(y) && y.n == z.n && y.fix == z.fix && |y.flags| == |z.flags|
    requires y.heads == z.heads[l := r] && y.next == z.next[r := z.heads[l]] && (z.fix ==> y.prev[r] == z.n)
    requires forall x :: 0 <= x < z.n && x != r ==> y.prev[x] == if x == z.heads[l] then r else z.prev[x]
    requires after == lists[l := [r] + lists[l]]
    ensures ListsAgree(y, after, Split(c, i, l))
  {
    SplitFree(c, i, l);
    PushLists(z, y, lists, c, Split(c, i, l), l, r);
  }

  lemma SplitRecords(z: Zone, c: seq<Cell>, i: nat, l: nat, r: nat)
    requires Shape(z) && RecordsAgree(z, c, i)
    requires i < z.n && l < TOP && r < |c| && r == i + Pow2(l) == Buddy(i, l)
    ensures RecordsAgree(SplitOnce(z, i, l), Split(c, i, l), i)
  {
  }

  lemma SplitBlock(c: seq<Cell>, i: nat, l: nat, r: nat)
    requires Tiled(c) && Coalesced(c) && i < |c| && c[i] == Block(l + 1, false) && r == i + Pow2(l)
    ensures r < |c| && c[r] == Interior && Buddy(i, l) == r && l < TOP
    ensures Tiled(Split(c, i, l)) && Coalesced(Split(c, i, l))
  {
    SplitTiled(c, i, l);
    SplitRight(c, i, l);
    AlignedSplit(i, l);
    SplitCoalesced(c, i, l);
  }

  lemma SplitKeeps(z: Zone, lists: seq<seq<nat>>, c: seq<Cell>, i: nat, l: nat, r: nat, after: seq<seq<nat>>)
    requires Held(z, lists, c, i) && i < z.n && c[i] == Block(l + 1, false)
    requires r == i + Pow2(l) && l < TOP && after == lists[l := [r] + lists[l]]
    ensures r < |c| && Buddy(i, l) == r && Held(SplitOnce(z, i, l), after, Split(c, i, l), i)
  {
    SplitBlock(c, i, l, r);
    SplitOnceLinks(z, i, l, r);
    SplitLists(z, SplitOnce(z, i, l), lists, c, i, l, r, after);
    SplitRecords(z, c, i, l, r);
  }

  lemma ClaimKeeps(z: Zone, lists: seq<seq<nat>>, c: seq<Cell>, i: nat, level: nat)
    requires Held(z, lists, c, i) && i < z.n && c[i] == Block(level, false)
    ensures Held(Claim(z, i, level), lists, c, z.n)
  {
    var z' := Claim(z, i, level);
    forall l | 0 <= l < LEVELS
      ensures Chain(z'.prev, z'.next, z'.heads[l], z.n, lists[l])
      ensures z.fix ==> HeadClean(z'.prev, z.n, lists[l])
    {
      assert forall x :: x in lists[l] ==> IsFree(c, x, l);
      ChainStable(z.prev, z.next, z'.prev, z'.next, z.heads[l], z.n, lists[l]);
      assert lists[l] != [] ==> lists[l][0] in lists[l];
    }
  }

  lemma PushRecords(z: Zone, c: seq<Cell>, p: nat, l: nat)
    requires Shape(z) && RecordsAgree(z, c, p) && p < z.n && l <= TOP && c[p] == Block(l, false)
    ensures RecordsAgree(Push(z, p, l), Mark(c, p, true), z.n)
  {
  }

  lemma PushKeeps(z: Zone, lists: seq<seq<nat>>, c: seq<Cell>, p: nat, l: nat)
    requires Held(z, lists, c, p) && p < z.n && l <= TOP && c[p] == Block(l, false)
    requires l < TOP ==> !IsFree(c, Buddy(p, l), l)
    ensures Held(Push(z, p, l), lists[l := [p] + lists[l]], Mark(c, p, true), z.n)
  {
    var d := Mark(c, p, true);
    SameCoverTiled(c, d);
    MarkCoalesced(c, p, l);
    PushRecords(z, c, p, l);
    PushLists(z, Push(z, p, l), lists, c, d, l, p);
  }

  lemma UnlinkChain(z: Zone, s: seq<nat>, b: nat, l: nat, k: nat)
    requires Shape(z) && l < LEVELS && k < |s| && b == s[k] && Chain(z.prev, z.next, z.heads[l], z.n, s)
    requires k == 0 ==> z.prev[b] == z.n
    ensures var z' := Unlink(z, b, l); Chain(z'.prev, z'.next, z'.heads[l], z.n, Without(s, k))
  {
    var z' := Unlink(z, b, l);
    assert z.next[b] == At(s, k + 1, z.n) && (k > 0 ==> z.prev[b] == s[k - 1]);
    UnlinkNext(z.next, z'.next, z.heads[l], z'.heads[l], z.n, s, k);
    UnlinkPrev(z.prev, z'.prev, s, k);
    WithoutAt(s, k);
  }

  lemma UnlinkFrame(z: Zone, s: seq<nat>, b: nat, l: nat, k: nat)
    requires Shape(z) && l < LEVELS && k < |s| && b == s[k] && Chain(z.prev, z.next, z.heads[l], z.n, s)
    requires k == 0 ==> z.prev[b] == z.n
    ensures var z' := Unlink(z, b, l);
      forall x: nat :: x < |z.prev| && x !in s ==> z'.prev[x] == z.prev[x] && z'.next[x] == z.next[x]
  {
    assert z.next[b] == At(s, k + 1, z.n) && (k > 0 ==> z.prev[b] == s[k - 1]);
    assert k + 1 < |s| ==> s[k + 1] in s;
    assert k > 0 ==> s[k - 1] in s;
  }

  lemma UnlinkHead(z: Zone, s: seq<nat>, b: nat, l: nat, k: nat)
    requires Shape(z) && l < LEVELS && k < |s| && b == s[k] && Chain(z.prev, z.next, z.heads[l], z.n, s)
    requires HeadClean(z.prev, z.n, s)
    ensures HeadClean(Unlink(z, b, l).prev, z.n, Without(s, k))
  {
    WithoutAt(s, k);
    assert z.next[b] == At(s, k + 1, z.n);
  }

  lemma UnlinkLists(z: Zone, lists: seq<seq<nat>>, c: seq<Cell>, c': seq<Cell>, b: nat, l: nat, k: nat)
    requires Shape(z) && ListsAgree(z, lists, c) && |c| == z.n && l < LEVELS && k < |lists[l]| && b == lists[l][k]
    requires k == 0 ==> z.prev[b] == z.n
    requires forall x: nat, m: nat :: IsFree(c', x, m) <==> IsFree(c, x, m) && x != b
    ensures ListsAgree(Unlink(z, b, l), lists[l := Without(lists[l], k)], c')
  {
    var s := lists[l];
    assert forall y :: y in s ==> IsFree(c, y, l);
    assert HeadClean(z.prev, z.n, s) || !z.fix;
    UnlinkChain(z, s, b, l, k);
    UnlinkFrame(z, s, b, l, k);
    if z.fix { UnlinkHead(z, s, b, l, k); }
    forall x: nat, m | 0 <= m < LEVELS && m != l && IsFree(c, x, m)
      ensures x !in s && IsFree(c', x, m)
    {
      assert !IsFree(c, x, l);
    }
    forall x: nat ensures x in Without(s, k) <==> IsFree(c', x, l) {
      WithoutMembers(s, k, x);
      assert x in s <==> IsFree(c, x, l);
    }
    ListsStep(z, Unlink(z, b, l), lists, c, c', l, Without(s, k));
  }
}
