// Freeing in the buddy allocator: the merge loop and when it leaves the zone in order, stated exactly.

module BuddyMerge {
  import opened Powers
  import opened Tiling
  import opened Links
  import opened BuddyZone

  // ---- when a free call keeps the lists in order ----

  // Read off the state before the call: along the chain of buddies the merge loop will take, each one lies
  // in the table, and one that is the first of its list has a back link saying so.
  predicate MergeSafe(z: Zone, p: nat, l: nat)
    requires Shape(z) && p < z.n && l <= TOP
    decreases TOP - l
  {
    Mergeable(z, p, l) ==>
      var b := Buddy(p, l);
      && b < z.n
      && (z.heads[l] == b ==> z.prev[b] == z.n)
      && MergeSafe(z, Lower(p, b), l + 1)
  }

  // What the merge loop has not touched yet when it holds block p of level l.
  ghost predicate Untouched(z0: Zone, z: Zone, p: nat, l: nat)
    requires Shape(z0) && Shape(z)
  {
    && z.n == z0.n && |z.flags| == |z0.flags| && z.fix == z0.fix
    && (forall m :: l <= m < LEVELS ==> z.heads[m] == z0.heads[m])
    && (forall f :: 0 <= f < |z.flags| && !InSpan(p, l, f) ==> z.flags[f] == z0.flags[f] && z.level[f] == z0.level[f])
    && (forall f :: 0 <= f < |z.flags| && !InSpan(p, l, f) && z0.flags[f] == HEAD && z0.level[f] >= l ==>
          z.prev[f] == z0.prev[f])
  }

  lemma MergeableSame(z0: Zone, z: Zone, p: nat, l: nat)
    requires Shape(z0) && Shape(z) && p < z.n && l <= TOP && Untouched(z0, z, p, l) && Aligned(p, l)
    ensures Mergeable(z, p, l) == Mergeable(z0, p, l)
    ensures l < TOP ==> Buddy(p, l) < |z.flags|
    ensures Mergeable(z, p, l) ==> z.prev[Buddy(p, l)] == z0.prev[Buddy(p, l)]
  {
    if l < TOP {
      BuddyBound(p, l);
      AlignedMerge(p, l);
      assert !InSpan(p, l, Buddy(p, l));
    }
  }

  // In the table, the merge test finds exactly a free block of the level.
  lemma MergeableIsFree(z: Zone, c: seq<Cell>, p: nat, l: nat)
    requires Shape(z) && RecordsAgree(z, c, p) && p < z.n && l < TOP && Buddy(p, l) < z.n
    ensures Mergeable(z, p, l) <==> IsFree(c, Buddy(p, l), l)
  {
    BuddyDiffers(p, l);
    var b := Buddy(p, l);
    assert CellOf(z, b) == c[b] && z.flags[b] < 4;
  }

  lemma JoinRecords(z: Zone, c: seq<Cell>, p: nat, l: nat, b: nat, i: nat)
    requires Shape(z) && RecordsAgree(z, c, p) && p < z.n && l < TOP && b == Buddy(p, l) && b < z.n
    requires i == Lower(p, b) && i + Pow2(l) == Upper(p, b) && c[i].Block?
    ensures RecordsAgree(MergeOnce(z, p, l), Merge(c, i, l), i)
  {
  }

  lemma MergeKeeps(z: Zone, lists: seq<seq<nat>>, c: seq<Cell>, p: nat, l: nat, b: nat, i: nat) returns (k: nat)
    requires Held(z, lists, c, p) && p < z.n && l < TOP && c[p] == Block(l, false)
    requires Mergeable(z, p, l) && b == Buddy(p, l) && b < z.n && i == Lower(p, b)
    requires z.heads[l] == b ==> z.prev[b] == z.n
    ensures IsFree(c, b, l)
    ensures i + Pow2(l) == Upper(p, b) < |c| && c[i].Block? && Aligned(i, l + 1)
    ensures k < |lists[l]| && lists[l][k] == b
    ensures Held(MergeOnce(z, p, l), lists[l := Without(lists[l], k)], Merge(c, i, l), i)
  {
    MergeableIsFree(z, c, p, l);
    assert b in lists[l];
    k :| 0 <= k < |lists[l]| && lists[l][k] == b;
    MergeCells(c, p, l, b, i);
    var d := Merge(c, i, l);
    assert Chain(z.prev, z.next, z.heads[l], z.n, lists[l]);
    UnlinkLists(z, lists, c, d, b, l, k);
    JoinRecords(z, c, p, l, b, i);
  }

  // ---- a test of the free lists that needs no ghost state ----

  // Every list is empty or starts at a free block of its level inside the table, and no free block of the
  // level links back to that first one.
  ghost predicate SaneLevel(z: Zone, l: nat)
    requires Shape(z) && l < LEVELS
  {
    var h := z.heads[l];
    h == z.n ||
    (&& h < z.n && CellOf(z, h) == Block(l, true) && h + Pow2(l) <= z.n
     && forall q :: 0 <= q < z.n && CellOf(z, q) == Block(l, true) ==> z.next[q] != h)
  }

  ghost predicate Sane(z: Zone)
    requires Shape(z)
  {
    forall l :: 0 <= l < LEVELS ==> SaneLevel(z, l)
  }

  lemma HeldIsSane(z: Zone, lists: seq<seq<nat>>, c: seq<Cell>)
    requires Held(z, lists, c, z.n)
    ensures Sane(z)
  {
    forall l | 0 <= l < LEVELS ensures SaneLevel(z, l) {
      var s, h := lists[l], z.heads[l];
      assert Chain(z.prev, z.next, h, z.n, s);
      if s != [] {
        assert h == s[0] && h in s && IsFree(c, h, l);
        assert Placed(c, h);
        forall q | 0 <= q < z.n && CellOf(z, q) == Block(l, true) ensures z.next[q] != h {
          assert IsFree(c, q, l);
          var k :| 0 <= k < |s| && s[k] == q;
          assert z.next[s[k]] == At(s, k + 1, z.n);
        }
      }
    }
  }

  lemma MergeUpStep(z: Zone, p: nat, l: nat)
    requires Shape(z) && p < z.n && l <= TOP
    ensures Mergeable(z, p, l) ==> MergeUp(z, p, l) == MergeUp(MergeOnce(z, p, l), Lower(p, Buddy(p, l)), l + 1)
    ensures !Mergeable(z, p, l) ==> MergeUp(z, p, l) == Push(z, p, l)
  {
  }

  // A list head that the merge loop absorbed without unlinking it stays behind as the head of its list.
  lemma {:induction false} StaleHeadStays(z: Zone, p: nat, l: nat, m: nat, h: nat, r: Zone)
    requires Shape(z) && p < z.n && l <= TOP && m < l && h < z.n && z.heads[m] == h
    requires h != p ==> z.flags[h] == ALLOCATED
    requires r == MergeUp(z, p, l)
    ensures !Sane(r)
    decreases TOP - l
  {
    MergeUpStep(z, p, l);
    if Mergeable(z, p, l) {
      StaleHeadKept(z, p, l, m, h);
      StaleHeadStays(MergeOnce(z, p, l), Lower(p, Buddy(p, l)), l + 1, m, h, r);
    } else {
      StaleHeadPushed(z, p, l, m, h);
    }
  }

  lemma StaleHeadPushed(z: Zone, p: nat, l: nat, m: nat, h: nat)
    requires Shape(z) && p < z.n && l <= TOP && m < l && h < z.n && z.heads[m] == h
    requires h != p ==> z.flags[h] == ALLOCATED
    ensures !Sane(Push(z, p, l))
  {
    assert !SaneLevel(Push(z, p, l), m);
  }

  lemma StaleHeadKept(z: Zone, p: nat, l: nat, m: nat, h: nat)
    requires Shape(z) && p < z.n && l <= TOP && m < l && h < z.n && z.heads[m] == h && Mergeable(z, p, l)
    requires h != p ==> z.flags[h] == ALLOCATED
    ensures var y, q := MergeOnce(z, p, l), Lower(p, Buddy(p, l));
      q < z.n && y.n == z.n && y.heads[m] == h && (h != q ==> y.flags[h] == ALLOCATED)
  {
  }

  // A block that has outgrown the table is pushed as it is.
  lemma {:induction false} OutgrownStays(z: Zone, p: nat, l: nat)
    requires Shape(z) && p < z.n && l <= TOP && Aligned(p, l) && p + Pow2(l) > z.n
    ensures !Sane(MergeUp(z, p, l))
    decreases TOP - l
  {
    if Mergeable(z, p, l) {
      AlignedMerge(p, l);
      OutgrownStays(MergeOnce(z, p, l), Lower(p, Buddy(p, l)), l + 1);
    } else {
      assert !SaneLevel(Push(z, p, l), l);
    }
  }

  // Pushing a block that is already listed ties its list into a loop.
  lemma PushTwice(z: Zone, s: seq<nat>, i: nat, l: nat, k: nat)
    requires Shape(z) && l < LEVELS && k < |s| && s[k] == i
    requires Chain(z.prev, z.next, z.heads[l], z.n, s)
    requires forall x :: x in s ==> x < z.n && CellOf(z, x) == Block(l, true)
    ensures !Sane(Push(z, i, l))
  {
    var q := if k == 0 then i else s[k - 1];
    assert q in s;
    assert k > 0 ==> z.next[s[k - 1]] == At(s, k, z.n);
    PushCell(z, i, l, q);
    assert !SaneLevel(Push(z, i, l), l);
  }

  lemma PushCell(z: Zone, i: nat, l: nat, q: nat)
    requires Shape(z) && i < z.n && l < LEVELS && q < z.n && CellOf(z, q) == Block(l, true)
    ensures CellOf(Push(z, i, l), q) == Block(l, true)
    ensures Push(z, i, l).next[q] == if q == i then z.heads[l] else z.next[q]
  {
  }

  lemma PushListed(z: Zone, lists: seq<seq<nat>>, c: seq<Cell>, i: nat, l: nat)
    requires Held(z, lists, c, z.n) && IsFree(c, i, l) && l <= TOP
    ensures !Sane(Push(z, i, l))
  {
    assert i in lists[l];
    var k :| 0 <= k < |lists[l]| && lists[l][k] == i;
    forall x | x in lists[l] ensures x < z.n && CellOf(z, x) == Block(l, true) {
      assert IsFree(c, x, l);
    }
    PushTwice(z, lists[l], i, l, k);
  }

  // If the merge test holds of a block that is already free, its buddy lies past the table.
  lemma BuddyListed(z: Zone, c: seq<Cell>, i: nat, l: nat)
    requires Shape(z) && RecordsAgree(z, c, z.n) && Coalesced(c) && IsFree(c, i, l)
    requires l < TOP && Mergeable(z, i, l)
    ensures Buddy(i, l) >= z.n
  {
    assert !IsFree(c, Buddy(i, l), l);
  }

  // The merge takes a block past the table, or a list head whose back link is stale.
  lemma FreeDerails(z: Zone, p: nat, l: nat, b: nat)
    requires Shape(z) && p < z.n && l < TOP && Aligned(p, l) && Mergeable(z, p, l) && b == Buddy(p, l)
    requires b >= z.n || (z.heads[l] == b && z.prev[b] != z.n)
    ensures !Sane(MergeUp(MergeOnce(z, p, l), Lower(p, b), l + 1))
  {
    if b >= z.n {
      AlignedMerge(p, l);
      OutgrownStays(MergeOnce(z, p, l), Lower(p, b), l + 1);
    } else {
      StaleHeadStays(MergeOnce(z, p, l), Lower(p, b), l + 1, l, b, MergeUp(MergeOnce(z, p, l), Lower(p, b), l + 1));
    }
  }

  lemma FreeTwice(z: Zone, lists: seq<seq<nat>>, c: seq<Cell>, i: nat, l: nat)
    requires Held(z, lists, c, z.n) && IsFree(c, i, l) && l <= TOP
    ensures !Sane(MergeUp(z, i, l))
  {
    assert Placed(c, i);
    MergeUpStep(z, i, l);
    if Mergeable(z, i, l) {
      BuddyListed(z, c, i, l);
      FreeDerails(z, i, l, Buddy(i, l));
    } else {
      PushListed(z, lists, c, i, l);
    }
  }

  // ---- one call of the free routine ----

  // One turn of the merge loop leaves the links of higher free blocks alone.
  ghost predicate UntouchedAbove(z: Zone, p: nat, l: nat)
    requires Shape(z) && p < z.n && l < TOP
  {
    && (forall f :: 0 <= f < |z.flags| && f != p && z.flags[f] == HEAD && z.level[f] >= l + 1 ==>
        MergeOnce(z, p, l).prev[f] == z.prev[f])
    && (forall m :: l + 1 <= m < LEVELS ==> MergeOnce(z, p, l).heads[m] == z.heads[m])
  }

  lemma UntouchedLinks(z: Zone, lists: seq<seq<nat>>, c: seq<Cell>, p: nat, l: nat, b: nat)
    requires Held(z, lists, c, p) && p < z.n && l < TOP && IsFree(c, b, l) && b == Buddy(p, l)
    requires z.heads[l] == b ==> z.prev[b] == z.n
    ensures UntouchedAbove(z, p, l)
  {
    var s := lists[l];
    assert Chain(z.prev, z.next, z.heads[l], z.n, s);
    assert b in s;
    var k :| 0 <= k < |s| && s[k] == b;
    UnlinkFrame(z, s, b, l, k);
    forall f | 0 <= f < |z.flags| && f != p && z.flags[f] == HEAD && z.level[f] >= l + 1 ensures f !in s {
      assert f < z.n ==> CellOf(z, f) == c[f];
      assert f in s <==> IsFree(c, f, l);
    }
  }

  lemma UntouchedFlags(z0: Zone, z: Zone, p: nat, l: nat, b: nat, i: nat)
    requires Shape(z0) && Shape(z) && p < z.n && l < TOP && b == Buddy(p, l) && i == Lower(p, b) &&
      i + Pow2(l) == Upper(p, b)
    requires Untouched(z0, z, p, l)
    ensures forall f :: 0 <= f < |z.flags| && !InSpan(i, l + 1, f) ==>
      MergeOnce(z, p, l).flags[f] == z0.flags[f] && MergeOnce(z, p, l).level[f] == z0.level[f]
  {
    SpanGrows(p, b, i, l);
    BuddyBound(p, l);
    forall f | 0 <= f < |z.flags| && !InSpan(i, l + 1, f)
      ensures MergeOnce(z, p, l).flags[f] == z0.flags[f] && MergeOnce(z, p, l).level[f] == z0.level[f]
    {
      assert !InSpan(p, l, f) && f != p && f != b;
      MergeOutside(z, p, l, f);
    }
  }

  lemma MergeOutside(z: Zone, p: nat, l: nat, f: nat)
    requires Shape(z) && p < z.n && l < TOP && f < |z.flags| && f != p && f != Buddy(p, l) && Buddy(p, l) < |z.flags|
    ensures MergeOnce(z, p, l).flags[f] == z.flags[f] && MergeOnce(z, p, l).level[f] == z.level[f]
  {
  }

  lemma UntouchedStep(z0: Zone, z: Zone, p: nat, l: nat, b: nat, i: nat)
    requires Shape(z0) && Shape(z) && p < z.n && l < TOP && b == Buddy(p, l) && i == Lower(p, b) &&
      i + Pow2(l) == Upper(p, b)
    requires Untouched(z0, z, p, l)
    requires UntouchedAbove(z, p, l)
    ensures Untouched(z0, MergeOnce(z, p, l), i, l + 1)
  {
    SpanGrows(p, b, i, l);
    UntouchedFlags(z0, z, p, l, b, i);
  }

  // A zone in order, by its observable contents: the frames that are free and the blocks handed out.
  ghost predicate Outcome(z: Zone, free: set<nat>, live: map<nat, nat>) {
    exists lists, c :: Held(z, lists, c, z.n) && FreeFrames(c) == free && Live(c) == live
  }

  // On the way there: block p of level l is in hand, neither listed nor handed out.
  ghost predicate InHand(z: Zone, p: nat, l: nat, free: set<nat>, live: map<nat, nat>) {
    exists lists, c :: Held(z, lists, c, p) && HandedOut(c, p, l) && FreeFrames(c) + Span(p, l) == free &&
      Live(c) - {p} == live
  }

  lemma FreeEnds(z: Zone, p: nat, l: nat, free: set<nat>, live: map<nat, nat>)
    requires Shape(z) && p < z.n && l <= TOP && InHand(z, p, l, free, live) && !Mergeable(z, p, l)
    ensures Outcome(Push(z, p, l), free, live)
  {
    var lists, c :| Held(z, lists, c, p) && HandedOut(c, p, l) && FreeFrames(c) + Span(p, l) == free &&
      Live(c) - {p} == live;
    if l < TOP && Buddy(p, l) < z.n { MergeableIsFree(z, c, p, l); }
    PushKeeps(z, lists, c, p, l);
    MarkFreeFrames(c, p);
  }

  lemma FreeStep(z: Zone, p: nat, l: nat, b: nat, i: nat, free: set<nat>, live: map<nat, nat>)
    requires Shape(z) && p < z.n && l < TOP && InHand(z, p, l, free, live) && Mergeable(z, p, l)
    requires b == Buddy(p, l) && i == Lower(p, b) && b < z.n && (z.heads[l] == b ==> z.prev[b] == z.n)
    ensures InHand(MergeOnce(z, p, l), i, l + 1, free, live)
  {
    var lists, c :| Held(z, lists, c, p) && HandedOut(c, p, l) && FreeFrames(c) + Span(p, l) == free &&
      Live(c) - {p} == live;
    var k := MergeKeeps(z, lists, c, p, l, b, i);
    AbsorbFrames(c, p, l, b, i);
  }

  lemma FreeStepLinks(z: Zone, p: nat, l: nat, b: nat, i: nat, free: set<nat>, live: map<nat, nat>)
    requires Shape(z) && p < z.n && l < TOP && InHand(z, p, l, free, live) && Mergeable(z, p, l)
    requires b == Buddy(p, l) && i == Lower(p, b) && b < z.n && (z.heads[l] == b ==> z.prev[b] == z.n)
    ensures i + Pow2(l) == Upper(p, b) && UntouchedAbove(z, p, l)
  {
    var lists, c :| Held(z, lists, c, p) && HandedOut(c, p, l) && FreeFrames(c) + Span(p, l) == free &&
      Live(c) - {p} == live;
    MergeableIsFree(z, c, p, l);
    MergeCells(c, p, l, b, i);
    UntouchedLinks(z, lists, c, p, l, b);
  }

  lemma InHandAligned(z: Zone, p: nat, l: nat, free: set<nat>, live: map<nat, nat>)
    requires InHand(z, p, l, free, live)
    ensures Aligned(p, l)
  {
    var lists, c :| Held(z, lists, c, p) && HandedOut(c, p, l) && FreeFrames(c) + Span(p, l) == free &&
      Live(c) - {p} == live;
    assert Placed(c, p);
  }

  lemma MergeSafeStep(z: Zone, p: nat, l: nat)
    requires Shape(z) && p < z.n && l <= TOP
    ensures !Mergeable(z, p, l) ==> MergeSafe(z, p, l)
    ensures Mergeable(z, p, l) ==> Buddy(p, l) < |z.prev| && (MergeSafe(z, p, l) <==>
      && Buddy(p, l) < z.n
      && (z.heads[l] == Buddy(p, l) ==> z.prev[Buddy(p, l)] == z.n)
      && MergeSafe(z, Lower(p, Buddy(p, l)), l + 1))
  {
    if l < TOP { BuddyBound(p, l); }
  }

  // One turn of the loop, as it looks from the state before the call.
  lemma FreeTurn(z0: Zone, z: Zone, p: nat, l: nat, free: set<nat>, live: map<nat, nat>)
    requires Shape(z0) && Shape(z) && p < z.n && l <= TOP && InHand(z, p, l, free, live) && Untouched(z0, z, p, l)
    ensures !Mergeable(z, p, l) ==> MergeSafe(z0, p, l) && Outcome(MergeUp(z, p, l), free, live)
    ensures Mergeable(z, p, l) && !GoodTurn(z, p, l) ==> !MergeSafe(z0, p, l) && !Sane(MergeUp(z, p, l))
    ensures GoodTurn(z, p, l) ==>
      && MergeSafe(z0, p, l) == MergeSafe(z0, Lower(p, Buddy(p, l)), l + 1)
      && MergeUp(z, p, l) == MergeUp(MergeOnce(z, p, l), Lower(p, Buddy(p, l)), l + 1)
  {
    InHandAligned(z, p, l, free, live);
    MergeableSame(z0, z, p, l);
    MergeUpStep(z, p, l);
    MergeSafeStep(z0, p, l);
    if !Mergeable(z, p, l) {
      FreeEnds(z, p, l, free, live);
    } else if !GoodTurn(z, p, l) {
      FreeDerails(z, p, l, Buddy(p, l));
    }
  }

  predicate GoodTurn(z: Zone, p: nat, l: nat)
    requires Shape(z) && p < z.n
  {
    Mergeable(z, p, l) && Buddy(p, l) < z.n && (z.heads[l] == Buddy(p, l) ==> z.prev[Buddy(p, l)] == z.n)
  }

  lemma GoodTurnKeeps(z0: Zone, z: Zone, p: nat, l: nat, i: nat, free: set<nat>, live: map<nat, nat>)
    requires Shape(z0) && Shape(z) && p < z.n && l <= TOP && InHand(z, p, l, free, live) && Untouched(z0, z, p, l)
    requires GoodTurn(z, p, l) && i == Lower(p, Buddy(p, l))
    ensures InHand(MergeOnce(z, p, l), i, l + 1, free, live)
    ensures Untouched(z0, MergeOnce(z, p, l), i, l + 1)
  {
    var b := Buddy(p, l);
    FreeStep(z, p, l, b, i, free, live);
    FreeStepLinks(z, p, l, b, i, free, live);
    UntouchedStep(z0, z, p, l, b, i);
  }

  // What a turn hands to the next: `safe` and `r` are the verdict and the result the call is heading for.
  ghost predicate Turning(z0: Zone, z: Zone, p: nat, l: nat, free: set<nat>, live: map<nat, nat>, safe: bool, r: Zone)
    requires Shape(z0)
  {
    && Shape(z) && p < z.n && l <= TOP && p < z0.n
    && InHand(z, p, l, free, live) && Untouched(z0, z, p, l)
    && safe == MergeSafe(z0, p, l) && r == MergeUp(z, p, l)
  }

  ghost predicate SomeTurn(z0: Zone, l: nat, free: set<nat>, live: map<nat, nat>, safe: bool, r: Zone)
    requires Shape(z0)
  {
    exists z, p :: Turning(z0, z, p, l, free, live, safe, r)
  }

  ghost predicate Arrives(free: set<nat>, live: map<nat, nat>, safe: bool, r: Zone) {
    Shape(r) && if safe then Outcome(r, free, live) else !Sane(r)
  }

  lemma TurnOrArrive(z0: Zone, z: Zone, p: nat, l: nat, free: set<nat>, live: map<nat, nat>, safe: bool, r: Zone)
    requires Shape(z0) && Turning(z0, z, p, l, free, live, safe, r)
    ensures Arrives(free, live, safe, r) ||
      (l < TOP && SomeTurn(z0, l + 1, free, live, safe, r))
  {
    FreeTurn(z0, z, p, l, free, live);
    if GoodTurn(z, p, l) {
      var i := Lower(p, Buddy(p, l));
      GoodTurnKeeps(z0, z, p, l, i, free, live);
      assert Turning(z0, MergeOnce(z, p, l), i, l + 1, free, live, safe, r);
    }
  }

  // The free routine ends with the zone in order exactly when the chain of buddies was safe.
  lemma {:induction false} FreeUp(z0: Zone, l: nat, free: set<nat>, live: map<nat, nat>, safe: bool, r: Zone)
    requires Shape(z0) && SomeTurn(z0, l, free, live, safe, r)
    ensures Arrives(free, live, safe, r)
    decreases TOP - l
  {
    var z, p :| Turning(z0, z, p, l, free, live, safe, r);
    TurnOrArrive(z0, z, p, l, free, live, safe, r);
    if !Arrives(free, live, safe, r) {
      FreeUp(z0, l + 1, free, live, safe, r);
    }
  }
}
