// The records behind the frame table: memory that is not the allocator's. What it holds does not matter to a zone
// in order, and what the allocator stores there.

module BuddyTail {
  import opened Basics
  import opened Powers
  import opened Tiling
  import opened Links
  import opened BuddyZone
  import opened BuddyMerge
  import opened BuddyCalls
  import BuddyRuns

  // Other contents for the records from n on.
  datatype Tail = Tail(flags: seq<nat>, level: seq<nat>, prev: seq<nat>, next: seq<nat>)

  predicate Fits(z: Zone, t: Tail) {
    Shape(z) && |t.flags| == |t.level| == |t.prev| == |t.next| == |z.flags| - z.n
  }

  function Disturbed(z: Zone, t: Tail): (r: Zone)
    ensures r.n == z.n && r.fix == z.fix && r.heads == z.heads && (Shape(z) ==> Shape(r))
  {
    if Fits(z, t) then
      z.(flags := z.flags[..z.n] + t.flags, level := z.level[..z.n] + t.level,
         prev := z.prev[..z.n] + t.prev, next := z.next[..z.n] + t.next)
    else z
  }

  // ---- what the records behind the table hold does not matter ----

  ghost predicate SameTable(z: Zone, r: Zone) {
    && Shape(z) && Shape(r) && r.n == z.n && r.fix == z.fix && r.heads == z.heads && |r.flags| == |z.flags|
    && forall f :: 0 <= f < z.n ==>
         r.flags[f] == z.flags[f] && r.level[f] == z.level[f] && r.prev[f] == z.prev[f] && r.next[f] == z.next[f]
  }

  lemma DisturbedTable(z: Zone, t: Tail)
    requires Shape(z)
    ensures SameTable(z, Disturbed(z, t))
  {
  }

  lemma TableLists(z: Zone, r: Zone, lists: seq<seq<nat>>, c: seq<Cell>)
    requires SameTable(z, r) && ListsAgree(z, lists, c)
    ensures ListsAgree(r, lists, c)
  {
    forall l | 0 <= l < LEVELS ensures Chain(r.prev, r.next, r.heads[l], r.n, lists[l]) {
      assert Chain(z.prev, z.next, z.heads[l], z.n, lists[l]);
      forall x | x in lists[l] ensures x < z.n {
        var k :| 0 <= k < |lists[l]| && lists[l][k] == x;
      }
      ChainStable(z.prev, z.next, r.prev, r.next, z.heads[l], z.n, lists[l]);
    }
    if z.fix {
      forall l | 0 <= l < LEVELS ensures HeadClean(r.prev, r.n, lists[l]) {
        assert HeadClean(z.prev, z.n, lists[l]) && Chain(z.prev, z.next, z.heads[l], z.n, lists[l]);
      }
    }
  }

  lemma TableRecords(z: Zone, r: Zone, c: seq<Cell>)
    requires SameTable(z, r) && RecordsAgree(z, c, z.n)
    ensures RecordsAgree(r, c, r.n)
  {
  }

  // A zone in order stays so, whatever is written behind its table.
  lemma DisturbedOutcome(z: Zone, t: Tail, free: set<nat>, live: map<nat, nat>)
    requires Outcome(z, free, live)
    ensures Outcome(Disturbed(z, t), free, live)
  {
    var r := Disturbed(z, t);
    OutcomeShape(z, free, live);
    DisturbedTable(z, t);
    var lists: seq<seq<nat>>, c: seq<Cell> :| Held(z, lists, c, z.n) && FreeFrames(c) == free && Live(c) == live;
    TableRecords(z, r, c);
    TableLists(z, r, lists, c);
    assert Held(r, lists, c, r.n);
  }

  // ---- an allocation does not read them ----

  lemma SplitOnceTable(z: Zone, r: Zone, i: nat, l: nat)
    requires SameTable(z, r) && l < TOP && Aligned(i, l + 1) && i + Pow2(l + 1) <= z.n
    ensures SameTable(SplitOnce(z, i, l), SplitOnce(r, i, l))
  {
    AlignedSplit(i, l);
    assert Pow2(l + 1) == 2 * Pow2(l);
  }

  // `y` and `x` are what the splitting loop makes of two zones with the same table.
  lemma {:induction false} SplitDownTable(z: Zone, r: Zone, i: nat, m: nat, level: nat, y: Zone, x: Zone)
    requires SameTable(z, r) && m <= TOP && Aligned(i, m) && i < z.n && i + Pow2(m) <= z.n
    requires y == SplitDown(z, i, m, level) && x == SplitDown(r, i, m, level)
    ensures SameTable(y, x)
    decreases m
  {
    SplitDownStep(z, i, m, level);
    SplitDownStep(r, i, m, level);
    if m <= level {
    } else {
      var l := m - 1;
      AlignedSplit(i, l);
      SplitOnceTable(z, r, i, l);
      SplitDownTable(SplitOnce(z, i, l), SplitOnce(r, i, l), i, l, level, y, x);
    }
  }

  lemma PopTable(z: Zone, r: Zone, m: nat)
    requires SameTable(z, r) && m < LEVELS && z.heads[m] < z.n
    ensures SameTable(Pop(z, m), Pop(r, m))
  {
  }

  lemma FindTable(z: Zone, r: Zone, level: nat)
    requires SameTable(z, r)
    ensures FindLevel(r, level) == FindLevel(z, level)
    decreases LEVELS - level
  {
    if level < LEVELS && z.heads[level] == z.n {
      FindTable(z, r, level + 1);
    }
  }

  lemma TakenTable(z: Zone, r: Zone, level: nat, m: nat, i: nat)
    requires SameTable(z, r) && m < LEVELS && i == z.heads[m] && Aligned(i, m) && i < z.n && i + Pow2(m) <= z.n
    ensures SameTable(Claim(SplitDown(Pop(z, m), i, m, level), i, level),
      Claim(SplitDown(Pop(r, m), i, m, level), i, level))
  {
    PopTable(z, r, m);
    var p, q := Pop(z, m), Pop(r, m);
    SplitDownTable(p, q, i, m, level, SplitDown(p, i, m, level), SplitDown(q, i, m, level));
  }

  // Which block it takes, and what it leaves in the table, is the same whatever lies behind it.
  lemma AllocIgnoresTail(z: Zone, t: Tail, level: nat, free: set<nat>, live: map<nat, nat>)
    requires Outcome(z, free, live) && Shape(z) && HeadsInside(z)
    ensures HeadsInside(Disturbed(z, t)) && Alloc(Disturbed(z, t), level).1 == Alloc(z, level).1
    ensures SameTable(Alloc(z, level).0, Alloc(Disturbed(z, t), level).0)
  {
    var r := Disturbed(z, t);
    DisturbedTable(z, t);
    FindTable(z, r, level);
    var m := FindLevel(z, level);
    if m < LEVELS {
      assert BuddyRuns.InOrder(z);
      BuddyRuns.HeadPlaced(z, m);
      TakenTable(z, r, level, m, z.heads[m]);
    }
  }

  // ---- what the allocator stores there ----

  // Behind the table nothing differs but, perhaps, the back link of record n.
  ghost predicate OnlySentinel(z: Zone, r: Zone) {
    && Shape(z) && Shape(r) && r.n == z.n && |r.flags| == |z.flags|
    && (forall f :: z.n <= f < |z.flags| ==>
          r.flags[f] == z.flags[f] && r.level[f] == z.level[f] && r.next[f] == z.next[f])
    && (forall f :: z.n < f < |z.flags| ==> r.prev[f] == z.prev[f])
  }

  ghost predicate SameTail(z: Zone, r: Zone) {
    OnlySentinel(z, r) && r.prev[z.n] == z.prev[z.n]
  }

  lemma SplitOnceTail(z: Zone, i: nat, l: nat)
    requires Shape(z) && l < TOP && Aligned(i, l + 1) && i + Pow2(l + 1) <= z.n && z.heads[l] == z.n
    ensures OnlySentinel(z, SplitOnce(z, i, l)) && SplitOnce(z, i, l).prev[z.n] == i + Pow2(l)
    ensures forall k :: 0 <= k < LEVELS && k != l ==> SplitOnce(z, i, l).heads[k] == z.heads[k]
  {
    AlignedSplit(i, l);
    assert Pow2(l + 1) == 2 * Pow2(l);
  }

  // Every turn of the splitting loop meets an empty list, so each stores into record n; the last store stays.
  lemma {:induction false} SplitDownTail(z: Zone, i: nat, m: nat, level: nat)
    requires Shape(z) && level < m <= TOP && Aligned(i, m) && i + Pow2(m) <= z.n
    requires forall k :: level <= k < m ==> z.heads[k] == z.n
    ensures OnlySentinel(z, SplitDown(z, i, m, level)) && SplitDown(z, i, m, level).prev[z.n] == i + Pow2(level)
    decreases m
  {
    var l := m - 1;
    var once := SplitOnce(z, i, l);
    SplitOnceTail(z, i, l);
    SplitDownStep(z, i, m, level);
    if l == level {
      SplitDownStep(once, i, l, level);
    } else {
      AlignedSplit(i, l);
      SplitDownTail(once, i, l, level);
    }
  }

  lemma SameTailThen(z: Zone, y: Zone, r: Zone)
    requires SameTail(z, y) && OnlySentinel(y, r)
    ensures OnlySentinel(z, r)
  {
  }

  lemma PopTail(z: Zone, m: nat)
    requires Shape(z) && m < LEVELS && z.heads[m] < z.n
    ensures SameTail(z, Pop(z, m))
  {
  }

  lemma ClaimTail(z: Zone, i: nat, level: nat)
    requires Shape(z) && i < z.n
    ensures SameTail(z, Claim(z, i, level))
  {
  }

  lemma TakenTail(z: Zone, level: nat, m: nat, i: nat)
    requires Shape(z) && level <= m < LEVELS && i == z.heads[m] && Aligned(i, m) && i + Pow2(m) <= z.n && i < z.n
    requires forall k :: level <= k < m ==> z.heads[k] == z.n
    ensures var r := Claim(SplitDown(Pop(z, m), i, m, level), i, level);
      OnlySentinel(z, r) && r.prev[z.n] == if level < m then i + Pow2(level) else z.prev[z.n]
  {
    PopTail(z, m);
    var y := Pop(z, m);
    var x := SplitDown(y, i, m, level);
    SplitDownStep(y, i, m, level);
    if level < m {
      SplitDownTail(y, i, m, level);
    }
    SameTailThen(z, y, x);
    ClaimTail(x, i, level);
  }

  // What an allocation leaves behind the table: the index of the last right half in the back link of record n if
  // it splits, and nothing otherwise.
  ghost predicate LeavesBehind(z: Zone, level: nat, r: Zone, i: nat)
    requires Shape(z) && level < LEVELS
  {
    OnlySentinel(z, r) && r.prev[z.n] == if z.heads[level] == z.n then i + Pow2(level) else z.prev[z.n]
  }

  lemma AllocTailFrom(z: Zone, level: nat)
    requires Shape(z) && HeadsInside(z) && level < LEVELS && Alloc(z, level).1.Some?
    requires var m := FindLevel(z, level); Aligned(z.heads[m], m) && z.heads[m] + Pow2(m) <= z.n && z.heads[m] < z.n
    ensures LeavesBehind(z, level, Alloc(z, level).0, Alloc(z, level).1.value)
  {
    TakenTail(z, level, FindLevel(z, level), z.heads[FindLevel(z, level)]);
  }

  lemma AllocTail(z: Zone, level: nat, free: set<nat>, live: map<nat, nat>)
    requires Outcome(z, free, live) && level < LEVELS && Shape(z) && HeadsInside(z) && Alloc(z, level).1.Some?
    ensures LeavesBehind(z, level, Alloc(z, level).0, Alloc(z, level).1.value)
  {
    var m := FindLevel(z, level);
    assert BuddyRuns.InOrder(z);
    BuddyRuns.HeadPlaced(z, m);
    AllocTailFrom(z, level);
  }

  // ---- freeing stores nothing there ----

  lemma ListedBack(prev: seq<nat>, next: seq<nat>, head: nat, n: nat, s: seq<nat>, b: nat)
    requires Chain(prev, next, head, n, s) && b in s && b < |prev|
    ensures head != b ==> prev[b] < n
  {
    var k :| 0 <= k < |s| && s[k] == b;
    assert k > 0 ==> s[k - 1] < n;
  }

  lemma UnlinkFrom(z: Zone, b: nat, l: nat)
    requires Shape(z) && b < z.n && l < LEVELS && z.prev[b] <= z.n
    ensures SameTail(z, Unlink(z, b, l))
  {
  }

  lemma UnlinkTail(z: Zone, lists: seq<seq<nat>>, c: seq<Cell>, p: nat, l: nat, b: nat)
    requires Held(z, lists, c, p) && p < z.n && l < TOP && GoodTurn(z, p, l) && b == Buddy(p, l)
    ensures SameTail(z, Unlink(z, b, l))
  {
    MergeableIsFree(z, c, p, l);
    ListedBack(z.prev, z.next, z.heads[l], z.n, lists[l], b);
    UnlinkFrom(z, b, l);
  }

  lemma JoinTail(z: Zone, p: nat, b: nat, l: nat)
    requires Shape(z) && p < z.n && b < z.n
    ensures SameTail(z, Join(z, p, b, l))
  {
  }

  lemma SameTailBoth(z: Zone, y: Zone, r: Zone)
    requires SameTail(z, y) && SameTail(y, r)
    ensures SameTail(z, r)
  {
  }

  lemma MergeOnceTail(z: Zone, p: nat, l: nat, free: set<nat>, live: map<nat, nat>)
    requires InHand(z, p, l, free, live) && Shape(z) && p < z.n && l < TOP && GoodTurn(z, p, l)
    ensures SameTail(z, MergeOnce(z, p, l))
  {
    var lists: seq<seq<nat>>, c: seq<Cell> :| Held(z, lists, c, p) && HandedOut(c, p, l) &&
      FreeFrames(c) + Span(p, l) == free && Live(c) - {p} == live;
    var b := Buddy(p, l);
    UnlinkTail(z, lists, c, p, l, b);
    JoinTail(Unlink(z, b, l), p, b, l);
    SameTailBoth(z, Unlink(z, b, l), MergeOnce(z, p, l));
  }

  lemma PushTail(z: Zone, p: nat, l: nat)
    requires Shape(z) && p < z.n && l < LEVELS
    ensures SameTail(z, Push(z, p, l))
  {
  }

  ghost predicate TailKept(z: Zone, l: nat, z0: Zone, free: set<nat>, live: map<nat, nat>, r: Zone)
    requires Shape(z0)
  {
    exists p :: Turning(z0, z, p, l, free, live, true, r)
  }

  lemma TurnTail(z0: Zone, z: Zone, l: nat, free: set<nat>, live: map<nat, nat>, r: Zone) returns (y: Zone)
    requires Shape(z0) && TailKept(z, l, z0, free, live, r)
    ensures SameTail(z, y) && (y == r || (l < TOP && TailKept(y, l + 1, z0, free, live, r)))
  {
    var p :| Turning(z0, z, p, l, free, live, true, r);
    FreeTurn(z0, z, p, l, free, live);
    if GoodTurn(z, p, l) {
      var i := Lower(p, Buddy(p, l));
      MergeOnceTail(z, p, l, free, live);
      GoodTurnKeeps(z0, z, p, l, i, free, live);
      y := MergeOnce(z, p, l);
      assert Turning(z0, y, i, l + 1, free, live, true, r);
    } else {
      PushTail(z, p, l);
      y := Push(z, p, l);
    }
  }

  lemma {:induction false} MergeTail(z0: Zone, start: Zone, z: Zone, l: nat, free: set<nat>, live: map<nat, nat>,
          r: Zone)
    requires Shape(z0) && TailKept(z, l, z0, free, live, r) && SameTail(start, z)
    ensures SameTail(start, r)
    decreases TOP - l
  {
    var y := TurnTail(z0, z, l, free, live, r);
    SameTailBoth(start, z, y);
    if y == r {
    } else {
      MergeTail(z0, start, y, l + 1, free, live, r);
    }
  }

  lemma FreeTailFrom(z: Zone, i: nat, l: nat, lists: seq<seq<nat>>, c: seq<Cell>)
    requires Held(z, lists, c, z.n) && HandedOut(c, i, l) && l <= TOP && i < z.n && MergeSafe(z, i, l)
    ensures SameTail(z, MergeUp(z, i, l))
  {
    assert Held(z, lists, c, i);
    var free, live := FreeFrames(c) + Span(i, l), Live(c) - {i};
    assert InHand(z, i, l, free, live);
    assert Turning(z, z, i, l, free, live, true, MergeUp(z, i, l));
    MergeTail(z, z, z, l, free, live, MergeUp(z, i, l));
  }

  // A safe release stores nothing behind the table.
  lemma FreeTail(z: Zone, i: nat, free: set<nat>, live: map<nat, nat>)
    requires Outcome(z, free, live) && Shape(z) && LevelsInside(z) && FreeSafe(z, i)
    ensures SameTail(z, Free(z, i).0)
  {
    if i < z.n && HasHead(z.flags[i]) {
      var lists: seq<seq<nat>>, c: seq<Cell> :| Held(z, lists, c, z.n) && FreeFrames(c) == free && Live(c) == live;
      assert c[i] == CellOf(z, i);
      FreeTailFrom(z, i, z.level[i], lists, c);
    }
  }
}
