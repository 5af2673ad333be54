// Runs of allocator calls from any zone in order, in any order of requests.

module BuddyRuns {
  import opened Basics
  import opened Powers
  import opened Tiling
  import opened Links
  import opened BuddyZone
  import opened BuddyMerge
  import opened BuddyCalls
  import opened BuddyCarve

  datatype Call = AllocCall(level: nat) | FreeCall(frame: nat)

  predicate Ready(z: Zone) {
    Shape(z) && HeadsInside(z) && LevelsInside(z)
  }

  function Step(z: Zone, call: Call): Zone
    requires Ready(z)
  {
    match call
    case AllocCall(level) => Alloc(z, level).0
    case FreeCall(i) => Free(z, i).0
  }

  // The guard a caller must check before a call; an allocation needs none.
  predicate CallSafe(z: Zone, call: Call)
    requires Ready(z)
  {
    call.FreeCall? ==> FreeSafe(z, call.frame)
  }

  predicate SafeRun(z: Zone, calls: seq<Call>)
    decreases |calls|
  {
    Ready(z) && (calls == [] || (CallSafe(z, calls[0]) && SafeRun(Step(z, calls[0]), calls[1..])))
  }

  function Run(z: Zone, calls: seq<Call>): (r: Zone)
    requires SafeRun(z, calls)
    ensures Ready(r)
    decreases |calls|
  {
    if calls == [] then z else Run(Step(z, calls[0]), calls[1..])
  }

  ghost predicate InOrder(z: Zone) {
    exists free, live :: Outcome(z, free, live)
  }

  lemma StepInOrder(z: Zone, call: Call)
    requires InOrder(z) && Ready(z) && CallSafe(z, call)
    ensures InOrder(Step(z, call)) && Ready(Step(z, call)) && Step(z, call).n == z.n
  {
    var free, live :| Outcome(z, free, live);
    match call {
      case AllocCall(level) =>
        AllocCorrect(z, level, free, live);
        var r := Alloc(z, level).0;
        if Alloc(z, level).1.Some? {
          var i := Alloc(z, level).1.value;
          OutcomeShape(r, free - Span(i, level), live[i := level]);
        }
      case FreeCall(i) =>
        FreeCorrect(z, i, free, live);
        var r := Free(z, i).0;
        if Free(z, i).1 {
          OutcomeShape(r, free + Span(i, live[i]), live - {i});
        }
    }
  }

  lemma {:induction false} RunInOrder(z: Zone, calls: seq<Call>)
    requires InOrder(z) && SafeRun(z, calls)
    ensures InOrder(Run(z, calls)) && Ready(Run(z, calls)) && Run(z, calls).n == z.n
    decreases |calls|
  {
    if calls == [] {
    } else {
      StepInOrder(z, calls[0]);
      RunInOrder(Step(z, calls[0]), calls[1..]);
    }
  }

  // In a zone in order every frame is free or belongs to exactly one block handed out.
  lemma Conservation(z: Zone, free: set<nat>, live: map<nat, nat>)
    requires Outcome(z, free, live)
    ensures forall f: nat :: f < z.n && f !in free ==> exists i :: i in live && InSpan(i, live[i], f)
    ensures forall i, f: nat :: i in live && InSpan(i, live[i], f) ==> f < z.n && f !in free
    ensures forall i, j, f: nat :: i in live && j in live && InSpan(i, live[i], f) && InSpan(j, live[j], f) ==> i == j
  {
    OutcomeShape(z, free, live);
    var c := Cells(z);
    forall f: nat | f < z.n && f !in free ensures exists i :: i in live && InSpan(i, live[i], f) {
      var h := Owner(c, f);
      assert !FrameFree(c, f);
      assert h in live && InSpan(h, live[h], f);
    }
    forall i, f: nat | i in live && InSpan(i, live[i], f) ensures f < z.n && f !in free {
      assert Placed(c, i) && Covers(c, i, f);
    }
    forall i, j, f: nat | i in live && j in live && InSpan(i, live[i], f) && InSpan(j, live[j], f) ensures i == j {
      assert Covers(c, i, f) && Covers(c, j, f);
    }
  }

  // Whatever was allocated and freed in between, once nothing is handed out the free blocks are those the
  // zone started with: there is one coalesced form of a fully free zone.
  lemma Restoration(z: Zone, calls: seq<Call>, free: set<nat>)
    requires Outcome(z, free, map[]) && SafeRun(z, calls)
    requires Live(Cells(Run(z, calls))) == map[]
    ensures Cells(Run(z, calls)) == Cells(z)
  {
    RunInOrder(z, calls);
    var r := Run(z, calls);
    var free', live' :| Outcome(r, free', live');
    OutcomeShape(z, free, map[]);
    OutcomeShape(r, free', live');
    AllFreeContents(Cells(z));
    AllFreeContents(Cells(r));
    CanonicalForm(Cells(r), Cells(z));
  }

  // ---- with the two missing stores ----

  // Nothing in the memory after the table looks like a free head.
  ghost predicate PastQuiet(z: Zone) {
    forall f :: z.n <= f < |z.flags| ==> z.flags[f] != HEAD
  }

  lemma {:induction false} MergeUpQuiet(z: Zone, p: nat, l: nat)
    requires Shape(z) && p < z.n && l <= TOP && PastQuiet(z)
    ensures PastQuiet(MergeUp(z, p, l)) && MergeUp(z, p, l).fix == z.fix
    decreases TOP - l
  {
    if Mergeable(z, p, l) {
      assert Buddy(p, l) < z.n by { BuddyBound(p, l); }
      MergeUpQuiet(MergeOnce(z, p, l), Lower(p, Buddy(p, l)), l + 1);
    }
  }

  lemma {:induction false} SplitDownQuiet(z: Zone, i: nat, m: nat, level: nat)
    requires Shape(z) && i < z.n && m <= TOP && PastQuiet(z) && Aligned(i, m) && i + Pow2(m) <= z.n
    ensures PastQuiet(SplitDown(z, i, m, level)) && SplitDown(z, i, m, level).fix == z.fix
    decreases m
  {
    if m <= level {
    } else {
      AlignedSplit(i, m - 1);
      SplitDownQuiet(SplitOnce(z, i, m - 1), i, m - 1, level);
    }
  }

  lemma StepQuiet(z: Zone, call: Call)
    requires InOrder(z) && Ready(z) && PastQuiet(z)
    ensures PastQuiet(Step(z, call)) && Step(z, call).fix == z.fix
  {
    match call {
      case AllocCall(level) =>
        var m := FindLevel(z, level);
        if m < LEVELS {
          var i := z.heads[m];
          HeadPlaced(z, m);
          SplitDownQuiet(Pop(z, m), i, m, level);
        }
      case FreeCall(i) =>
        if i < z.n && HasHead(z.flags[i]) {
          MergeUpQuiet(z, i, z.level[i]);
        }
    }
  }

  lemma HeadPlaced(z: Zone, m: nat)
    requires InOrder(z) && Shape(z) && m < LEVELS && z.heads[m] < z.n
    ensures Aligned(z.heads[m], m) && z.heads[m] + Pow2(m) <= z.n
    ensures z.fix ==> z.prev[z.heads[m]] == z.n
  {
    var free, live :| Outcome(z, free, live);
    var lists: seq<seq<nat>>, c: seq<Cell> :| Held(z, lists, c, z.n) && FreeFrames(c) == free && Live(c) == live;
    assert Chain(z.prev, z.next, z.heads[m], z.n, lists[m]);
    assert lists[m][0] in lists[m] && IsFree(c, lists[m][0], m);
    assert Placed(c, z.heads[m]);
  }

  lemma {:induction false} FixedMergeSafe(z: Zone, p: nat, l: nat)
    requires Shape(z) && p < z.n && l <= TOP && PastQuiet(z)
    requires forall m :: 0 <= m < LEVELS && z.heads[m] < z.n ==> z.prev[z.heads[m]] == z.n
    ensures MergeSafe(z, p, l)
    decreases TOP - l
  {
    if Mergeable(z, p, l) {
      assert Buddy(p, l) < z.n by { BuddyBound(p, l); }
      FixedMergeSafe(z, Lower(p, Buddy(p, l)), l + 1);
    }
  }

  // The only misuse left is freeing a block that is free already.
  predicate NoDoubleFree(z: Zone, calls: seq<Call>)
    decreases |calls|
  {
    Ready(z) && (calls == [] ||
      (&& (calls[0].FreeCall? && calls[0].frame < z.n ==> z.flags[calls[0].frame] != HEAD)
       && (CallSafe(z, calls[0]) ==> NoDoubleFree(Step(z, calls[0]), calls[1..]))))
  }

  // With the two stores in place and quiet memory after the table, every run without a double free is safe.
  lemma {:induction false} FixedRunSafe(z: Zone, calls: seq<Call>)
    requires InOrder(z) && z.fix && PastQuiet(z) && NoDoubleFree(z, calls)
    ensures SafeRun(z, calls)
    decreases |calls|
  {
    if calls == [] {
    } else {
      FixedCallSafe(z, calls[0]);
      StepInOrder(z, calls[0]);
      StepQuiet(z, calls[0]);
      FixedRunSafe(Step(z, calls[0]), calls[1..]);
    }
  }

  lemma FixedCallSafe(z: Zone, call: Call)
    requires InOrder(z) && Ready(z) && z.fix && PastQuiet(z)
    requires call.FreeCall? && call.frame < z.n ==> z.flags[call.frame] != HEAD
    ensures CallSafe(z, call)
  {
    if call.FreeCall? && call.frame < z.n && HasHead(z.flags[call.frame]) {
      HeadRecord(z, call.frame);
      CleanHeads(z);
      FixedMergeSafe(z, call.frame, z.level[call.frame]);
    }
  }

  // When the table is a whole number of largest blocks, no buddy lies behind it and that memory does not matter.
  lemma {:induction false} WholeMergeSafe(z: Zone, p: nat, l: nat)
    requires Shape(z) && p < z.n && l <= TOP && Aligned(p, l) && Aligned(z.n, TOP)
    requires forall m :: 0 <= m < LEVELS && z.heads[m] < z.n ==> z.prev[z.heads[m]] == z.n
    ensures MergeSafe(z, p, l)
    decreases TOP - l
  {
    if Mergeable(z, p, l) {
      BuddyInRange(p, l, z.n);
      AlignedMerge(p, l);
      WholeMergeSafe(z, Lower(p, Buddy(p, l)), l + 1);
    }
  }

  lemma WholeCallSafe(z: Zone, call: Call)
    requires InOrder(z) && Ready(z) && z.fix && Aligned(z.n, TOP)
    requires call.FreeCall? && call.frame < z.n ==> z.flags[call.frame] != HEAD
    ensures CallSafe(z, call)
  {
    if call.FreeCall? && call.frame < z.n && HasHead(z.flags[call.frame]) {
      HeadRecord(z, call.frame);
      CleanHeads(z);
      WholeMergeSafe(z, call.frame, z.level[call.frame]);
    }
  }

  lemma HeadRecord(z: Zone, i: nat)
    requires InOrder(z) && Shape(z) && i < z.n && HasHead(z.flags[i])
    ensures z.flags[i] < 4 && z.level[i] <= TOP && Aligned(i, z.level[i])
  {
    var free, live :| Outcome(z, free, live);
    var lists: seq<seq<nat>>, c: seq<Cell> :| Held(z, lists, c, z.n) && FreeFrames(c) == free && Live(c) == live;
    assert Placed(c, i);
  }

  lemma CleanHeads(z: Zone)
    requires InOrder(z) && Shape(z) && z.fix
    ensures forall m :: 0 <= m < LEVELS && z.heads[m] < z.n ==> z.prev[z.heads[m]] == z.n
  {
  }

  lemma {:induction false} WholeRunSafe(z: Zone, calls: seq<Call>)
    requires InOrder(z) && z.fix && Aligned(z.n, TOP) && NoDoubleFree(z, calls)
    ensures SafeRun(z, calls)
    decreases |calls|
  {
    if calls == [] {
    } else {
      WholeCallSafe(z, calls[0]);
      StepInOrder(z, calls[0]);
      StepFix(z, calls[0]);
      WholeRunSafe(Step(z, calls[0]), calls[1..]);
    }
  }

  lemma StepFix(z: Zone, call: Call)
    requires InOrder(z) && Ready(z)
    ensures Step(z, call).fix == z.fix && Step(z, call).n == z.n
  {
    match call {
      case AllocCall(level) =>
        var m := FindLevel(z, level);
        if m < LEVELS {
          HeadPlaced(z, m);
          SplitDownFix(Pop(z, m), z.heads[m], m, level);
        }
      case FreeCall(i) =>
        if i < z.n && HasHead(z.flags[i]) { MergeUpFix(z, i, z.level[i]); }
    }
  }

  lemma {:induction false} SplitDownFix(z: Zone, i: nat, m: nat, level: nat)
    requires Shape(z) && i < z.n && m <= TOP && Aligned(i, m) && i + Pow2(m) <= z.n
    ensures SplitDown(z, i, m, level).fix == z.fix
    decreases m
  {
    if m <= level {
    } else {
      AlignedSplit(i, m - 1);
      SplitDownFix(SplitOnce(z, i, m - 1), i, m - 1, level);
    }
  }

  lemma {:induction false} MergeUpFix(z: Zone, p: nat, l: nat)
    requires Shape(z) && p < z.n && l <= TOP
    ensures MergeUp(z, p, l).fix == z.fix
    decreases TOP - l
  {
    if Mergeable(z, p, l) {
      MergeUpFix(MergeOnce(z, p, l), Lower(p, Buddy(p, l)), l + 1);
    }
  }

  // ---- without them: a run that ends in a corrupting call ----

  lemma InOrderReady(z: Zone)
    requires InOrder(z)
    ensures Ready(z)
  {
    var free, live :| Outcome(z, free, live);
    OutcomeShape(z, free, live);
  }

  // What splitting down to level 0 lists when the lower levels were empty.
  ghost predicate OnePerLevel(z: Zone, i: nat, from: nat, to: nat)
    requires Shape(z) && to <= LEVELS
  {
    forall l :: from <= l < to ==> z.heads[l] == i + Pow2(l) && z.heads[l] < z.n && z.next[z.heads[l]] == z.n
  }

  // The splitting loop at level m, with nothing listed below.
  ghost predicate SplittingDown(z: Zone, i: nat, m: nat, top: nat) {
    && Shape(z) && i < z.n && m <= top <= TOP && Aligned(i, m) && i + Pow2(m) <= z.n && !z.fix
    && (forall l :: 0 <= l < m ==> z.heads[l] == z.n)
    && OnePerLevel(z, i, m, top)
  }

  lemma CarveOneBlock(z: Zone)
    requires Blank(z) && z.n == 1024
    ensures Carve(z) == Place(z, 0, TOP)
  {
    assert Pow2(10) == 1024;
    assert FitLevel(1024, 0, TOP) == TOP;
    CarveUnfold(z, 0, TOP, TOP, 1024);
  }

  lemma FirstAlloc(z: Zone, a: Zone)
    requires Blank(z) && z.n == 1024 && !z.fix && a == Carve(z) && Ready(a)
    ensures var r := Step(a, AllocCall(0));
      && r.n == 1024 && !r.fix && Shape(r)
      && r.flags[0] == 3 && r.level[0] == 0
      && r.heads[0] == 1 && r.heads[1] == 2 && r.next[1] == 1024 && r.next[2] == 1024
  {
    CarvedOne(z, a);
    var p := Pop(a, TOP);
    assert Step(a, AllocCall(0)) == Claim(SplitDown(p, 0, TOP, 0), 0, 0);
    FirstSplit(p);
  }

  lemma CarvedOne(z: Zone, a: Zone)
    requires Blank(z) && z.n == 1024 && !z.fix && a == Carve(z) && Ready(a)
    ensures FindLevel(a, 0) == TOP && a.heads[TOP] == 0 && SplittingDown(Pop(a, TOP), 0, TOP, TOP) && a.n == 1024
  {
    assert Pow2(10) == 1024;
    CarveOneBlock(z);
    assert a.heads[TOP] == 0 && forall k :: 0 <= k < TOP ==> a.heads[k] == a.n;
  }

  lemma FirstSplit(p: Zone)
    requires SplittingDown(p, 0, TOP, TOP) && p.n == 1024
    ensures var r := Claim(SplitDown(p, 0, TOP, 0), 0, 0);
      && r.n == 1024 && !r.fix && Shape(r)
      && r.flags[0] == 3 && r.level[0] == 0
      && r.heads[0] == 1 && r.heads[1] == 2 && r.next[1] == 1024 && r.next[2] == 1024
  {
  }

  lemma AllocFromLevel0(z: Zone, i: nat)
    requires Ready(z) && !z.fix && i < z.n && z.heads[0] == i
    ensures Step(z, AllocCall(0)) == Claim(z.(heads := z.heads[0 := z.next[i]]), i, 0)
  {
  }

  lemma AllocFromLevel1(z: Zone, i: nat)
    requires Ready(z) && !z.fix && i < z.n && z.heads[0] == z.n && z.heads[1] == i
    ensures Step(z, AllocCall(0)) == Claim(SplitOnce(z.(heads := z.heads[1 := z.next[i]]), i, 0), i, 0)
  {
  }

  lemma FreeAlone(z: Zone, i: nat)
    requires Ready(z) && i < z.n && z.flags[i] == 3 && z.level[i] == 0
    requires Buddy(i, 0) < z.n && z.flags[Buddy(i, 0)] == 3
    ensures Step(z, FreeCall(i)) == Push(z, i, 0) && CallSafe(z, FreeCall(i))
  {
  }

  lemma {:induction false} RunAppend(z: Zone, first: seq<Call>, rest: seq<Call>)
    requires SafeRun(z, first) && SafeRun(Run(z, first), rest)
    ensures SafeRun(z, first + rest) && Run(z, first + rest) == Run(Run(z, first), rest)
    decreases |first|
  {
    if first == [] {
      assert first + rest == rest;
    } else {
      RunAppend(Step(z, first[0]), first[1..], rest);
      RunUnfold(z, first);
      FirstCall(first, rest);
      RunUnfold(z, first + rest);
    }
  }

  lemma FirstCall(first: seq<Call>, rest: seq<Call>)
    requires first != []
    ensures (first + rest)[0] == first[0] && (first + rest)[1..] == first[1..] + rest
  {
  }

  lemma RunUnfold(z: Zone, calls: seq<Call>)
    requires calls != [] && Ready(z)
    ensures SafeRun(z, calls) <==> CallSafe(z, calls[0]) && SafeRun(Step(z, calls[0]), calls[1..])
    ensures SafeRun(z, calls) ==> Run(z, calls) == Run(Step(z, calls[0]), calls[1..])
  {
  }

  lemma RunOne(z: Zone, call: Call)
    requires InOrder(z) && Ready(z) && CallSafe(z, call)
    ensures SafeRun(z, [call]) && Run(z, [call]) == Step(z, call)
    ensures InOrder(Step(z, call)) && Ready(Step(z, call)) && Step(z, call).n == z.n
  {
    StepInOrder(z, call);
    assert [call][1..] == [];
  }

  ghost predicate FourTaken(e: Zone) {
    && InOrder(e) && Ready(e) && e.n == 1024 && !e.fix && e.heads[0] == 1024
    && (forall f :: 0 <= f < 4 ==> e.flags[f] == 3 && e.level[f] == 0)
  }

  lemma TakeFour(z: Zone, a: Zone) returns (calls: seq<Call>)
    requires Blank(z) && z.n == 1024 && !z.fix && a == Carve(z) && InOrder(a) && Ready(a)
    ensures SafeRun(a, calls) && FourTaken(Run(a, calls))
  {
    FirstAlloc(z, a);
    RunOne(a, AllocCall(0));
    var b := Step(a, AllocCall(0));
    AllocFromLevel0(b, 1);
    RunOne(b, AllocCall(0));
    var c := Step(b, AllocCall(0));
    assert c.heads[0] == 1024 && c.heads[1] == 2 && c.next[2] == 1024 && c.flags[0] == c.flags[1] == 3 &&
      c.level[0] == c.level[1] == 0;
    calls := [AllocCall(0)] + [AllocCall(0)];
    RunAppend(a, [AllocCall(0)], [AllocCall(0)]);
    var more := TakeTwo(c);
    RunAppend(a, calls, more);
    calls := calls + more;
  }

  lemma TakeTwo(c: Zone) returns (calls: seq<Call>)
    requires InOrder(c) && Ready(c) && c.n == 1024 && !c.fix
    requires c.heads[0] == 1024 && c.heads[1] == 2 && c.flags[0] == c.flags[1] == 3 && c.level[0] == c.level[1] == 0
    ensures SafeRun(c, calls) && FourTaken(Run(c, calls))
  {
    assert Buddy(2, 0) == 3;
    AllocFromLevel1(c, 2);
    RunOne(c, AllocCall(0));
    var d := Step(c, AllocCall(0));
    assert d.heads[0] == 3 && d.next[3] == 1024;
    AllocFromLevel0(d, 3);
    RunOne(d, AllocCall(0));
    calls := [AllocCall(0)] + [AllocCall(0)];
    RunAppend(c, [AllocCall(0)], [AllocCall(0)]);
  }

  // Frames 0 to 3 are handed out one by one; then 0 and 2 are freed and 2 is handed out again. The pop has
  // left frame 0 first in its list with a back link to frame 2, and freeing frame 1 now corrupts the lists.
  lemma StaleHeadWitness(z: Zone) returns (calls: seq<Call>)
    requires Blank(z) && z.n == 1024 && !z.fix
    ensures SafeRun(Carve(z), calls)
    ensures var r := Run(Carve(z), calls);
      1 in Live(Cells(r)) && !FreeSafe(r, 1) && !Sane(Free(r, 1).0)
  {
    var a := Carve(z);
    CarveOutcome(z);
    InOrderReady(a);
    calls := TakeFour(z, a);
    var e := Run(a, calls);
    StaleHeadEnd(e);
    RunAppend(a, calls, LAST_THREE);
    calls := calls + LAST_THREE;
    RunInOrder(a, calls);
    var r := Run(a, calls);
    var free, live :| Outcome(r, free, live);
    FreeCorrect(r, 1, free, live);
  }

  const LAST_THREE := [FreeCall(0), FreeCall(2), AllocCall(0)]

  lemma StaleHeadEnd(e: Zone)
    requires FourTaken(e)
    ensures SafeRun(e, LAST_THREE)
    ensures var r := Run(e, LAST_THREE); 1 in Live(Cells(r)) && !FreeSafe(r, 1)
  {
    assert Buddy(0, 0) == 1 && Buddy(2, 0) == 3 && Buddy(1, 0) == 0;
    FreeAlone(e, 0);
    RunOne(e, FreeCall(0));
    var f := Step(e, FreeCall(0));
    FreeAlone(f, 2);
    RunOne(f, FreeCall(2));
    var g := Step(f, FreeCall(2));
    assert g.heads[0] == 2 && g.next[2] == 0 && g.prev[0] == 2;
    AllocFromLevel0(g, 2);
    RunOne(g, AllocCall(0));
    var h := Step(g, AllocCall(0));
    assert h.heads[0] == 0 && h.prev[0] == 2 && h.flags[0] == HEAD && h.level[0] == 0;
    assert Mergeable(h, 1, 0);
    assert CellOf(h, 1) == Block(0, false);
    RunAppend(f, [FreeCall(2)], [AllocCall(0)]);
    RunAppend(e, [FreeCall(0)], [FreeCall(2)] + [AllocCall(0)]);
    assert [FreeCall(0)] + ([FreeCall(2)] + [AllocCall(0)]) == LAST_THREE;
  }
}
