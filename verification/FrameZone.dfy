// The normal memory zone as the source holds it: a frame table and eleven list heads updated in place.
// Each method is proved to perform the corresponding step of BuddyZone; the theorems about those steps are
// in BuddyCalls, BuddyCarve and BuddyRuns.

module FrameZone {
  import opened Basics
  import opened Powers
  import opened Tiling
  import opened BuddyZone
  import opened BuddyMerge
  import opened BuddyCalls
  import opened BuddyCarve
  import opened BuddyRuns
  import opened Rounding
  import Layout

  // Block i of level l has gone from the free frames to the blocks handed out.
  ghost predicate Taken(z: Zone, free: set<nat>, live: map<nat, nat>, i: nat, l: nat) {
    RunAt(free, z.n, l, i) && i !in live && Outcome(z, free - Span(i, l), live[i := l])
  }

  // The address is that of a byte in the first frame of block i, which is handed out.
  predicate OfFirstFrame(live: map<nat, nat>, base: nat, i: nat, address: nat) {
    i in live && Layout.Address(base, i) <= address < Layout.Address(base, i + 1)
  }

  // The block is given back, unless that breaks the lists.
  ghost predicate GivenBack(z: Zone, r: Zone, free: set<nat>, live: map<nat, nat>, i: nat)
    requires Shape(z) && LevelsInside(z)
  {
    i in live && (FreeSafe(z, i) ==> Outcome(r, free + Span(i, live[i]), live - {i}))
  }

  lemma LiveFreed(z: Zone, r: Zone, done: bool, base: nat, address: nat, free: set<nat>, live: map<nat, nat>, i: nat)
    requires Shape(z) && LevelsInside(z) && Outcome(z, free, live) && OfFirstFrame(live, base, i, address)
    requires base < TWO32 && address < TWO32 && (r, done) == Free(z, Layout.FrameAt(base, address))
    ensures done && GivenBack(z, r, free, live, i)
  {
    assert Layout.FrameAt(base, address) == i;
    FreeCorrect(z, i, free, live);
  }

  lemma FreedAt(z: Zone, r: Zone, done: bool, base: nat, address: nat)
    requires InOrder(z) && Ready(z) && base < TWO32 && address < TWO32 && Layout.Address(base, z.n) <= TWO32
    requires (r, done) == Free(z, Layout.FrameAt(base, address))
    ensures address < base ==> !done && r == z
    ensures address >= base ==> (Sane(r) <==> FreeSafe(z, (address - base) / Layout.FRAME_SIZE))
    ensures forall free, live, i :: Outcome(z, free, live) && OfFirstFrame(live, base, i, address) ==>
      done && GivenBack(z, r, free, live, i)
  {
    var free0, live0 :| Outcome(z, free0, live0);
    FreeCorrect(z, Layout.FrameAt(base, address), free0, live0);
    if address < base { Layout.AddressRoundTrip(base, z.n, 0, 0); }
    forall free, live, i: nat | Outcome(z, free, live) && OfFirstFrame(live, base, i, address)
      ensures done && GivenBack(z, r, free, live, i)
    {
      LiveFreed(z, r, done, base, address, free, live, i);
    }
  }

  class NormalMem {
    const framesNumber: nat
    const fix: bool
    const start: nat        // physical address of the table
    const end: nat          // and of the end of the zone
    const base: nat         // physical address of frame 0
    const flags: array<nat>
    const level: array<nat>
    const prev: array<nat>
    const next: array<nat>
    const freeLists: array<nat>

    ghost predicate Separate()
    {
      && flags != level && flags != prev && flags != next && flags != freeLists
      && level != prev && level != next && level != freeLists
      && prev != next && prev != freeLists && next != freeLists
      && 0 < framesNumber && flags.Length == framesNumber + 512
      && flags.Length == level.Length == prev.Length == next.Length && freeLists.Length == LEVELS
    }

    ghost function State(): (z: Zone)
      requires Separate()
      reads flags, level, prev, next, freeLists
      ensures Shape(z) && z.n == framesNumber && z.fix == fix
    {
      Zone(framesNumber, fix, flags[..], level[..], prev[..], next[..], freeLists[..])
    }

    // The table and the frames behind it lie in [start, end).
    ghost predicate Placed() {
      && Layout.Region(start, end)
      && framesNumber == Layout.FrameCount(start, end) && base == Layout.FrameBase(start, framesNumber)
    }

    ghost predicate Valid()
      reads flags, level, prev, next, freeLists
    {
      Separate() && Placed() && InOrder(State())
    }

    // init_normal_mem_zone, from the bounds of the region on. The records past the table are not initialised.
    constructor (start: nat, end: nat, fix: bool)
      requires Layout.Region(start, end)
      ensures Separate() && Placed() && this.start == start && this.end == end && this.fix == fix
      ensures (framesNumber + 1) * (Layout.FRAME_SIZE + Layout.RECORD_SIZE) <= end - start
      ensures end - start < (framesNumber + 2) * (Layout.FRAME_SIZE + Layout.RECORD_SIZE)
      ensures fresh(flags) && fresh(level) && fresh(prev) && fresh(next) && fresh(freeLists)
      ensures Sane(State()) <==> framesNumber >= 1024
      ensures framesNumber >= 1024 ==> Valid() && Outcome(State(), AllFrames(framesNumber), map[])
    {
      Layout.RegionHolds(start, end);
      Layout.RegionUsed(start, end, Layout.FrameCount(start, end), 0);
      var frames := (end - start) / (Layout.FRAME_SIZE + Layout.RECORD_SIZE) - 1;
      this.start := start;
      this.end := end;
      framesNumber := frames;
      base := Layout.AlignUp(start + frames * Layout.RECORD_SIZE);
      this.fix := fix;
      flags := new nat[frames + 512];
      level := new nat[frames + 512];
      prev := new nat[frames + 512];
      next := new nat[frames + 512];
      freeLists := new nat[LEVELS];
      new;
      for i := 0 to LEVELS
        invariant forall l :: 0 <= l < i ==> freeLists[l] == frames
      {
        freeLists[i] := frames;
      }
      for i := 0 to frames
        invariant forall l :: 0 <= l < LEVELS ==> freeLists[l] == frames
        invariant forall f :: 0 <= f < i ==> flags[f] == ALLOCATED && prev[f] == frames
      {
        flags[i] := ALLOCATED;
        level[i] := 0;
        next[i] := frames;
        prev[i] := frames;
      }
      ghost var blank := State();
      assert Blank(blank);
      CarveZone();
      CarveExact(blank);
      if frames >= 1024 {
        CarveOutcome(blank);
      }
    }

    // The carving loop.
    method CarveZone()
      requires Separate()
      modifies flags, level, prev, next, freeLists
      ensures State() == Carve(old(State()))
    {
      var blockPageSize: nat, blockLevel: nat := 1024, TOP;
      var i := 0;
      assert Pow2(TOP) == 1024;
      while i < framesNumber
        invariant blockLevel <= TOP && blockPageSize == Pow2(blockLevel)
        invariant CarveFrom(State(), i, blockLevel) == Carve(old(State()))
        decreases framesNumber - i
      {
        ghost var top := blockLevel;
        blockPageSize, blockLevel := FitBlock(i, blockPageSize, blockLevel);
        CarveUnfold(State(), i, top, blockLevel, i + blockPageSize);
        PlaceInPlace(i, blockLevel);
        i := i + blockPageSize;
      }
    }

    // The inner loop: the block is halved until it fits.
    method FitBlock(i: nat, pageSize: nat, top: nat) returns (blockPageSize: nat, blockLevel: nat)
      requires Separate() && i < framesNumber && pageSize == Pow2(top)
      ensures blockLevel == FitLevel(framesNumber, i, top) && blockLevel <= top && blockPageSize == Pow2(blockLevel)
    {
      blockPageSize, blockLevel := pageSize, top;
      while i > Sub32(framesNumber, blockPageSize)
        invariant blockLevel <= top && blockPageSize == Pow2(blockLevel)
        invariant FitLevel(framesNumber, i, blockLevel) == FitLevel(framesNumber, i, top)
        decreases blockLevel
      {
        assert blockLevel > 0;
        blockPageSize := blockPageSize / 2;
        blockLevel := blockLevel - 1;
      }
    }

    // What the carving loop stores for one block.
    method PlaceInPlace(i: nat, blockLevel: nat)
      requires Separate() && i < framesNumber && blockLevel < LEVELS
      modifies flags, level, prev, next, freeLists
      ensures State() == Place(old(State()), i, blockLevel)
    {
      ghost var z := State();
      flags[i] := HEAD;
      level[i] := blockLevel;
      var tmp := freeLists[blockLevel];
      next[i] := tmp;
      if tmp < prev.Length {
        prev[tmp] := i;
      }
      freeLists[blockLevel] := i;
      assert State() == Place(z, i, blockLevel);
    }

    // buddy_system_get_frame_page_block
    method GetFramePageBlock(wanted: nat) returns (page: Option<nat>)
      requires Separate() && HeadsInside(State())
      modifies flags, level, prev, next, freeLists
      ensures Separate() && (State(), page) == Alloc(old(State()), wanted)
    {
      ghost var z := State();
      var current := wanted;
      while current < LEVELS && freeLists[current] == framesNumber
        invariant FindLevel(z, current) == FindLevel(z, wanted)
        invariant State() == z && wanted <= current
        decreases LEVELS - current
      {
        current := current + 1;
      }
      if current >= LEVELS {
        return None;
      }
      assert current == FindLevel(z, wanted);
      var pageIndex := freeLists[current];
      PopInPlace(current);
      SplitInPlace(pageIndex, current, wanted);
      ClaimInPlace(pageIndex, wanted);
      page := Some(pageIndex);
    }

    // The splitting loop.
    method SplitInPlace(pageIndex: nat, top: nat, wanted: nat)
      requires Separate() && pageIndex < framesNumber && wanted <= top <= TOP
      modifies flags, level, prev, next, freeLists
      ensures State() == SplitDown(old(State()), pageIndex, top, wanted)
    {
      ghost var r := SplitDown(State(), pageIndex, top, wanted);
      var current := top;
      while current > wanted
        invariant wanted <= current <= TOP
        invariant SplitDown(State(), pageIndex, current, wanted) == r
        decreases current
      {
        SplitDownStep(State(), pageIndex, current, wanted);
        current := current - 1;
        SplitTurnInPlace(pageIndex, current);
      }
      SplitDownStep(State(), pageIndex, current, wanted);
    }

    method PopInPlace(current: nat)
      requires Separate() && current < LEVELS && freeLists[current] < framesNumber
      modifies prev, freeLists
      ensures State() == Pop(old(State()), current)
    {
      ghost var z := State();
      var first := next[freeLists[current]];
      freeLists[current] := first;
      if fix && first < framesNumber {
        prev[first] := framesNumber;
      }
      assert State() == Pop(z, current);
    }

    method ClaimInPlace(page: nat, wanted: nat)
      requires Separate() && page < framesNumber
      modifies flags, level, prev, next
      ensures State() == Claim(old(State()), page, wanted)
    {
      ghost var z := State();
      flags[page] := ALLOCATED + HEAD;
      level[page] := wanted;
      prev[page] := framesNumber;
      next[page] := framesNumber;
      assert State() == Claim(z, page, wanted);
    }

    // The body of the splitting loop.
    method SplitTurnInPlace(pageIndex: nat, current: nat)
      requires Separate() && pageIndex < framesNumber && current < TOP
      modifies flags, level, prev, next, freeLists
      ensures State() == SplitOnce(old(State()), pageIndex, current)
    {
      ghost var z := State();
      BuddyBound(pageIndex, current);
      var right := Buddy(pageIndex, current);
      level[right] := current;
      if freeLists[current] < prev.Length {
        prev[freeLists[current]] := right;
      }
      next[right] := freeLists[current];
      flags[right] := HEAD;
      freeLists[current] := right;
      if fix {
        prev[right] := framesNumber;
      }
      assert State() == SplitOnce(z, pageIndex, current);
    }

    // buddy_system_free_frame_page_block
    method FreeFramePageBlock(page: nat) returns (done: bool)
      requires Separate() && LevelsInside(State())
      modifies flags, level, prev, next, freeLists
      ensures Separate() && (State(), done) == Free(old(State()), page)
    {
      ghost var z := State();
      if page >= framesNumber || !HasHead(flags[page]) {
        return false;
      }
      assert z.level[page] <= TOP;
      var pageIndex, current := MergeInPlace(page, level[page]);
      PushInPlace(pageIndex, current);
      done := true;
    }

    method MergeTurn(page: nat, buddy: nat, current: nat) returns (pageIndex: nat)
      requires Separate() && page < framesNumber && current < TOP && buddy == Buddy(page, current) &&
        buddy < flags.Length
      requires Mergeable(State(), page, current)
      modifies flags, level, prev, next, freeLists
      ensures pageIndex < framesNumber &&
        MergeUp(State(), pageIndex, current + 1) == MergeUp(old(State()), page, current)
    {
      MergeUpStep(State(), page, current);
      pageIndex := MergeTurnInPlace(page, buddy, current);
    }

    // The merge loop.
    method MergeInPlace(page: nat, start: nat) returns (pageIndex: nat, current: nat)
      requires Separate() && page < framesNumber && start <= TOP
      modifies flags, level, prev, next, freeLists
      ensures pageIndex < framesNumber && current <= TOP
      ensures Push(State(), pageIndex, current) == MergeUp(old(State()), page, start)
    {
      ghost var r := MergeUp(State(), page, start);
      pageIndex, current := page, start;
      BuddyLe(pageIndex, current);
      var buddyIndex: nat := Buddy(pageIndex, current);
      while current < TOP && current == level[buddyIndex] && flags[buddyIndex] == HEAD
        invariant pageIndex < framesNumber && current <= TOP && buddyIndex == Buddy(pageIndex, current)
        invariant current < TOP ==> buddyIndex < flags.Length
        invariant MergeUp(State(), pageIndex, current) == r
        decreases TOP - current
      {
        pageIndex := MergeTurn(pageIndex, buddyIndex, current);
        current := current + 1;
        BuddyLe(pageIndex, current);
        buddyIndex := Buddy(pageIndex, current);
      }
      MergeUpStep(State(), pageIndex, current);
    }

    lemma BuddyLe(i: nat, l: nat)
      requires Separate() && i < framesNumber
      ensures l < TOP ==> Buddy(i, l) < flags.Length
    {
      if l < TOP { BuddyBound(i, l); }
    }

    // The body of the merge loop, up to the new buddy index.
    method MergeTurnInPlace(page: nat, buddy: nat, current: nat) returns (pageIndex: nat)
      requires Separate() && page < framesNumber && current < TOP && buddy == Buddy(page, current) &&
        buddy < flags.Length
      modifies flags, level, prev, next, freeLists
      ensures State() == MergeOnce(old(State()), page, current) && pageIndex == Lower(page, buddy)
    {
      ghost var z := State();
      UnlinkInPlace(buddy, current);
      var buddyIndex := buddy;
      pageIndex := page;
      if pageIndex > buddyIndex {
        var tmp := buddyIndex;
        buddyIndex := pageIndex;
        pageIndex := tmp;
      }
      flags[buddyIndex] := ALLOCATED;
      level[buddyIndex] := 0;
      level[pageIndex] := current + 1;
      assert State() == Join(Unlink(z, buddy, current), page, buddy, current);
    }

    method UnlinkInPlace(buddy: nat, current: nat)
      requires Separate() && buddy < flags.Length && current < LEVELS
      modifies prev, next, freeLists
      ensures State() == Unlink(old(State()), buddy, current)
    {
      ghost var z := State();
      var before, after := prev[buddy], next[buddy];
      if before == framesNumber {
        freeLists[current] := after;
      } else if before < next.Length {
        next[before] := after;
      }
      if after < framesNumber {
        prev[after] := before;
      }
      assert State() == Unlink(z, buddy, current);
    }

    method PushInPlace(page: nat, current: nat)
      requires Separate() && page < framesNumber && current < LEVELS
      modifies flags, level, prev, next, freeLists
      ensures State() == Push(old(State()), page, current)
    {
      ghost var z := State();
      flags[page] := HEAD;
      level[page] := current;
      var tmp := freeLists[current];
      next[page] := freeLists[current];
      if tmp < framesNumber {
        prev[tmp] := page;
      }
      prev[page] := framesNumber;
      freeLists[current] := page;
      assert State() == Push(z, page, current);
    }

    // frame_alloc, in a zone in order: a block of the least sufficient power of two, exactly when there is
    // an aligned free run of that many frames.
    method FrameAlloc(count: nat) returns (page: Option<nat>, ghost wanted: nat)
      requires Valid() && count <= Pow2(31)
      modifies flags, level, prev, next, freeLists
      ensures Valid() && LeastLevel(count, wanted)
      ensures forall free, live :: Outcome(old(State()), free, live) ==>
        if wanted > TOP || !HasRun(free, framesNumber, wanted) then page == None && State() == old(State())
        else page.Some? && Taken(State(), free, live, page.value, wanted)
    {
      ghost var z := State();
      InOrderReady(z);
      var l := LevelFor(count);
      wanted := l;
      StepInOrder(z, AllocCall(l));
      page := GetFramePageBlock(l);
      forall free, live | Outcome(z, free, live)
        ensures if wanted > TOP || !HasRun(free, framesNumber, wanted) then page == None && State() == z
          else page.Some? && Taken(State(), free, live, page.value, wanted)
      {
        AllocCorrect(z, l, free, live);
      }
    }

    // frame_free, in a zone in order: the guard decides whether the zone stays so.
    method FrameFree(page: nat) returns (done: bool)
      requires Valid()
      modifies flags, level, prev, next, freeLists
      ensures Ready(old(State())) && Separate()
      ensures Sane(State()) <==> FreeSafe(old(State()), page)
      ensures forall free, live :: Outcome(old(State()), free, live) ==>
        (FreeSafe(old(State()), page) ==>
          if page !in live then !done && State() == old(State())
          else done && Outcome(State(), free + Span(page, live[page]), live - {page}))
    {
      ghost var z := State();
      InOrderReady(z);
      done := FreeFramePageBlock(page);
      ghost var free0, live0 :| Outcome(z, free0, live0);
      FreeCorrect(z, page, free0, live0);
      forall free, live | Outcome(z, free, live)
        ensures FreeSafe(z, page) ==>
          if page !in live then !done && State() == z
          else done && Outcome(State(), free + Span(page, live[page]), live - {page})
      {
        FreeCorrect(z, page, free, live);
      }
    }

    // Block i of level l has been taken; the address is that of its first byte. All of it lies behind the
    // table and inside the zone, and physic_free finds the block again from any byte of its first frame.
    ghost predicate Returned(z: Zone, free: set<nat>, live: map<nat, nat>, address: nat, i: nat, l: nat) {
      && Taken(z, free, live, i, l)
      && address == Layout.Address(base, i)
      && Layout.TableEnd(start, framesNumber) <= address && address + Pow2(l) * Layout.FRAME_SIZE <= end
    }

    lemma TakenReturned(z: Zone, free: set<nat>, live: map<nat, nat>, i: nat, l: nat)
      requires Placed() && Taken(z, free, live, i, l) && z.n == framesNumber
      ensures Returned(z, free, live, Layout.Address(base, i), i, l) && Layout.Address(base, i) > 0
    {
      Layout.RegionHolds(start, end);
      Layout.BlockInZone(start, end, i, l);
    }

    // physic_alloc: the address of a block that holds the bytes, and is less than twice as large as needed.
    method PhysicAlloc(bytes: nat) returns (address: nat, ghost level: nat)
      requires Valid() && bytes < TWO32
      modifies flags, this.level, prev, next, freeLists
      ensures Valid()
      ensures bytes <= Pow2(level) * Layout.FRAME_SIZE && (level > 0 ==> Pow2(level - 1) * Layout.FRAME_SIZE < bytes)
      ensures forall free, live :: Outcome(old(State()), free, live) ==>
        if level > TOP || !HasRun(free, framesNumber, level) then address == 0 && State() == old(State())
        else address > 0 && exists i :: Returned(State(), free, live, address, i, level)
    {
      Pow2Values();
      ghost var z := State();
      var page, wanted := FrameAlloc(Layout.FramesFor(bytes));
      level := wanted;
      Layout.RequestFits(bytes, level);
      if page == None {
        address := 0;
      } else {
        address := Layout.Address(base, page.value);
        forall free, live | Outcome(z, free, live)
          ensures address > 0 && Returned(State(), free, live, address, page.value, level)
        {
          TakenReturned(State(), free, live, page.value, level);
        }
      }
    }

    // physic_free of any byte of the first frame of a block handed out gives back that block; of an address
    // below the frames it does nothing.
    method PhysicFree(address: nat) returns (done: bool)
      requires Valid() && address < TWO32
      modifies flags, level, prev, next, freeLists
      ensures Ready(old(State())) && Separate()
      ensures address < base ==> !done && State() == old(State())
      ensures address >= base ==> (State(), done) == Free(old(State()), (address - base) / Layout.FRAME_SIZE)
      ensures address >= base ==> (Sane(State()) <==> FreeSafe(old(State()), (address - base) / Layout.FRAME_SIZE))
      ensures forall free, live, i :: Outcome(old(State()), free, live) && OfFirstFrame(live, base, i, address) ==>
        done && GivenBack(old(State()), State(), free, live, i)
    {
      InOrderReady(State());
      Layout.RegionHolds(start, end);
      if address == 0 {
        return false;
      }
      ghost var z := State();
      done := FreeFramePageBlock(Layout.FrameAt(base, address));
      FreedAt(z, State(), done, base, address);
    }
  }
}
