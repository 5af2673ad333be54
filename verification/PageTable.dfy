// The two-level page table (kernel/kernel/vmm.c). Physical memory is modelled by the page tables in it, under
// their physical addresses; the PAGE_OFFSET added to reach them through the kernel window is not modelled.

module PageTable {
  import opened Basics
  import opened Rounding

  type Word = w: nat | w < TWO32 witness 0

  const PAGE_OFFSET: nat := 0xC000_0000
  const PAGE_SIZE: nat := 4096
  const ENTRIES: nat := 1024
  const WINDOW_TABLES: nat := 0x3800_0000 / 0x40_0000     // KERNEL_NORMAL_ZONE_DIRECTORY_SIZE
  const WINDOW_FIRST: nat := PAGE_OFFSET / 0x40_0000       // PGD_INDEX(PAGE_OFFSET)
  const PRESENT_WRITE: nat := 3                            // PAGE_PRESENT | PAGE_WRITE

  // `directory` holds the words of the page directory, `tables` the page tables it refers to.
  datatype Space = Space(directory: seq<nat>, tables: map<nat, seq<nat>>)

  // ---- words ----

  // w & PAGE_MASK
  function PageMask(w: nat): (r: nat)
    ensures r <= w < r + PAGE_SIZE && r % PAGE_SIZE == 0
  {
    w / PAGE_SIZE * PAGE_SIZE
  }

  function DirIndex(va: Word): (i: nat)
    ensures i < ENTRIES
  {
    va / 0x40_0000
  }

  function TableIndex(va: Word): (i: nat)
    ensures i < ENTRIES
  {
    va / PAGE_SIZE % ENTRIES
  }

  // The page-number bits of `flags` are among those of `address`; flags below 4096 have none.
  predicate Covered(flags: nat, address: nat) {
    And(address / PAGE_SIZE, flags / PAGE_SIZE) == flags / PAGE_SIZE
  }

  lemma {:induction false} OrAbsorbs(a: nat, b: nat)
    ensures Or(a, b) == a <==> And(a, b) == b
  {
    if a != 0 && b != 0 { OrAbsorbs(a / 2, b / 2); }
  }

  lemma OrHalf(a: nat, b: nat)
    ensures Or(a, b) / 2 == Or(a / 2, b / 2)
  {
  }

  lemma {:induction false} OrShift(a: nat, b: nat, s: nat)
    ensures ShiftRight(Or(a, b), s) == Or(ShiftRight(a, s), ShiftRight(b, s))
  {
    if s == 0 {
    } else {
      OrHalf(a, b);
      OrShift(a / 2, b / 2, s - 1);
    }
  }

  lemma ShiftFour(n: nat, s: nat)
    ensures ShiftRight(n, s + 4) == ShiftRight(n / 16, s)
  {
    assert ShiftRight(n / 2, s + 3) == ShiftRight(n / 2 / 2, s + 2);
    assert ShiftRight(n / 2 / 2 / 2, s + 1) == ShiftRight(n / 16, s);
  }

  lemma ShiftPage(n: nat)
    ensures ShiftRight(n, 12) == n / PAGE_SIZE
  {
    ShiftFour(n, 8);
    ShiftFour(n / 16, 4);
    ShiftFour(n / 16 / 16, 0);
  }

  lemma OrPage(a: nat, b: nat)
    ensures Or(a, b) / PAGE_SIZE == Or(a / PAGE_SIZE, b / PAGE_SIZE)
  {
    OrShift(a, b, 12);
    ShiftPage(Or(a, b));
    ShiftPage(a);
    ShiftPage(b);
  }

  // Or-ing flags onto a page address keeps the address exactly if the flags are covered by it.
  lemma FlaggedPage(address: nat, flags: nat)
    ensures PageMask(Or(PageMask(address), flags)) == PageMask(address) <==> Covered(flags, address)
    ensures Or(PageMask(address), flags) == 0 <==> PageMask(address) == 0 && flags == 0
  {
    OrPage(PageMask(address), flags);
    OrAbsorbs(address / PAGE_SIZE, flags / PAGE_SIZE);
    OrZero(PageMask(address), flags);
  }

  lemma OrZero(a: nat, b: nat)
    ensures Or(a, b) == 0 <==> a == 0 && b == 0
  {
  }

  // ---- operations ----

  // The physical address of the table of directory entry i; 0 means none.
  function TableOf(s: Space, i: nat): nat
    requires i < |s.directory|
  {
    PageMask(s.directory[i])
  }

  ghost predicate Referenced(s: Space, table: nat) {
    exists i :: 0 <= i < |s.directory| && TableOf(s, i) == table
  }

  // The directory refers to page tables, exactly those held, and no two entries share one.
  ghost predicate InOrder(s: Space) {
    && |s.directory| == ENTRIES
    && (forall i :: 0 <= i < ENTRIES && TableOf(s, i) != 0 ==> TableOf(s, i) in s.tables)
    && (forall i, j :: 0 <= i < j < ENTRIES && TableOf(s, i) == TableOf(s, j) ==> TableOf(s, i) == 0)
    && (forall b :: b in s.tables ==> |s.tables[b]| == ENTRIES && b != 0 && Referenced(s, b))
  }

  function Blank(): (t: seq<nat>)
    ensures |t| == ENTRIES && forall j :: 0 <= j < ENTRIES ==> t[j] == 0
  {
    seq(ENTRIES, j => 0)
  }

  // One word of one table.
  function WithWord(s: Space, table: nat, j: nat, word: nat): Space
    requires table in s.tables && j < |s.tables[table]|
  {
    var words: seq<nat> := s.tables[table][j := word];
    s.(tables := s.tables[table := words])
  }

  function NewTable(j: nat, word: nat): seq<nat>
    requires j < ENTRIES
  {
    Blank()[j := word]
  }

  // map; `frame` is the address physic_alloc returns if a table is needed.
  ghost function Map(s: Space, va: Word, pa: Word, flags: Word, frame: nat): Space
    requires InOrder(s)
  {
    var word := Or(PageMask(pa), flags);
    var table := TableOf(s, DirIndex(va));
    if table == 0 then
      Space(s.directory[DirIndex(va) := Or(frame, flags)], s.tables[frame := NewTable(TableIndex(va), word)])
    else
      WithWord(s, table, TableIndex(va), word)
  }

  ghost function Unmap(s: Space, va: Word): Space
    requires InOrder(s)
  {
    var table := TableOf(s, DirIndex(va));
    if table == 0 then s else WithWord(s, table, TableIndex(va), 0)
  }

  // What get_mapping finds for an address.
  ghost function Lookup(s: Space, va: Word): Option<nat>
    requires InOrder(s)
  {
    var table := TableOf(s, DirIndex(va));
    if table == 0 then None else
      var word := s.tables[table][TableIndex(va)];
      if word == 0 then None else Some(PageMask(word))
  }

  // kernel_main drops the boot table from entry 0.
  ghost function DropFirst(s: Space): Space
    requires InOrder(s)
  {
    Space(s.directory[0 := 0], s.tables - {TableOf(s, 0)})
  }

  // ---- one step ----

  datatype Change = MapPage(va: Word, pa: Word, flags: Word, frame: nat) | UnmapPage(va: Word) | DropBoot

  // A page frame that holds no table yet.
  predicate Unused(s: Space, frame: nat) {
    frame != 0 && frame % PAGE_SIZE == 0 && frame !in s.tables
  }

  ghost predicate NeedsTable(s: Space, va: Word)
    requires InOrder(s)
  {
    TableOf(s, DirIndex(va)) == 0
  }

  // A table that has to be added goes to an unused frame.
  ghost predicate Supplied(s: Space, c: Change)
    requires InOrder(s)
  {
    c.MapPage? && NeedsTable(s, c.va) ==> Unused(s, c.frame)
  }

  ghost predicate Sound(s: Space, c: Change)
    requires InOrder(s)
  {
    Supplied(s, c) && (c.MapPage? && NeedsTable(s, c.va) ==> Covered(c.flags, c.frame))
  }

  ghost function Apply(s: Space, c: Change): Space
    requires InOrder(s)
  {
    match c
    case MapPage(va, pa, flags, frame) => Map(s, va, pa, flags, frame)
    case UnmapPage(va) => Unmap(s, va)
    case DropBoot => DropFirst(s)
  }

  // The pages a change writes, and what it leaves there.
  predicate Writes(c: Change, va: Word) {
    match c
    case MapPage(at, _, _, _) => at / PAGE_SIZE == va / PAGE_SIZE
    case UnmapPage(at) => at / PAGE_SIZE == va / PAGE_SIZE
    case DropBoot => DirIndex(va) == 0
  }

  function Written(c: Change): Option<nat> {
    if !c.MapPage? || Or(PageMask(c.pa), c.flags) == 0 then None else Some(PageMask(Or(PageMask(c.pa), c.flags)))
  }

  lemma SamePage(va: Word, at: Word)
    ensures at / PAGE_SIZE == va / PAGE_SIZE <==> DirIndex(at) == DirIndex(va) && TableIndex(at) == TableIndex(va)
  {
    assert va / 0x40_0000 == va / PAGE_SIZE / ENTRIES && at / 0x40_0000 == at / PAGE_SIZE / ENTRIES;
  }

  lemma TableAdded(s: Space, va: Word, pa: Word, flags: Word, frame: nat)
    requires InOrder(s) && NeedsTable(s, va) && Unused(s, frame)
    ensures InOrder(Map(s, va, pa, flags, frame)) <==> Covered(flags, frame)
    ensures Covered(flags, frame) ==> TableOf(Map(s, va, pa, flags, frame), DirIndex(va)) == frame
  {
    var r, d := Map(s, va, pa, flags, frame), DirIndex(va);
    FlaggedPage(frame, flags);
    assert PageMask(frame) == frame;
    assert forall i :: 0 <= i < ENTRIES ==>
      TableOf(r, i) == if i == d then PageMask(Or(frame, flags)) else TableOf(s, i);
    if Covered(flags, frame) {
      forall b | b in r.tables ensures Referenced(r, b) {
        if b == frame {
          assert TableOf(r, d) == b;
        } else {
          var i :| 0 <= i < ENTRIES && TableOf(s, i) == b;
          assert TableOf(r, i) == b;
        }
      }
    } else {
      assert forall i :: 0 <= i < ENTRIES ==> TableOf(r, i) != frame;
      assert frame in r.tables && !Referenced(r, frame);
    }
  }

  lemma SameDirectory(s: Space, r: Space)
    requires InOrder(s) && r.directory == s.directory && r.tables.Keys == s.tables.Keys
    requires forall b :: b in r.tables ==> |r.tables[b]| == ENTRIES
    ensures InOrder(r)
  {
    assert forall i :: 0 <= i < ENTRIES ==> TableOf(r, i) == TableOf(s, i);
    forall b | b in r.tables ensures Referenced(r, b) {
      var i :| 0 <= i < ENTRIES && TableOf(s, i) == b;
      assert TableOf(r, i) == b;
    }
  }

  lemma FirstDropped(s: Space)
    requires InOrder(s)
    ensures InOrder(DropFirst(s))
  {
    var r := DropFirst(s);
    assert forall i :: 0 < i < ENTRIES ==> TableOf(r, i) == TableOf(s, i);
    forall b | b in r.tables ensures Referenced(r, b) {
      var i :| 0 <= i < ENTRIES && TableOf(s, i) == b;
      assert TableOf(r, i) == b;
    }
  }

  // A change keeps the tables in order exactly if the flags leave the address of an added table intact.
  lemma StepInOrder(s: Space, c: Change)
    requires InOrder(s) && Supplied(s, c)
    ensures InOrder(Apply(s, c)) <==> Sound(s, c)
  {
    match c
    case MapPage(va, pa, flags, frame) =>
      if NeedsTable(s, va) {
        TableAdded(s, va, pa, flags, frame);
      } else {
        assert Apply(s, c).tables.Keys == s.tables.Keys;
        SameDirectory(s, Apply(s, c));
      }
    case UnmapPage(va) =>
      assert Apply(s, c).tables.Keys == s.tables.Keys;
      SameDirectory(s, Apply(s, c));
    case DropBoot =>
      FirstDropped(s);
  }

  lemma AddedLookup(s: Space, c: Change, va: Word)
    requires InOrder(s) && Sound(s, c) && c.MapPage? && NeedsTable(s, c.va)
    ensures InOrder(Apply(s, c))
    ensures Lookup(Apply(s, c), va) == if Writes(c, va) then Written(c) else Lookup(s, va)
  {
    TableAdded(s, c.va, c.pa, c.flags, c.frame);
    SamePage(va, c.va);
    var r := Apply(s, c);
    if DirIndex(va) != DirIndex(c.va) {
      assert TableOf(r, DirIndex(va)) == TableOf(s, DirIndex(va));
    }
  }

  lemma ChangedWord(s: Space, at: Word, word: nat, va: Word)
    requires InOrder(s) && !NeedsTable(s, at)
    ensures var r := WithWord(s, TableOf(s, DirIndex(at)), TableIndex(at), word);
      && InOrder(r)
      && Lookup(r, va) ==
         if at / PAGE_SIZE == va / PAGE_SIZE then (if word == 0 then None else Some(PageMask(word))) else Lookup(s, va)
  {
    var r := WithWord(s, TableOf(s, DirIndex(at)), TableIndex(at), word);
    assert r.tables.Keys == s.tables.Keys;
    SameDirectory(s, r);
    SamePage(va, at);
    assert TableOf(r, DirIndex(va)) == TableOf(s, DirIndex(va));
  }

  // One change does to the lookups what an assignment does to a partial map.
  lemma StepRefines(s: Space, c: Change, va: Word)
    requires InOrder(s) && Sound(s, c)
    ensures InOrder(Apply(s, c))
    ensures Lookup(Apply(s, c), va) == if Writes(c, va) then Written(c) else Lookup(s, va)
  {
    StepInOrder(s, c);
    match c
    case MapPage(at, pa, flags, frame) =>
      if NeedsTable(s, at) {
        AddedLookup(s, c, va);
      } else {
        ChangedWord(s, at, Or(PageMask(pa), flags), va);
      }
    case UnmapPage(at) =>
      if NeedsTable(s, at) {
        SamePage(va, at);
      } else {
        ChangedWord(s, at, 0, va);
      }
    case DropBoot =>
      var r := Apply(s, c);
      if DirIndex(va) != 0 {
        assert TableOf(r, DirIndex(va)) == TableOf(s, DirIndex(va));
      }
  }

  // get_mapping right after map returns the page mapped, exactly if the entry is not the empty word and the
  // flags do not reach into the page number.
  lemma MapThenLookup(s: Space, c: Change)
    requires InOrder(s) && Sound(s, c) && c.MapPage?
    ensures InOrder(Apply(s, c))
    ensures Lookup(Apply(s, c), c.va) == Some(PageMask(c.pa)) <==>
            (PageMask(c.pa) != 0 || c.flags != 0) && Covered(c.flags, c.pa)
  {
    StepRefines(s, c, c.va);
    FlaggedPage(c.pa, c.flags);
  }

  lemma SmallFlagsCovered(flags: nat, address: nat)
    requires flags < PAGE_SIZE
    ensures Covered(flags, address)
  {
  }

  // ---- runs ----

  ghost predicate SoundRun(s: Space, changes: seq<Change>)
    requires InOrder(s)
    decreases |changes|
  {
    changes != [] ==>
      && Sound(s, changes[0])
      && InOrder(Apply(s, changes[0])) && SoundRun(Apply(s, changes[0]), changes[1..])
  }

  ghost function Run(s: Space, changes: seq<Change>): Space
    requires InOrder(s) && SoundRun(s, changes)
    decreases |changes|
  {
    if changes == [] then s else Run(Apply(s, changes[0]), changes[1..])
  }

  // What the last change of a page left there, or what was there before.
  function LastWritten(changes: seq<Change>, va: Word, before: Option<nat>): Option<nat>
    decreases |changes|
  {
    if changes == [] then before
    else LastWritten(changes[1..], va, if Writes(changes[0], va) then Written(changes[0]) else before)
  }

  lemma {:induction false} RunRefines(s: Space, changes: seq<Change>, va: Word)
    requires InOrder(s) && SoundRun(s, changes)
    ensures InOrder(Run(s, changes))
    ensures Lookup(Run(s, changes), va) == LastWritten(changes, va, Lookup(s, va))
    decreases |changes|
  {
    if changes == [] {
    } else {
      StepRefines(s, changes[0], va);
      RunRefines(Apply(s, changes[0]), changes[1..], va);
    }
  }

  lemma {:induction false} NotWritten(changes: seq<Change>, va: Word, before: Option<nat>)
    requires forall c :: c in changes ==> !Writes(c, va)
    ensures LastWritten(changes, va, before) == before
    decreases |changes|
  {
    if changes == [] {
    } else {
      assert changes[0] in changes;
      NotWritten(changes[1..], va, before);
    }
  }

  lemma {:induction false} LastOf(changes: seq<Change>, k: nat, va: Word, before: Option<nat>)
    requires k < |changes| && Writes(changes[k], va)
    requires forall j :: k < j < |changes| ==> !Writes(changes[j], va)
    ensures LastWritten(changes, va, before) == Written(changes[k])
    decreases k
  {
    if k == 0 {
      NotWritten(changes[1..], va, Written(changes[0]));
    } else {
      LastOf(changes[1..], k - 1, va, if Writes(changes[0], va) then Written(changes[0]) else before);
    }
  }

  // Over any run: the page holds the frame of the last map of it, if no later change writes the page.
  lemma LastMapSurvives(s: Space, changes: seq<Change>, k: nat, va: Word)
    requires InOrder(s) && SoundRun(s, changes)
    requires k < |changes| && changes[k].MapPage? && Writes(changes[k], va) && 0 < changes[k].flags < PAGE_SIZE
    requires forall j :: k < j < |changes| ==> !Writes(changes[j], va)
    ensures InOrder(Run(s, changes)) && Lookup(Run(s, changes), va) == Some(PageMask(changes[k].pa))
  {
    RunRefines(s, changes, va);
    LastOf(changes, k, va, Lookup(s, va));
    SmallFlagsCovered(changes[k].flags, changes[k].pa);
    FlaggedPage(changes[k].pa, changes[k].flags);
  }

  // ---- init_vmm ----

  // The directory after init_vmm: window tables from `base` on, the boot table at `boot`, nothing else. The
  // entries above the window are not written and keep the zero of a static array.
  function InitialDirectory(base: nat, boot: nat): (d: seq<nat>)
    ensures |d| == ENTRIES
  {
    seq(ENTRIES, i requires 0 <= i < ENTRIES => InitialEntry(base, boot, i))
  }

  function InitialEntry(base: nat, boot: nat, i: nat): nat {
    if i == 0 then Or(boot, PRESENT_WRITE)
    else if WINDOW_FIRST <= i < WINDOW_FIRST + WINDOW_TABLES then
      Or(base + (i - WINDOW_FIRST) * PAGE_SIZE, PRESENT_WRITE)
    else 0
  }

  function WindowTable(i: nat): (t: seq<nat>)
    ensures |t| == ENTRIES
  {
    seq(ENTRIES, j requires 0 <= j < ENTRIES => WindowWord(i, j))
  }

  function WindowWord(i: nat, j: nat): nat {
    Or((i * ENTRIES + j) * PAGE_SIZE, PRESENT_WRITE)
  }

  // The window tables, one page each from `base` on.
  ghost function WindowTables(base: nat, count: nat): (m: map<nat, seq<nat>>)
    ensures forall b :: b in m <==> base <= b < base + count * PAGE_SIZE && (b - base) % PAGE_SIZE == 0
    ensures forall b :: b in m ==> m[b] == WindowTable((b - base) / PAGE_SIZE)
  {
    if count == 0 then map[] else
      WindowTables(base, count - 1)[base + (count - 1) * PAGE_SIZE := WindowTable(count - 1)]
  }

  ghost function Initial(base: nat, boot: nat, content: seq<nat>): Space {
    Space(InitialDirectory(base, boot), WindowTables(base, WINDOW_TABLES)[boot := content])
  }

  ghost predicate Located(base: nat, boot: nat, content: seq<nat>) {
    && base % PAGE_SIZE == 0 && boot % PAGE_SIZE == 0 && base != 0 && boot != 0
    && !(base <= boot < base + WINDOW_TABLES * PAGE_SIZE)
    && |content| == ENTRIES
  }

  lemma Flagged(address: nat)
    requires address % PAGE_SIZE == 0
    ensures PageMask(Or(address, PRESENT_WRITE)) == address && Or(address, PRESENT_WRITE) != 0
  {
    SmallFlagsCovered(PRESENT_WRITE, address);
    FlaggedPage(address, PRESENT_WRITE);
  }

  lemma InitialTable(base: nat, boot: nat, content: seq<nat>, i: nat)
    requires Located(base, boot, content) && i < ENTRIES
    ensures TableOf(Initial(base, boot, content), i) ==
            if i == 0 then boot
            else if WINDOW_FIRST <= i < WINDOW_FIRST + WINDOW_TABLES then base + (i - WINDOW_FIRST) * PAGE_SIZE
            else 0
  {
    if i == 0 {
      Flagged(boot);
    } else if WINDOW_FIRST <= i < WINDOW_FIRST + WINDOW_TABLES {
      Flagged(base + (i - WINDOW_FIRST) * PAGE_SIZE);
    }
  }

  lemma InWindowTables(base: nat, k: nat)
    requires k < WINDOW_TABLES
    ensures base + k * PAGE_SIZE in WindowTables(base, WINDOW_TABLES)
    ensures WindowTables(base, WINDOW_TABLES)[base + k * PAGE_SIZE] == WindowTable(k)
  {
    assert (base + k * PAGE_SIZE - base) / PAGE_SIZE == k;
  }

  lemma InitialReferenced(base: nat, boot: nat, content: seq<nat>, b: nat)
    requires Located(base, boot, content) && b in Initial(base, boot, content).tables
    ensures Referenced(Initial(base, boot, content), b)
  {
    var i := if b == boot then 0 else WINDOW_FIRST + (b - base) / PAGE_SIZE;
    InitialTable(base, boot, content, i);
    assert TableOf(Initial(base, boot, content), i) == b;
  }

  lemma InitialHeld(base: nat, boot: nat, content: seq<nat>, i: nat)
    requires Located(base, boot, content) && i < ENTRIES && TableOf(Initial(base, boot, content), i) != 0
    ensures TableOf(Initial(base, boot, content), i) in Initial(base, boot, content).tables
  {
    InitialTable(base, boot, content, i);
    if i != 0 { InWindowTables(base, i - WINDOW_FIRST); }
  }

  lemma InitialInOrder(base: nat, boot: nat, content: seq<nat>)
    requires Located(base, boot, content)
    ensures InOrder(Initial(base, boot, content))
  {
    var s := Initial(base, boot, content);
    forall i | 0 <= i < ENTRIES && TableOf(s, i) != 0 ensures TableOf(s, i) in s.tables {
      InitialHeld(base, boot, content, i);
    }
    forall i, j | 0 <= i < j < ENTRIES && TableOf(s, i) == TableOf(s, j) ensures TableOf(s, i) == 0 {
      InitialTable(base, boot, content, i);
      InitialTable(base, boot, content, j);
    }
    forall b | b in s.tables ensures Referenced(s, b) {
      InitialReferenced(base, boot, content, b);
    }
  }

  lemma WindowContent(base: nat, boot: nat, content: seq<nat>, k: nat, j: nat)
    requires Located(base, boot, content) && k < WINDOW_TABLES && j < ENTRIES
    ensures base + k * PAGE_SIZE in Initial(base, boot, content).tables
    ensures |Initial(base, boot, content).tables[base + k * PAGE_SIZE]| == ENTRIES
    ensures Initial(base, boot, content).tables[base + k * PAGE_SIZE][j] == WindowWord(k, j)
  {
  }

  lemma LookupAt(s: Space, va: Word, table: nat, word: nat, page: nat)
    requires InOrder(s) && TableOf(s, DirIndex(va)) == table != 0
    requires table in s.tables && s.tables[table][TableIndex(va)] == word != 0 && PageMask(word) == page
    ensures Lookup(s, va) == Some(page)
  {
  }

  // Every page of the kernel window maps to its address minus PAGE_OFFSET.
  lemma WindowIsLinear(base: nat, boot: nat, content: seq<nat>, va: Word)
    requires Located(base, boot, content) && PAGE_OFFSET <= va < PAGE_OFFSET + 0x3800_0000
    ensures InOrder(Initial(base, boot, content))
    ensures Lookup(Initial(base, boot, content), va) == Some(PageMask(va - PAGE_OFFSET))
  {
    WindowIndex(va);
    var d, j := DirIndex(va), TableIndex(va);
    var k: nat := d - WINDOW_FIRST;
    InitialInOrder(base, boot, content);
    InitialTable(base, boot, content, d);
    WindowContent(base, boot, content, k, j);
    WindowWordPage(k, j);
    LookupAt(Initial(base, boot, content), va, base + k * PAGE_SIZE, WindowWord(k, j), PageMask(va - PAGE_OFFSET));
  }

  lemma WindowWordPage(k: nat, j: nat)
    ensures WindowWord(k, j) != 0 && PageMask(WindowWord(k, j)) == (k * ENTRIES + j) * PAGE_SIZE
  {
    Flagged((k * ENTRIES + j) * PAGE_SIZE);
  }

  lemma WindowIndex(va: Word)
    requires PAGE_OFFSET <= va < PAGE_OFFSET + 0x3800_0000
    ensures WINDOW_FIRST <= DirIndex(va) < WINDOW_FIRST + WINDOW_TABLES
    ensures ((DirIndex(va) - WINDOW_FIRST) * ENTRIES + TableIndex(va)) * PAGE_SIZE == PageMask(va - PAGE_OFFSET)
  {
  }

  // A run of one change: mapping page 0x2000 with flags 0x1003 right after init_vmm maps another page.
  lemma FlagsTrouble(base: nat, boot: nat, content: seq<nat>)
    requires Located(base, boot, content)
    ensures var s, c := Initial(base, boot, content), MapPage(PAGE_OFFSET, 0x2000, 0x1003, 0);
      && InOrder(s) && Sound(s, c) && InOrder(Apply(s, c))
      && Lookup(Apply(s, c), PAGE_OFFSET) != Some(0x2000)
  {
    var s, c := Initial(base, boot, content), MapPage(PAGE_OFFSET, 0x2000, 0x1003, 0);
    InitialInOrder(base, boot, content);
    InitialTable(base, boot, content, WINDOW_FIRST);
    assert DirIndex(PAGE_OFFSET) == WINDOW_FIRST && PageMask(0x2000) == 0x2000;
    MapThenLookup(s, c);
    assert !Covered(0x1003, 0x2000);
  }

  // After any run of changes the window is linear wherever no change wrote it.
  lemma WindowStays(base: nat, boot: nat, content: seq<nat>, changes: seq<Change>, va: Word)
    requires Located(base, boot, content) && PAGE_OFFSET <= va < PAGE_OFFSET + 0x3800_0000
    requires InOrder(Initial(base, boot, content)) && SoundRun(Initial(base, boot, content), changes)
    requires forall c :: c in changes ==> !Writes(c, va)
    ensures InOrder(Run(Initial(base, boot, content), changes))
    ensures Lookup(Run(Initial(base, boot, content), changes), va) == Some(PageMask(va - PAGE_OFFSET))
  {
    var s := Initial(base, boot, content);
    RunRefines(s, changes, va);
    WindowIsLinear(base, boot, content, va);
    NotWritten(changes, va, Lookup(s, va));
  }
}
