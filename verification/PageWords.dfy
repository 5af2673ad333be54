// The words of the page directory and the page tables, flags included, and what the processor makes of them: the
// addresses it translates are those get_mapping finds, as long as every map asks for PAGE_PRESENT.

module PageWords {
  import opened Basics
  import opened Rounding
  import opened PageTable

  // ---- or-ing flags onto a page address ----

  lemma OrDouble(a: nat, b: nat, p: nat, q: nat, c: nat)
    requires c < 2 && a == 2 * p && b == 2 * q + c
    ensures Or(a, b) == 2 * Or(p, q) + c
  {
  }

  lemma OrFour(a: nat, b: nat, p: nat, q: nat, c: nat)
    requires c < 4 && a == 4 * p && b == 4 * q + c
    ensures Or(a, b) == 4 * Or(p, q) + c
  {
    var a1, b1, x := 2 * p, b / 2, c / 2;
    OrDouble(a, b, a1, b1, c % 2);
    OrDouble(a1, b1, p, q, x);
  }

  lemma Halves(b: nat, q: nat, c: nat) returns (b1: nat, x: nat, y: nat)
    requires c < 16 && b == 16 * q + c
    ensures x < 4 && y < 4 && b == 4 * b1 + y && b1 == 4 * q + x && c == 4 * x + y
  {
    x, y := c / 4, c % 4;
    b1 := 4 * q + x;
  }

  lemma OrSixteen(a: nat, b: nat, p: nat, q: nat, c: nat)
    requires c < 16 && a == 16 * p && b == 16 * q + c
    ensures Or(a, b) == 16 * Or(p, q) + c
  {
    var b1, x, y := Halves(b, q, c);
    var a1 := 4 * p;
    OrFour(a, b, a1, b1, y);
    OrFour(a1, b1, p, q, x);
  }

  lemma Nibbles(c: nat) returns (x: nat, y: nat, z: nat)
    requires c < PAGE_SIZE
    ensures x < 16 && y < 16 && z < 16 && c == 256 * x + 16 * y + z
  {
    x, y, z := c / 256, c / 16 % 16, c % 16;
  }

  lemma OrPageSize(a: nat, b: nat, p: nat, q: nat, c: nat)
    requires c < PAGE_SIZE && a == PAGE_SIZE * p && b == PAGE_SIZE * q + c
    ensures Or(a, b) == PAGE_SIZE * Or(p, q) + c
  {
    var x, y, z := Nibbles(c);
    var a2, b2, a1, b1 := 16 * p, 16 * q + x, 256 * p, 256 * q + 16 * x + y;
    OrSixteen(a2, b2, p, q, x);
    OrSixteen(a1, b1, a2, b2, y);
    OrSixteen(a, b, a1, b1, z);
  }

  // The low bits of the result are those of the flags.
  lemma OrWord(a: nat, b: nat)
    requires a % PAGE_SIZE == 0
    ensures Or(a, b) == PAGE_SIZE * Or(a / PAGE_SIZE, b / PAGE_SIZE) + b % PAGE_SIZE
  {
    OrPageSize(a, b, a / PAGE_SIZE, b / PAGE_SIZE, b % PAGE_SIZE);
  }

  lemma OrNothing(a: nat)
    ensures Or(a, 0) == a
  {
  }

  // Flags below 4096 are added.
  lemma OrAdds(a: nat, b: nat)
    requires a % PAGE_SIZE == 0 && b < PAGE_SIZE
    ensures Or(a, b) == a + b
  {
    OrWord(a, b);
    OrNothing(a / PAGE_SIZE);
  }

  // ---- the words ----

  // The directory word of an address.
  function Entry(s: Space, va: Word): nat
    requires |s.directory| == ENTRIES
  {
    s.directory[DirIndex(va)]
  }

  // Its table word; 0 without a table.
  ghost function Leaf(s: Space, va: Word): nat
    requires InOrder(s)
  {
    var table := TableOf(s, DirIndex(va));
    if table == 0 then 0 else s.tables[table][TableIndex(va)]
  }

  // The changes whose flags stay below the page number, as those of the kernel do.
  predicate Plain(c: Change) {
    c.MapPage? ==> c.flags < PAGE_SIZE
  }

  lemma PlainSound(s: Space, c: Change)
    requires InOrder(s) && Supplied(s, c) && Plain(c)
    ensures Sound(s, c) && InOrder(Apply(s, c))
  {
    if c.MapPage? { SmallFlagsCovered(c.flags, c.frame); }
    StepInOrder(s, c);
  }

  // What a change leaves in the table word of a page it writes.
  function LeafWritten(c: Change): nat {
    if c.MapPage? then PageMask(c.pa) + c.flags else 0
  }

  // The page table is added by this change.
  ghost predicate Adds(s: Space, c: Change, d: nat)
    requires InOrder(s)
  {
    c.MapPage? && DirIndex(c.va) == d && NeedsTable(s, c.va)
  }

  ghost function EntryAfter(s: Space, c: Change, va: Word): nat
    requires InOrder(s)
  {
    if Adds(s, c, DirIndex(va)) then c.frame + c.flags
    else if c.DropBoot? && DirIndex(va) == 0 then 0
    else Entry(s, va)
  }

  lemma AddedWords(s: Space, c: Change, va: Word)
    requires InOrder(s) && Supplied(s, c) && Plain(c) && c.MapPage? && NeedsTable(s, c.va)
    requires InOrder(Apply(s, c)) && TableOf(Apply(s, c), DirIndex(c.va)) == c.frame
    ensures Leaf(Apply(s, c), va) == if Writes(c, va) then LeafWritten(c) else Leaf(s, va)
    ensures Entry(Apply(s, c), va) == EntryAfter(s, c, va)
  {
    var r := Apply(s, c);
    OrAdds(c.frame, c.flags);
    OrAdds(PageMask(c.pa), c.flags);
    SamePage(va, c.va);
    if DirIndex(va) != DirIndex(c.va) {
      assert TableOf(r, DirIndex(va)) == TableOf(s, DirIndex(va));
    }
  }

  lemma StoredWord(s: Space, r: Space, at: Word, word: nat, va: Word)
    requires InOrder(s) && !NeedsTable(s, at) && InOrder(r)
    requires r == WithWord(s, TableOf(s, DirIndex(at)), TableIndex(at), word)
    ensures Leaf(r, va) == if at / PAGE_SIZE == va / PAGE_SIZE then word else Leaf(s, va)
    ensures Entry(r, va) == Entry(s, va)
  {
    SamePage(va, at);
    assert TableOf(r, DirIndex(va)) == TableOf(s, DirIndex(va));
  }

  lemma DroppedWords(s: Space, va: Word)
    requires InOrder(s) && InOrder(DropFirst(s))
    ensures Leaf(DropFirst(s), va) == if DirIndex(va) == 0 then 0 else Leaf(s, va)
    ensures Entry(DropFirst(s), va) == if DirIndex(va) == 0 then 0 else Entry(s, va)
  {
    if DirIndex(va) != 0 {
      assert TableOf(DropFirst(s), DirIndex(va)) == TableOf(s, DirIndex(va));
    }
  }

  lemma OverwrittenWords(s: Space, c: Change, va: Word)
    requires InOrder(s) && Plain(c) && c.MapPage? && !NeedsTable(s, c.va) && InOrder(Apply(s, c))
    ensures Leaf(Apply(s, c), va) == if Writes(c, va) then LeafWritten(c) else Leaf(s, va)
    ensures Entry(Apply(s, c), va) == EntryAfter(s, c, va)
  {
    OrAdds(PageMask(c.pa), c.flags);
    StoredWord(s, Apply(s, c), c.va, PageMask(c.pa) + c.flags, va);
    SamePage(va, c.va);
  }

  lemma MapWords(s: Space, c: Change, va: Word)
    requires InOrder(s) && Supplied(s, c) && Plain(c) && c.MapPage? && InOrder(Apply(s, c))
    ensures Leaf(Apply(s, c), va) == if Writes(c, va) then LeafWritten(c) else Leaf(s, va)
    ensures Entry(Apply(s, c), va) == EntryAfter(s, c, va)
  {
    if NeedsTable(s, c.va) {
      TableAdded(s, c.va, c.pa, c.flags, c.frame);
      SmallFlagsCovered(c.flags, c.frame);
      AddedWords(s, c, va);
    } else {
      OverwrittenWords(s, c, va);
    }
  }

  // One change, to the word: a map leaves the page and its flags in the table word, and in the directory word the
  // frame and the flags if it added the table; an unmap clears the table word; nothing else changes.
  lemma StepWords(s: Space, c: Change, va: Word)
    requires InOrder(s) && Supplied(s, c) && Plain(c)
    ensures InOrder(Apply(s, c))
    ensures Leaf(Apply(s, c), va) == if Writes(c, va) then LeafWritten(c) else Leaf(s, va)
    ensures Entry(Apply(s, c), va) == EntryAfter(s, c, va)
  {
    PlainSound(s, c);
    match c
    case MapPage(_, _, _, _) =>
      MapWords(s, c, va);
    case UnmapPage(at) =>
      if NeedsTable(s, at) {
        SamePage(va, at);
      } else {
        StoredWord(s, Apply(s, c), at, 0, va);
      }
    case DropBoot =>
      DroppedWords(s, va);
  }

  lemma OrLow(a: nat, b: nat)
    requires a % PAGE_SIZE == 0
    ensures Or(a, b) % PAGE_SIZE == b % PAGE_SIZE
  {
    OrWord(a, b);
  }

  lemma LowBitsAdded(s: Space, c: Change)
    requires InOrder(s) && Sound(s, c) && c.MapPage? && NeedsTable(s, c.va) && InOrder(Apply(s, c))
    ensures Leaf(Apply(s, c), c.va) == Or(PageMask(c.pa), c.flags)
    ensures Entry(Apply(s, c), c.va) == Or(c.frame, c.flags)
  {
    TableAdded(s, c.va, c.pa, c.flags, c.frame);
  }

  // Whatever the flags, their low bits are those of the words map leaves.
  lemma LowBits(s: Space, c: Change)
    requires InOrder(s) && Sound(s, c) && c.MapPage?
    ensures InOrder(Apply(s, c))
    ensures Leaf(Apply(s, c), c.va) % PAGE_SIZE == c.flags % PAGE_SIZE
    ensures NeedsTable(s, c.va) ==> Entry(Apply(s, c), c.va) % PAGE_SIZE == c.flags % PAGE_SIZE
  {
    StepInOrder(s, c);
    OrLow(PageMask(c.pa), c.flags);
    if NeedsTable(s, c.va) {
      OrLow(c.frame, c.flags);
      LowBitsAdded(s, c);
    } else {
      StoredWord(s, Apply(s, c), c.va, Or(PageMask(c.pa), c.flags), c.va);
    }
  }

  // ---- runs ----

  ghost predicate PlainRun(s: Space, changes: seq<Change>)
    requires InOrder(s)
    decreases |changes|
  {
    changes != [] ==>
      && Plain(changes[0]) && Supplied(s, changes[0])
      && InOrder(Apply(s, changes[0])) && PlainRun(Apply(s, changes[0]), changes[1..])
  }

  lemma {:induction false} PlainIsSound(s: Space, changes: seq<Change>)
    requires InOrder(s) && PlainRun(s, changes)
    ensures SoundRun(s, changes)
    decreases |changes|
  {
    if changes == [] {
    } else {
      PlainSound(s, changes[0]);
      PlainIsSound(Apply(s, changes[0]), changes[1..]);
    }
  }

  function LastLeaf(changes: seq<Change>, va: Word, before: nat): nat
    decreases |changes|
  {
    if changes == [] then before
    else LastLeaf(changes[1..], va, if Writes(changes[0], va) then LeafWritten(changes[0]) else before)
  }

  // Over any run the table word of a page is what the last change of the page left there.
  lemma {:induction false} RunLeaf(s: Space, changes: seq<Change>, va: Word)
    requires InOrder(s) && PlainRun(s, changes)
    ensures SoundRun(s, changes) && InOrder(Run(s, changes))
    ensures Leaf(Run(s, changes), va) == LastLeaf(changes, va, Leaf(s, va))
    decreases |changes|
  {
    PlainIsSound(s, changes);
    if changes == [] {
    } else {
      StepWords(s, changes[0], va);
      RunLeaf(Apply(s, changes[0]), changes[1..], va);
    }
  }

  lemma HasTable(s: Space, va: Word)
    requires InOrder(s)
    ensures NeedsTable(s, va) <==> Entry(s, va) < PAGE_SIZE
  {
  }

  // An entry with a table keeps its word until the boot table is dropped.
  lemma {:induction false} EntryKept(s: Space, changes: seq<Change>, va: Word)
    requires InOrder(s) && PlainRun(s, changes) && !NeedsTable(s, va)
    requires DirIndex(va) == 0 ==> DropBoot !in changes
    ensures SoundRun(s, changes) && InOrder(Run(s, changes))
    ensures Entry(Run(s, changes), va) == Entry(s, va)
    decreases |changes|
  {
    PlainIsSound(s, changes);
    if changes == [] {
    } else {
      StepWords(s, changes[0], va);
      assert changes[0] in changes;
      EntryKept(Apply(s, changes[0]), changes[1..], va);
    }
  }

  // And the word it has is the one it was created with: the first map into it gives it its frame and its flags.
  lemma {:induction false} EntryCreated(s: Space, changes: seq<Change>, k: nat, va: Word)
    requires InOrder(s) && PlainRun(s, changes) && NeedsTable(s, va)
    requires k < |changes| && changes[k].MapPage? && DirIndex(changes[k].va) == DirIndex(va)
    requires forall j :: 0 <= j < k ==> !(changes[j].MapPage? && DirIndex(changes[j].va) == DirIndex(va))
    requires DirIndex(va) == 0 ==> DropBoot !in changes
    ensures SoundRun(s, changes) && InOrder(Run(s, changes))
    ensures Entry(Run(s, changes), va) == changes[k].frame + changes[k].flags
    decreases k
  {
    PlainIsSound(s, changes);
    var r := Apply(s, changes[0]);
    StepWords(s, changes[0], va);
    assert changes[0] in changes;
    if k == 0 {
      EntryKept(r, changes[1..], va);
    } else {
      EntryCreated(r, changes[1..], k - 1, va);
    }
  }

  // ---- what the processor translates ----

  // Both words say PAGE_PRESENT, bit 0.
  ghost function Translated(s: Space, va: Word): Option<nat>
    requires InOrder(s)
  {
    if Entry(s, va) % 2 == 1 && Leaf(s, va) % 2 == 1 then Some(PageMask(Leaf(s, va))) else None
  }

  predicate PresentWords(entry: nat, leaf: nat) {
    (entry != 0 ==> entry >= PAGE_SIZE && entry % 2 == 1) && (leaf != 0 ==> leaf % 2 == 1)
  }

  ghost predicate PresentAt(s: Space, va: Word)
    requires InOrder(s)
  {
    PresentWords(Entry(s, va), Leaf(s, va))
  }

  // Every word in use says so.
  ghost predicate Present(s: Space)
    requires InOrder(s)
  {
    forall va: Word :: PresentAt(s, va)
  }

  // Then the processor translates exactly the addresses get_mapping finds, to the same pages.
  lemma PresentAgrees(s: Space, va: Word)
    requires InOrder(s) && PresentAt(s, va)
    ensures Translated(s, va) == Lookup(s, va)
  {
  }

  // A map keeps it so if its flags say PAGE_PRESENT, or if it empties a word of a table that is there.
  predicate AsksPresent(c: Change) {
    c.MapPage? ==> c.flags % 2 == 1
  }

  lemma Parity(page: nat, flags: nat)
    requires page % PAGE_SIZE == 0
    ensures (page + flags) % 2 == flags % 2
  {
  }

  lemma WrittenParity(c: Change)
    requires c.MapPage?
    ensures LeafWritten(c) % 2 == c.flags % 2
    ensures c.frame % PAGE_SIZE == 0 ==> (c.frame + c.flags) % 2 == c.flags % 2
  {
    Parity(PageMask(c.pa), c.flags);
    if c.frame % PAGE_SIZE == 0 { Parity(c.frame, c.flags); }
  }

  lemma AddedFrame(s: Space, c: Change, va: Word)
    requires InOrder(s) && Supplied(s, c) && Adds(s, c, DirIndex(va))
    ensures c.frame >= PAGE_SIZE && (c.frame + c.flags) % 2 == c.flags % 2 && NeedsTable(s, c.va)
  {
    WrittenParity(c);
  }

  // What a change leaves in the words of an address.
  ghost predicate WordsStep(s: Space, c: Change, va: Word, entry: nat, leaf: nat)
    requires InOrder(s)
  {
    entry == EntryAfter(s, c, va) && leaf == if Writes(c, va) then LeafWritten(c) else Leaf(s, va)
  }

  lemma StepPresentAt(s: Space, c: Change, va: Word)
    requires InOrder(s) && Supplied(s, c) && Plain(c) && PresentAt(s, va)
    requires AsksPresent(c) || (LeafWritten(c) == 0 && !NeedsTable(s, c.va))
    ensures InOrder(Apply(s, c)) && PresentAt(Apply(s, c), va)
  {
    StepWords(s, c, va);
    PresentStep(s, c, va, Entry(Apply(s, c), va), Leaf(Apply(s, c), va));
  }

  lemma PresentStep(s: Space, c: Change, va: Word, entry: nat, leaf: nat)
    requires InOrder(s) && Supplied(s, c) && PresentAt(s, va) && WordsStep(s, c, va, entry, leaf)
    requires AsksPresent(c) || (LeafWritten(c) == 0 && !NeedsTable(s, c.va))
    ensures PresentWords(entry, leaf)
  {
    var adds := Adds(s, c, DirIndex(va));
    if c.MapPage? { WrittenParity(c); }
    if adds { AddedFrame(s, c, va); }
    PresentAfter(Entry(s, va), Leaf(s, va), entry, leaf, c, adds);
  }

  lemma PresentAfter(entry: nat, leaf: nat, entry': nat, leaf': nat, c: Change, adds: bool)
    requires PresentWords(entry, leaf) && (AsksPresent(c) || (LeafWritten(c) == 0 && !adds))
    requires entry' == entry || entry' == 0 || (adds && c.MapPage? && entry' == c.frame + c.flags)
    requires leaf' == leaf || leaf' == LeafWritten(c)
    requires c.MapPage? ==> LeafWritten(c) % 2 == c.flags % 2
    requires adds ==> c.MapPage?
    requires adds ==> c.frame >= PAGE_SIZE && (c.frame + c.flags) % 2 == c.flags % 2
    ensures PresentWords(entry', leaf')
  {
  }

  lemma StepAbsent(s: Space, c: Change)
    requires InOrder(s) && Supplied(s, c) && Plain(c)
    requires !AsksPresent(c) && (LeafWritten(c) != 0 || NeedsTable(s, c.va))
    ensures InOrder(Apply(s, c)) && !PresentAt(Apply(s, c), c.va)
  {
    StepWords(s, c, c.va);
    WrittenParity(c);
  }

  // Exactly then.
  lemma StepPresent(s: Space, c: Change)
    requires InOrder(s) && Supplied(s, c) && Plain(c) && Present(s)
    ensures InOrder(Apply(s, c))
    ensures Present(Apply(s, c)) <==> AsksPresent(c) || (LeafWritten(c) == 0 && !NeedsTable(s, c.va))
  {
    PlainSound(s, c);
    if AsksPresent(c) || (LeafWritten(c) == 0 && !NeedsTable(s, c.va)) {
      forall va: Word ensures PresentAt(Apply(s, c), va) {
        assert PresentAt(s, va);
        StepPresentAt(s, c, va);
      }
    } else {
      StepAbsent(s, c);
    }
  }

  // Over any run of such changes the processor sees at every address what the last change of its page left there.
  lemma {:induction false} RunTranslated(s: Space, changes: seq<Change>, va: Word)
    requires InOrder(s) && PlainRun(s, changes) && Present(s)
    requires forall c :: c in changes ==> AsksPresent(c)
    ensures SoundRun(s, changes) && InOrder(Run(s, changes))
    ensures Translated(Run(s, changes), va) == LastWritten(changes, va, Lookup(s, va))
    decreases |changes|
  {
    PlainIsSound(s, changes);
    if changes == [] {
      PresentAgrees(s, va);
    } else {
      assert changes[0] in changes;
      StepPresent(s, changes[0]);
      StepRefines(s, changes[0], va);
      RunTranslated(Apply(s, changes[0]), changes[1..], va);
    }
  }

  // ---- init_vmm ----

  lemma InitialEntries(base: nat, boot: nat, i: nat)
    requires base % PAGE_SIZE == 0 && boot % PAGE_SIZE == 0
    ensures InitialEntry(base, boot, i) ==
            if i == 0 then boot + 3
            else if 768 <= i < 992 then base + (i - 768) * PAGE_SIZE + 3
            else 0
  {
    OrAdds(boot, PRESENT_WRITE);
    if i >= 768 { OrAdds(base + (i - 768) * PAGE_SIZE, PRESENT_WRITE); }
  }

  lemma LeafAt(s: Space, va: Word, table: nat, word: nat)
    requires InOrder(s) && TableOf(s, DirIndex(va)) == table != 0
    requires table in s.tables && s.tables[table][TableIndex(va)] == word
    ensures Leaf(s, va) == word
  {
  }

  lemma WindowWords(k: nat, j: nat)
    ensures WindowWord(k, j) == (k * ENTRIES + j) * PAGE_SIZE + 3
  {
    OrAdds((k * ENTRIES + j) * PAGE_SIZE, PRESENT_WRITE);
  }

  lemma WindowLeaf(base: nat, boot: nat, content: seq<nat>, va: Word, k: nat, j: nat)
    requires Located(base, boot, content) && k < WINDOW_TABLES
    requires DirIndex(va) == WINDOW_FIRST + k && TableIndex(va) == j && InOrder(Initial(base, boot, content))
    ensures Leaf(Initial(base, boot, content), va) == (k * ENTRIES + j) * PAGE_SIZE + 3
  {
    InitialTable(base, boot, content, WINDOW_FIRST + k);
    WindowContent(base, boot, content, k, j);
    LeafAt(Initial(base, boot, content), va, base + k * PAGE_SIZE, WindowWord(k, j));
    WindowWords(k, j);
  }

  lemma OtherLeaf(base: nat, boot: nat, content: seq<nat>, va: Word)
    requires Located(base, boot, content) && !(0xC000_0000 <= va < 0xF800_0000)
    requires InOrder(Initial(base, boot, content))
    ensures Leaf(Initial(base, boot, content), va) == if va < 0x40_0000 then content[TableIndex(va)] else 0
  {
    InitialTable(base, boot, content, DirIndex(va));
    OutsideIndex(va);
  }

  lemma OutsideIndex(va: Word)
    requires !(0xC000_0000 <= va < 0xF800_0000)
    ensures !(WINDOW_FIRST <= DirIndex(va) < WINDOW_FIRST + WINDOW_TABLES)
    ensures DirIndex(va) == 0 <==> va < 0x40_0000
  {
  }

  // The words init_vmm leaves: in the window every page, present and writable; in entry 0 the boot table; nothing
  // anywhere else.
  lemma InitialWords(base: nat, boot: nat, content: seq<nat>, va: Word)
    requires Located(base, boot, content)
    ensures InOrder(Initial(base, boot, content))
    ensures Entry(Initial(base, boot, content), va) ==
            if va < 0x40_0000 then boot + 3
            else if 0xC000_0000 <= va < 0xF800_0000 then base + (va / 0x40_0000 - 768) * PAGE_SIZE + 3
            else 0
    ensures Leaf(Initial(base, boot, content), va) ==
            if va < 0x40_0000 then content[TableIndex(va)]
            else if 0xC000_0000 <= va < 0xF800_0000 then PageMask(va - 0xC000_0000) + 3
            else 0
  {
    InitialInOrder(base, boot, content);
    InitialEntries(base, boot, DirIndex(va));
    if 0xC000_0000 <= va < 0xF800_0000 {
      WindowIndex(va);
      WindowLeaf(base, boot, content, va, DirIndex(va) - WINDOW_FIRST, TableIndex(va));
    } else {
      OutsideIndex(va);
      OtherLeaf(base, boot, content, va);
    }
  }

  // Every word it leaves is present exactly if the boot loader's are.
  lemma InitialPresent(base: nat, boot: nat, content: seq<nat>)
    requires Located(base, boot, content)
    ensures InOrder(Initial(base, boot, content))
    ensures Present(Initial(base, boot, content)) <==>
            forall j :: 0 <= j < ENTRIES ==> content[j] == 0 || content[j] % 2 == 1
  {
    var s := Initial(base, boot, content);
    InitialInOrder(base, boot, content);
    if forall j :: 0 <= j < ENTRIES ==> content[j] == 0 || content[j] % 2 == 1 {
      forall va: Word ensures PresentAt(s, va) {
        InitialPresentAt(base, boot, content, va);
      }
    } else {
      var j: nat :| j < ENTRIES && content[j] != 0 && content[j] % 2 == 0;
      BootAbsent(base, boot, content, j, j * PAGE_SIZE);
    }
  }

  lemma BootAbsent(base: nat, boot: nat, content: seq<nat>, j: nat, va: Word)
    requires Located(base, boot, content) && InOrder(Initial(base, boot, content))
    requires j < ENTRIES && va == j * PAGE_SIZE && content[j] != 0 && content[j] % 2 == 0
    ensures !PresentAt(Initial(base, boot, content), va)
  {
    InitialWords(base, boot, content, va);
    assert TableIndex(va) == j;
  }

  lemma PresentPages(entry: nat, leaf: nat, table: nat, page: nat)
    requires table % PAGE_SIZE == 0 && page % PAGE_SIZE == 0 && table != 0 && entry == table + 3 && leaf == page + 3
    ensures PresentWords(entry, leaf)
  {
    Parity(table, 3);
    Parity(page, 3);
  }

  lemma TablePage(base: nat, k: nat)
    requires base % PAGE_SIZE == 0
    ensures (base + k * PAGE_SIZE) % PAGE_SIZE == 0
  {
  }

  lemma BootPresent(entry: nat, leaf: nat, boot: nat)
    requires boot % PAGE_SIZE == 0 && boot != 0 && entry == boot + 3 && (leaf == 0 || leaf % 2 == 1)
    ensures PresentWords(entry, leaf)
  {
    Parity(boot, 3);
  }

  lemma WindowPresent(entry: nat, leaf: nat, base: nat, k: nat, offset: nat)
    requires base % PAGE_SIZE == 0 && base != 0
    requires entry == base + k * PAGE_SIZE + 3 && leaf == PageMask(offset) + 3
    ensures PresentWords(entry, leaf)
  {
    TablePage(base, k);
    PresentPages(entry, leaf, base + k * PAGE_SIZE, PageMask(offset));
  }

  lemma InitialPresentAt(base: nat, boot: nat, content: seq<nat>, va: Word)
    requires Located(base, boot, content) && InOrder(Initial(base, boot, content))
    requires va < 0x40_0000 ==> content[TableIndex(va)] == 0 || content[TableIndex(va)] % 2 == 1
    ensures PresentAt(Initial(base, boot, content), va)
  {
    InitialWords(base, boot, content, va);
    var entry, leaf := Entry(Initial(base, boot, content), va), Leaf(Initial(base, boot, content), va);
    if va < 0x40_0000 {
      BootPresent(entry, leaf, boot);
    } else if 0xC000_0000 <= va < 0xF800_0000 {
      WindowPresent(entry, leaf, base, va / 0x40_0000 - 768, va - 0xC000_0000);
    }
  }
}
