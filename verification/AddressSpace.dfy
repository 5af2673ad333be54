// The kernel's page directory and page tables as arrays written in place, proved to perform the steps of
// PageTable.

module AddressSpace {
  import opened Basics
  import opened Rounding
  import opened PageTable
  import opened PageWords

  ghost function WithTable(s: Space, i: nat, frame: nat, flags: nat): Space
    requires i < |s.directory|
  {
    Space(s.directory[i := Or(frame, flags)], s.tables[frame := Blank()])
  }

  lemma AddedThenWritten(s: Space, va: Word, pa: Word, flags: Word, frame: nat)
    requires InOrder(s) && NeedsTable(s, va)
    ensures WithWord(WithTable(s, DirIndex(va), frame, flags), frame, TableIndex(va), Or(PageMask(pa), flags)) ==
            Map(s, va, pa, flags, frame)
  {
  }

  class Paging {
    const pd: array<nat>
    var memory: map<nat, array<nat>>    // the page tables, under their physical addresses

    ghost function State(): Space
      reads this, pd, memory.Values
    {
      Space(pd[..], Tables())
    }

    ghost function Tables(): map<nat, seq<nat>>
      reads this, memory.Values
    {
      map b | b in memory :: memory[b][..]
    }

    ghost predicate Separate()
      reads this
    {
      && pd.Length == ENTRIES
      && (forall b :: b in memory ==> memory[b] != pd && memory[b].Length == ENTRIES)
      && (forall b, c :: b in memory && c in memory && memory[b] == memory[c] ==> b == c)
    }

    ghost predicate Valid()
      reads this, pd, memory.Values
    {
      Separate() && InOrder(State())
    }

    // init_vmm, up to the switch to the new directory.
    constructor (base: nat, boot: nat, bootTable: array<nat>)
      requires bootTable.Length == ENTRIES && Located(base, boot, bootTable[..])
      ensures Valid() && State() == Initial(base, boot, bootTable[..])
      ensures fresh(pd) && fresh(memory.Values - {bootTable})
    {
      pd := new nat[ENTRIES](_ => 0);
      memory := map[];
      new;
      PointTables(base, boot);
      FillTables(base);
      assert forall b :: b in memory ==> memory[b] in memory.Values;
      ghost var filled := memory;
      KeepBootTable(base, boot, bootTable);
      InitialInOrder(base, boot, bootTable[..]);
      assert forall t :: t in memory.Values ==> t == bootTable || t in filled.Values;
    }

    ghost predicate Knows(table: array<nat>)
      reads this
    {
      table == pd || exists b :: b in memory && memory[b] == table
    }

    // The boot loader's table is already in physical memory.
    method KeepBootTable(base: nat, boot: nat, bootTable: array<nat>)
      requires Separate() && Tables() == WindowTables(base, WINDOW_TABLES) && !Knows(bootTable)
      requires bootTable.Length == ENTRIES && Located(base, boot, bootTable[..])
      modifies this`memory
      ensures Separate() && Tables() == WindowTables(base, WINDOW_TABLES)[boot := bootTable[..]]
      ensures memory == old(memory)[boot := bootTable]
    {
      assert boot !in Tables();
      memory := memory[boot := bootTable];
    }

    method PointTables(base: nat, boot: nat)
      requires pd.Length == ENTRIES && forall i :: 0 <= i < ENTRIES ==> pd[i] == 0
      modifies pd
      ensures pd[..] == InitialDirectory(base, boot)
    {
      for i := 0 to WINDOW_FIRST
        invariant forall j :: 0 <= j < ENTRIES ==> pd[j] == 0
      {
        pd[i] := 0;
      }
      for i := 0 to WINDOW_TABLES
        invariant forall j :: 0 <= j < ENTRIES ==>
          pd[j] ==
            if WINDOW_FIRST <= j < WINDOW_FIRST + i then Or(base + (j - WINDOW_FIRST) * PAGE_SIZE, PRESENT_WRITE) else 0
      {
        pd[i + WINDOW_FIRST] := Or(base + i * PAGE_SIZE, PRESENT_WRITE);
      }
      pd[0] := Or(boot, PRESENT_WRITE);
    }

    method FillTables(base: nat)
      requires memory == map[] && pd.Length == ENTRIES
      modifies this`memory
      ensures Separate() && fresh(memory.Values) && Tables() == WindowTables(base, WINDOW_TABLES)
    {
      for i := 0 to WINDOW_TABLES
        invariant Separate() && fresh(memory.Values) && Tables() == WindowTables(base, i)
      {
        FillNext(base, i);
      }
    }

    method FillNext(base: nat, i: nat)
      requires Separate() && Tables() == WindowTables(base, i)
      modifies this`memory
      ensures Separate() && fresh(memory.Values - old(memory.Values)) && Tables() == WindowTables(base, i + 1)
    {
      var table := FillTable(i);
      ghost var was := Tables();
      assert base + i * PAGE_SIZE !in was;
      memory := memory[base + i * PAGE_SIZE := table];
      assert Tables() == was[base + i * PAGE_SIZE := table[..]];
    }

    static method FillTable(i: nat) returns (table: array<nat>)
      ensures fresh(table) && table[..] == WindowTable(i)
    {
      table := new nat[ENTRIES];
      for j := 0 to ENTRIES
        invariant forall k :: 0 <= k < j ==> table[k] == WindowWord(i, k)
      {
        var k := i * ENTRIES + j;
        table[j] := Or(k * PAGE_SIZE, PRESENT_WRITE);
      }
    }

    // A page of physical memory set to zero.
    static method ClearPage() returns (table: array<nat>)
      ensures fresh(table) && table[..] == Blank()
    {
      table := new nat[ENTRIES];
      for j := 0 to ENTRIES
        invariant forall k :: 0 <= k < j ==> table[k] == 0
      {
        table[j] := 0;
      }
    }

    method WriteWord(table: nat, j: nat, word: nat)
      requires Separate() && table in memory && j < ENTRIES
      modifies memory[table]
      ensures Separate() && State() == WithWord(old(State()), table, j, word)
    {
      memory[table][j] := word;
      assert State().tables == WithWord(old(State()), table, j, word).tables;
    }

    method AddTable(i: nat, frame: nat, flags: nat)
      requires Separate() && i < ENTRIES && frame !in memory
      modifies this`memory, pd
      ensures Separate() && memory.Keys == old(memory).Keys + {frame} && fresh(memory[frame])
      ensures State() == WithTable(old(State()), i, frame, flags)
      ensures forall b :: b in old(memory) ==> memory[b] == old(memory)[b]
    {
      var table := ClearPage();
      pd[i] := Or(frame, flags);
      memory := memory[frame := table];
      assert Tables() == old(Tables())[frame := Blank()];
    }

    // The table an address belongs to, added if there is none.
    method TableFor(va: Word, pa: Word, flags: Word, frame: nat, ghost s: Space) returns (table: nat)
      requires Separate() && s == State() && InOrder(s) && Sound(s, MapPage(va, pa, flags, frame))
      modifies this`memory, pd
      ensures Separate() && table in memory && (memory[table] in old(memory.Values) || fresh(memory[table]))
      ensures TableIndex(va) < |State().tables[table]|
      ensures WithWord(State(), table, TableIndex(va), Or(PageMask(pa), flags)) ==
        PageTable.Map(s, va, pa, flags, frame)
    {
      table := PageMask(pd[DirIndex(va)]);
      assert table == TableOf(s, DirIndex(va));
      if table == 0 {
        table := frame;
        AddTable(DirIndex(va), frame, flags);
        assert State().tables[frame] == Blank();
        AddedThenWritten(s, va, pa, flags, frame);
      } else {
        assert s.tables[table] == memory[table][..];
      }
    }

    // map
    method Map(va: Word, pa: Word, flags: Word, frame: nat)
      requires Valid() && Sound(State(), MapPage(va, pa, flags, frame))
      modifies this`memory, pd, memory.Values
      ensures Valid() && State() == Apply(old(State()), MapPage(va, pa, flags, frame))
      ensures Leaf(State(), va) % PAGE_SIZE == flags % PAGE_SIZE
      ensures old(NeedsTable(State(), va)) ==> pd[DirIndex(va)] % PAGE_SIZE == flags % PAGE_SIZE
      ensures !old(NeedsTable(State(), va)) ==> pd[..] == old(pd[..])
    {
      StepInOrder(State(), MapPage(va, pa, flags, frame));
      LowBits(State(), MapPage(va, pa, flags, frame));
      var table := TableFor(va, pa, flags, frame, State());
      WriteWord(table, TableIndex(va), Or(PageMask(pa), flags));
    }

    // unmap
    method Unmap(va: Word)
      requires Valid()
      modifies memory.Values
      ensures Valid() && State() == Apply(old(State()), UnmapPage(va))
    {
      ghost var s := State();
      StepInOrder(s, UnmapPage(va));
      var table := PageMask(pd[DirIndex(va)]);
      assert table == TableOf(s, DirIndex(va));
      if table == 0 {
        return;
      }
      WriteWord(table, TableIndex(va), 0);
    }

    // get_mapping; `wanted` says whether the caller passed a place for the result.
    method GetMapping(va: Word, wanted: bool) returns (found: bool, pa: nat)
      requires Valid()
      ensures found <==> wanted && Lookup(State(), va).Some?
      ensures found ==> pa == Lookup(State(), va).value
    {
      pa := 0;
      var table := PageMask(pd[DirIndex(va)]);
      assert table == TableOf(State(), DirIndex(va));
      if table == 0 {
        return false, pa;
      }
      assert memory[table][..] == State().tables[table];
      var word := memory[table][TableIndex(va)];
      if word != 0 && wanted {
        return true, PageMask(word);
      }
      return false, pa;
    }

    // What kernel_main does to entry 0.
    method DropBootTable()
      requires Valid()
      modifies this`memory, pd
      ensures Valid() && State() == Apply(old(State()), DropBoot)
    {
      StepInOrder(State(), DropBoot);
      memory := memory - {PageMask(pd[0])};
      pd[0] := 0;
      assert State().tables == Apply(old(State()), DropBoot).tables;
    }
  }
}
