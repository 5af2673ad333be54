// The hash map as the source holds it: a node array replaced by each rehash and written in place otherwise.
// Each method is proved to perform the corresponding step of HashTable and to keep the dictionary. A probe loop
// may run for ever, so a method is only callable where it ends, which is an exact condition on the table.

module HashMap {
  import opened Basics
  import opened HashLoad
  import opened HashRuns
  import opened HashTable

  class Map {
    var capacity: nat
    var capacityLevel: nat
    var size: nat
    var list: array<Slot>

    ghost predicate Valid()
      reads this
    {
      3 <= capacityLevel <= 27 && capacity == PRIMES[capacityLevel] == list.Length
    }

    ghost function State(): (t: Table)
      requires Valid()
      reads this, list
      ensures Shape(t)
    {
      Table(capacityLevel, size, list[..])
    }

    // map_init
    constructor ()
      ensures Valid() && State() == Init() && fresh(list)
    {
      capacityLevel := 3;
      capacity := 7;
      size := 0;
      list := new Slot[7](_ => BLANK);
      new;
      assert list[..] == Init().slots;
    }

    // _map_find
    method FindIndex(key: nat) returns (index: Option<nat>)
      requires Valid() && (Present(list[..], key) || HasEmpty(list[..]))
      ensures FindSlot(State().slots, key) == Ends(index)
    {
      FindEnds(State(), key);
      ghost var slots := list[..];
      var probeLevel := 0;
      while ContinuesFind(list[Path(key, capacity, probeLevel)])
        invariant probeLevel < TWO32
        invariant FirstFind(slots, key, probeLevel) == FirstFind(slots, key, 0) < TWO32
        decreases TWO32 - probeLevel
      {
        var node := list[Path(key, capacity, probeLevel)];
        if node.key == key && node.status == Occupied {
          return Some(Path(key, capacity, probeLevel));
        }
        probeLevel := probeLevel + 1;
      }
      index := None;
    }

    predicate ContinuesFind(node: Slot) {
      node.status == Occupied || node.status == Deleted
    }

    // map_find
    method Find(key: nat) returns (value: Option<nat>)
      requires Valid() && (Present(list[..], key) || HasEmpty(list[..]))
      ensures forall m :: Sound(State(), m) ==> value == if key in m then Some(m[key]) else None
    {
      var index := FindIndex(key);
      value := None;
      if index.Some? {
        value := Some(list[index.value].value);
      }
      forall m | Sound(State(), m) ensures value == if key in m then Some(m[key]) else None {
        FindCorrect(State(), m, key);
      }
    }

    // map_insert, on the table of dictionary m: an absent key is added; a present one leaves no dictionary's table.
    method Insert(key: nat, value: nat, ghost m: map<nat, nat>)
      requires Valid() && Sound(State(), m) && Permitted(State(), InsertOp(key, value))
      modifies this, list
      ensures Valid() && HashTable.Insert(old(State()), key, value) == Ends(State())
      ensures if key in m then Broken(State()) else Sound(State(), m[key := value])
      ensures capacityLevel == old(if capacityLevel < 27 && 4 * size >= 3 * capacity then capacityLevel + 1
                                   else capacityLevel)
      ensures size == old(size) + 1
      ensures list == old(list) || fresh(list)
      decreases 28 - capacityLevel, 0, 1
    {
      ghost var before := State();
      InsertPlan(before, m, key, value);
      InsertLevel(before, m, key, value);
      Grow(m);
      Put(key, value);
    }

    // The growth at the start of map_insert.
    method Grow(ghost m: map<nat, nat>)
      requires Valid() && Sound(State(), m)
      modifies this
      ensures Valid() && Grown(old(State())) == Ends(State()) && (list == old(list) || fresh(list))
      decreases 28 - capacityLevel, 0, 0
    {
      LimitsLeaveRoom(State());
      if capacityLevel < 27 && (capacity - size) * LOAD_MAX <= (LOAD_DIVISOR - LOAD_MAX) * size {
        Rehash(capacityLevel + 1, m);
      }
    }

    // What there is to know before an insertion: it ends, in two steps, with this outcome.
    lemma InsertPlan(t: Table, m: map<nat, nat>, key: nat, value: nat)
      requires Sound(t, m) && Permitted(t, InsertOp(key, value))
      ensures var r, u := HashTable.Insert(t, key, value), Grown(t);
        && u.Ends? && Shape(u.value) && r.Ends? && r == InsertSlot(u.value, key, value)
        && (Present(u.value.slots, key) || Count(u.value.slots) < |u.value.slots|)
        && if key in m then Broken(r.value) else Sound(r.value, m[key := value])
    {
      InsertCorrect(t, m, key, value);
      StepEnds(t, m, InsertOp(key, value));
      InsertSteps(t, key, value);
      GrownCorrect(t, m);
      InsertSlotEnds(Grown(t).value, key, value);
    }

    // The second half of map_insert.
    method Put(key: nat, value: nat)
      requires Valid() && (Present(list[..], key) || Count(list[..]) < list.Length)
      modifies this`size, list
      ensures Valid() && InsertSlot(old(State()), key, value) == Ends(State())
    {
      ghost var t := State();
      InsertSlotEnds(t, key, value);
      var probeLevel := 0;
      while list[Path(key, capacity, probeLevel)].status == Occupied
        invariant probeLevel < TWO32
        invariant FirstInsert(t.slots, key, probeLevel) == FirstInsert(t.slots, key, 0) < TWO32
        decreases TWO32 - probeLevel
      {
        if list[Path(key, capacity, probeLevel)].key == key {
          break;
        }
        probeLevel := probeLevel + 1;
      }
      list[Path(key, capacity, probeLevel)] := Slot(key, value, Occupied);
      size := size + 1;
      assert InsertSlot(t, key, value) == Ends(State());
    }

    // map_rehash, into room for the keys of dictionary m
    method Rehash(newLevel: nat, ghost m: map<nat, nat>)
      requires Valid() && 3 <= newLevel <= 27 && Sound(State(), m) && 4 * size < 3 * PRIMES[newLevel] + 4
      modifies this
      ensures Valid() && HashTable.Rehash(old(State()), newLevel) == Ends(State())
      ensures Sound(State(), m) && capacityLevel == newLevel && size == old(size) && fresh(list)
      decreases 28 - newLevel, 3
    {
      ghost var t := State();
      RehashCorrect(t, m, newLevel);
      var oldList := list;
      Renew(newLevel);
      BlankMoving(t, m, State());
      Fill(oldList, m);
    }

    // An empty list of the new capacity.
    method Renew(newLevel: nat)
      requires 3 <= newLevel <= 27
      modifies this
      ensures Valid() && State() == Table(newLevel, 0, seq(PRIMES[newLevel], _ => BLANK)) && fresh(list)
    {
      list := new Slot[PRIMES[newLevel]](_ => BLANK);
      capacityLevel := newLevel;
      capacity := PRIMES[newLevel];
      size := 0;
      assert list[..] == seq(PRIMES[newLevel], _ => BLANK);
    }

    // The loop over the old list.
    method Fill(oldList: array<Slot>, ghost m: map<nat, nat>)
      requires Valid() && oldList != list && Moving(oldList[..], 0, State(), m, map[])
      modifies this, list
      ensures Valid() && RehashFrom(oldList[..], 0, old(State())) == Ends(State()) && oldList[..] == old(oldList[..])
      ensures list == old(list) || fresh(list)
      decreases 28 - capacityLevel, 2
    {
      ghost var from, t := oldList[..], State();
      ghost var done: map<nat, nat> := map[];
      for i := 0 to oldList.Length
        invariant Valid() && oldList != list && capacityLevel == old(capacityLevel) && oldList[..] == from
        invariant list == old(list) || fresh(list)
        invariant RehashFrom(from, i, State()) == RehashFrom(from, 0, t) && Moving(from, i, State(), m, done)
      {
        if oldList[i].status == Occupied {
          done := MoveEntry(from, i, m, done, oldList[i].key, oldList[i].value);
        } else {
          SkipSlot(from, i, State(), m, done);
        }
      }
    }

    // An entry of the old list goes into the new one through map_insert.
    method MoveEntry(ghost from: seq<Slot>, ghost i: nat, ghost m: map<nat, nat>, ghost done: map<nat, nat>,
            key: nat, value: nat) returns (ghost more: map<nat, nat>)
      requires Valid() && i < |from| && from[i] == Slot(key, value, Occupied) && Moving(from, i, State(), m, done)
      modifies this, list
      ensures Valid() && capacityLevel == old(capacityLevel) && (list == old(list) || fresh(list))
      ensures RehashFrom(from, i + 1, State()) == RehashFrom(from, i, old(State()))
      ensures Moving(from, i + 1, State(), m, more)
      decreases 28 - capacityLevel, 1
    {
      ghost var before := State();
      NoNestedGrow(from, i, before, m, done);
      MoveRoom(from, i, before, m, done);
      MoveSlot(from, i, before, m, done);
      more := done[key := value];
      this.Insert(key, value, done);
    }

    lemma BlankMoving(t: Table, m: map<nat, nat>, blank: Table)
      requires Sound(t, m) && Shape(blank) && blank.size == 0 && blank.slots == seq(|blank.slots|, _ => BLANK)
      requires 4 * t.size < 3 * |blank.slots| + 4
      ensures Moving(t.slots, 0, blank, m, map[])
    {
      CountBlank(|blank.slots|);
      assert t.slots[..0] == [];
    }

    // map_delete, on the table of dictionary m
    method Delete(key: nat, ghost m: map<nat, nat>)
      requires Valid() && Sound(State(), m) && Permitted(State(), DeleteOp(key))
      modifies this, list
      ensures Valid() && HashTable.Delete(old(State()), key) == Ends(State())
      ensures Sound(State(), m - {key})
      ensures capacityLevel == old(if capacityLevel > 3 && 4 * size <= capacity then capacityLevel - 1
                                   else capacityLevel)
      ensures size == if key in m then old(size) - 1 else old(size)
      ensures list == old(list) || fresh(list)
    {
      ghost var before := State();
      DeletePlan(before, m, key);
      DeleteLevel(before, m, key);
      Shrink(m);
      Remove(key);
    }

    lemma DeletePlan(t: Table, m: map<nat, nat>, key: nat)
      requires Sound(t, m) && Permitted(t, DeleteOp(key))
      ensures var r, u := HashTable.Delete(t, key), Shrunk(t);
        && u.Ends? && Shape(u.value) && r.Ends? && r == DeleteSlot(u.value, key)
        && (Present(u.value.slots, key) || HasEmpty(u.value.slots)) && Sound(r.value, m - {key})
    {
      DeleteCorrect(t, m, key);
      StepEnds(t, m, DeleteOp(key));
      DeleteSteps(t, key);
      ShrunkCorrect(t, m);
      FindEnds(Shrunk(t).value, key);
    }

    // The shrinking at the start of map_delete.
    method Shrink(ghost m: map<nat, nat>)
      requires Valid() && Sound(State(), m)
      modifies this
      ensures Valid() && Shrunk(old(State())) == Ends(State()) && (list == old(list) || fresh(list))
    {
      LimitsLeaveRoom(State());
      if capacityLevel > 3 && (capacity - size) * LOAD_MIN >= (LOAD_DIVISOR - LOAD_MIN) * size {
        Rehash(capacityLevel - 1, m);
      }
    }

    // The second half of map_delete.
    method Remove(key: nat)
      requires Valid() && (Present(list[..], key) || HasEmpty(list[..]))
      modifies this`size, list
      ensures Valid() && DeleteSlot(old(State()), key) == Ends(State())
    {
      ghost var t := State();
      var index := FindIndex(key);
      if index.Some? {
        list[index.value] := list[index.value].(status := Deleted);
        size := if size > 0 then size - 1 else TWO32 - 1;
      }
      assert DeleteSlot(t, key) == Ends(State());
    }
  }
}
