// How full the hash map gets: its level after each operation in numbers, the load over whole runs, and what that
// means for searches for absent keys.

module HashLoad {
  import opened Basics
  import opened HashTable
  import opened HashRuns

  // ---- one operation ----

  lemma GrownLevel(t: Table, m: map<nat, nat>)
    requires Sound(t, m)
    ensures Grown(t).Ends? && Shape(Grown(t).value)
    ensures Grown(t).value.level == if t.level < 27 && 4 * t.size >= 3 * |t.slots| then t.level + 1 else t.level
    ensures Grown(t).value.size == t.size
  {
    GrownCorrect(t, m);
    LimitsLeaveRoom(t);
    if NeedsGrow(t) { RehashCorrect(t, m, t.level + 1); }
  }

  // map_insert moves to the next level exactly if three quarters of the slots are occupied, below level 27.
  lemma InsertLevel(t: Table, m: map<nat, nat>, key: nat, value: nat)
    requires Sound(t, m) && Insert(t, key, value).Ends?
    ensures var r := Insert(t, key, value).value;
      && r.level == (if t.level < 27 && 4 * t.size >= 3 * |t.slots| then t.level + 1 else t.level)
      && r.size == t.size + 1 && |r.slots| == PRIMES[r.level]
  {
    GrownLevel(t, m);
    InsertSteps(t, key, value);
  }

  lemma ShrunkLevel(t: Table, m: map<nat, nat>)
    requires Sound(t, m)
    ensures Shrunk(t).Ends? && Sound(Shrunk(t).value, m)
    ensures Shrunk(t).value.level == if t.level > 3 && 4 * t.size <= |t.slots| then t.level - 1 else t.level
    ensures Shrunk(t).value.size == t.size
  {
    ShrunkCorrect(t, m);
    LimitsLeaveRoom(t);
    if NeedsShrink(t) { RehashCorrect(t, m, t.level - 1); }
  }

  lemma DeleteSlotLevel(t: Table, m: map<nat, nat>, key: nat)
    requires Sound(t, m) && DeleteSlot(t, key).Ends?
    ensures var r := DeleteSlot(t, key).value;
      r.level == t.level && r.size == (if key in m then t.size - 1 else t.size) && |r.slots| == |t.slots|
  {
    FindCorrect(t, m, key);
    DeleteSlotCorrect(t, m, key);
    SizeIsCardinality(t.slots, m);
  }

  // map_delete moves to the level below exactly if at most a quarter is, above level 3.
  lemma DeleteLevel(t: Table, m: map<nat, nat>, key: nat)
    requires Sound(t, m) && Delete(t, key).Ends?
    ensures var r := Delete(t, key).value;
      && r.level == (if t.level > 3 && 4 * t.size <= |t.slots| then t.level - 1 else t.level)
      && r.size == (if key in m then t.size - 1 else t.size) && |r.slots| == PRIMES[r.level]
  {
    ShrunkLevel(t, m);
    DeleteSteps(t, key);
    DeleteSlotLevel(Shrunk(t).value, m, key);
  }

  // ---- runs ----

  // Below the last level at most three quarters of the slots are occupied, give or take the last insertion; above
  // the first level at least a quarter is, give or take the last deletion.
  predicate Loaded(t: Table) {
    && Shape(t)
    && (t.level < 27 ==> 4 * t.size < 3 * |t.slots| + 4)
    && (t.level > 3 ==> |t.slots| < 4 * (t.size + 1))
  }

  lemma Apart(level: nat)
    requires 3 <= level <= 26
    ensures PRIMES[level] + 4 <= PRIMES[level + 1] < 3 * PRIMES[level]
  {
  }

  lemma StepLoaded(t: Table, m: map<nat, nat>, op: Op)
    requires Sound(t, m) && Loaded(t) && Apply(t, op).Ends?
    ensures Loaded(Apply(t, op).value)
  {
    if t.level < 27 { Apart(t.level); }
    if t.level > 3 { Apart(t.level - 1); }
    match op {
      case InsertOp(key, value) => InsertLevel(t, m, key, value);
      case DeleteOp(key) => DeleteLevel(t, m, key);
      case FindOp(_) =>
    }
  }

  // Over every run of fresh inserts, deletes and finds that ends the load stays between those limits.
  lemma {:induction false} RunLoaded(t: Table, m: map<nat, nat>, ops: seq<Op>)
    requires Sound(t, m) && Loaded(t) && FreshInserts(m, ops) && Run(t, ops).Ends?
    ensures Loaded(Run(t, ops).value)
    decreases |ops|
  {
    if ops == [] {
    } else {
      StepLoaded(t, m, ops[0]);
      StepSound(t, m, ops[0]);
      RunLoaded(Apply(t, ops[0]).value, Meaning(m, ops[0]), ops[1..]);
    }
  }

  lemma InitLoaded()
    ensures Sound(Init(), map[]) && Loaded(Init()) && NoTombstone(Init().slots)
  {
    InitSound();
  }

  // Growing is not undone by the next deletion, nor shrinking by the next insertion.
  lemma NoThrashing(t: Table, m: map<nat, nat>, key: nat, value: nat, other: nat)
    requires Sound(t, m) && Loaded(t) && key !in m
    requires Insert(t, key, value).Ends?
    ensures var r := Insert(t, key, value).value;
      r.level > t.level && Delete(r, other).Ends? ==> Delete(r, other).value.level == r.level
  {
    InsertCorrect(t, m, key, value);
    InsertLevel(t, m, key, value);
    var r := Insert(t, key, value).value;
    if r.level > t.level && Delete(r, other).Ends? {
      Apart(t.level);
      DeleteLevel(r, m[key := value], other);
    }
  }

  lemma NoThrashingBack(t: Table, m: map<nat, nat>, key: nat, other: nat, value: nat)
    requires Sound(t, m) && Loaded(t) && Delete(t, key).Ends?
    ensures var r := Delete(t, key).value;
      r.level < t.level && Insert(r, other, value).Ends? ==> Insert(r, other, value).value.level == r.level
  {
    DeleteCorrect(t, m, key);
    DeleteLevel(t, m, key);
    var r := Delete(t, key).value;
    if r.level < t.level && Insert(r, other, value).Ends? {
      Halving(r.level, t.size);
      InsertLevel(r, m - {key}, other, value);
    }
  }

  // A quarter of a capacity is less than three quarters of the one before.
  lemma Halving(level: nat, size: nat)
    requires 3 <= level <= 26 && 4 * size <= PRIMES[level + 1]
    ensures 4 * size < 3 * PRIMES[level]
  {
    Apart(level);
  }

  // ---- without deletions ----

  // Inserts of absent keys and finds of any key, with fewer keys than the largest table has slots.
  predicate NoDeletions(m: map<nat, nat>, ops: seq<Op>)
    decreases |ops|
  {
    |m| < PRIMES[27] && (ops == [] || (
      && !ops[0].DeleteOp? && (ops[0].InsertOp? ==> ops[0].key !in m)
      && NoDeletions(Meaning(m, ops[0]), ops[1..])))
  }

  lemma LeftEmpty(t: Table, m: map<nat, nat>)
    requires Sound(t, m) && Loaded(t) && NoTombstone(t.slots) && |m| < PRIMES[27]
    ensures HasEmpty(t.slots)
  {
    Capacity(t.level);
    SizeIsCardinality(t.slots, m);
    VacantIsEmpty(t);
  }

  lemma InsertNoTombstone(t: Table, m: map<nat, nat>, key: nat, value: nat)
    requires Sound(t, m) && NoTombstone(t.slots) && Insert(t, key, value).Ends?
    ensures NoTombstone(Insert(t, key, value).value.slots)
  {
    GrownCorrect(t, m);
    LimitsLeaveRoom(t);
    if NeedsGrow(t) { RehashCorrect(t, m, t.level + 1); }
    InsertSteps(t, key, value);
    InsertSlotNoTombstone(Grown(t).value, key, value);
  }

  lemma QuietStep(t: Table, m: map<nat, nat>, op: Op)
    requires Sound(t, m) && Loaded(t) && NoTombstone(t.slots) && |m| < PRIMES[27]
    requires !op.DeleteOp? && (op.InsertOp? ==> op.key !in m)
    ensures Apply(t, op).Ends?
    ensures Sound(Apply(t, op).value, Meaning(m, op)) && Loaded(Apply(t, op).value)
    ensures NoTombstone(Apply(t, op).value.slots)
  {
    LeftEmpty(t, m);
    SizeIsCardinality(t.slots, m);
    StepEnds(t, m, op);
    StepSound(t, m, op);
    StepLoaded(t, m, op);
    if op.InsertOp? { InsertNoTombstone(t, m, op.key, op.value); }
  }

  // Such a run ends from a new map on, and every find, of absent keys too, gives the dictionary's answer.
  lemma {:induction false} QuietRunEnds(t: Table, m: map<nat, nat>, ops: seq<Op>)
    requires Sound(t, m) && Loaded(t) && NoTombstone(t.slots) && NoDeletions(m, ops)
    ensures Run(t, ops).Ends? && Sound(Run(t, ops).value, RunMeaning(m, ops))
    ensures Results(t, ops) == MeantResults(m, ops)
    decreases |ops|
  {
    if ops == [] {
    } else {
      var op := ops[0];
      QuietStep(t, m, op);
      if op.FindOp? { FindCorrect(t, m, op.key); }
      QuietRunEnds(Apply(t, op).value, Meaning(m, op), ops[1..]);
    }
  }
}
