// Runs of hash map operations against a dictionary, and when the probe loops end.

module HashRuns {
  import opened Basics
  import opened Powers
  import opened Primes
  import opened HashTable

  datatype Op = InsertOp(key: nat, value: nat) | DeleteOp(key: nat) | FindOp(key: nat)

  function Apply(t: Table, op: Op): (r: Outcome<Table>)
    requires Shape(t)
    ensures r.Ends? ==> Shape(r.value)
  {
    match op
    case InsertOp(key, value) => Insert(t, key, value)
    case DeleteOp(key) => Delete(t, key)
    case FindOp(key) => if FindSlot(t.slots, key).Diverges? then Diverges else Ends(t)
  }

  function Run(t: Table, ops: seq<Op>): Outcome<Table>
    requires Shape(t)
    decreases |ops|
  {
    if ops == [] then Ends(t) else
      match Apply(t, ops[0])
      case Diverges => Diverges
      case Ends(u) => Run(u, ops[1..])
  }

  function Meaning(m: map<nat, nat>, op: Op): map<nat, nat> {
    match op
    case InsertOp(key, value) => m[key := value]
    case DeleteOp(key) => m - {key}
    case FindOp(_) => m
  }

  function RunMeaning(m: map<nat, nat>, ops: seq<Op>): map<nat, nat>
    decreases |ops|
  {
    if ops == [] then m else RunMeaning(Meaning(m, ops[0]), ops[1..])
  }

  // The kernel inserts process identifiers it has just made up: keys that are absent.
  predicate FreshInserts(m: map<nat, nat>, ops: seq<Op>)
    decreases |ops|
  {
    ops == [] || ((ops[0].InsertOp? ==> ops[0].key !in m) && FreshInserts(Meaning(m, ops[0]), ops[1..]))
  }

  // ---- what a caller can check ----

  // The operation ends: the table holds the key, has a free slot of the right kind, or is about to be rehashed.
  ghost predicate Permitted(t: Table, op: Op)
    requires Shape(t)
  {
    match op
    case FindOp(key) => Present(t.slots, key) || HasEmpty(t.slots)
    case InsertOp(key, _) => Present(t.slots, key) || t.level < 27 || t.size < |t.slots|
    case DeleteOp(key) => NeedsShrink(t) || Present(t.slots, key) || HasEmpty(t.slots)
  }

  lemma StepEnds(t: Table, m: map<nat, nat>, op: Op)
    requires Sound(t, m)
    ensures Apply(t, op).Ends? <==> Permitted(t, op)
  {
    match op {
      case FindOp(key) => FindCorrect(t, m, key);
      case InsertOp(key, value) => InsertCorrect(t, m, key, value);
      case DeleteOp(key) => DeleteCorrect(t, m, key);
    }
  }

  lemma StepSound(t: Table, m: map<nat, nat>, op: Op)
    requires Sound(t, m) && Apply(t, op).Ends?
    ensures if op.InsertOp? && op.key in m then Broken(Apply(t, op).value)
      else Sound(Apply(t, op).value, Meaning(m, op))
  {
    match op {
      case FindOp(_) =>
      case InsertOp(key, value) => InsertCorrect(t, m, key, value);
      case DeleteOp(key) => DeleteCorrect(t, m, key);
    }
  }

  // Before each operation of the run it is permitted.
  ghost predicate Checked(t: Table, ops: seq<Op>)
    requires Shape(t)
    decreases |ops|
  {
    ops == [] || (Permitted(t, ops[0]) && (Apply(t, ops[0]).Ends? ==> Checked(Apply(t, ops[0]).value, ops[1..])))
  }

  // ---- what the callers see ----

  // map_find on the table and on the dictionary.
  function Found(t: Table, key: nat): Option<nat>
    requires Shape(t)
  {
    match FindSlot(t.slots, key)
    case Ends(Some(s)) => if s < |t.slots| then Some(t.slots[s].value) else None
    case _ => None
  }

  function Wanted(m: map<nat, nat>, key: nat): Option<nat> {
    if key in m then Some(m[key]) else None
  }

  function Results(t: Table, ops: seq<Op>): seq<Option<nat>>
    requires Shape(t)
    decreases |ops|
  {
    if ops == [] then [] else
      var rest := if Apply(t, ops[0]).Ends? then Results(Apply(t, ops[0]).value, ops[1..]) else [];
      if ops[0].FindOp? then [Found(t, ops[0].key)] + rest else rest
  }

  function MeantResults(m: map<nat, nat>, ops: seq<Op>): seq<Option<nat>>
    decreases |ops|
  {
    if ops == [] then [] else
      var rest := MeantResults(Meaning(m, ops[0]), ops[1..]);
      if ops[0].FindOp? then [Wanted(m, ops[0].key)] + rest else rest
  }

  // ---- runs ----

  // A run of fresh inserts, deletes and finds ends exactly if each operation is permitted where it is made.
  // Then it leaves the table of the dictionary the run describes, through every growing and shrinking
  // rehash, and every find on the way has returned what that dictionary holds.
  lemma {:induction false} RunRefines(t: Table, m: map<nat, nat>, ops: seq<Op>)
    requires Sound(t, m) && FreshInserts(m, ops)
    ensures Run(t, ops).Ends? <==> Checked(t, ops)
    ensures Run(t, ops).Ends? ==> Sound(Run(t, ops).value, RunMeaning(m, ops))
    ensures Run(t, ops).Ends? ==> Results(t, ops) == MeantResults(m, ops)
    decreases |ops|
  {
    if ops == [] {
    } else {
      var op := ops[0];
      StepEnds(t, m, op);
      if Apply(t, op).Ends? {
        StepSound(t, m, op);
        RunRefines(Apply(t, op).value, Meaning(m, op), ops[1..]);
        if op.FindOp? { FindCorrect(t, m, op.key); }
      }
    }
  }

  // Every table on the way is that of the dictionary.
  ghost predicate SoundThroughout(t: Table, m: map<nat, nat>, ops: seq<Op>)
    requires Shape(t)
    decreases |ops|
  {
    && Sound(t, m)
    && (ops == [] || (Apply(t, ops[0]).Ends? && SoundThroughout(Apply(t, ops[0]).value, Meaning(m, ops[0]), ops[1..])))
  }

  // Inserting fresh keys only is not just enough, it is what the map asks for.
  lemma {:induction false} RunExact(t: Table, m: map<nat, nat>, ops: seq<Op>)
    requires Sound(t, m)
    ensures SoundThroughout(t, m, ops) <==> FreshInserts(m, ops) && Checked(t, ops)
    decreases |ops|
  {
    if ops == [] {
    } else {
      var op := ops[0];
      StepEnds(t, m, op);
      if Apply(t, op).Ends? {
        StepSound(t, m, op);
        if !(op.InsertOp? && op.key in m) {
          RunExact(Apply(t, op).value, Meaning(m, op), ops[1..]);
        }
      }
    }
  }

  // A client that looks for and deletes stored keys only, and never keeps more keys than the largest table.
  predicate Known(m: map<nat, nat>, ops: seq<Op>)
    decreases |ops|
  {
    ops == [] || (
      && (if ops[0].InsertOp? then ops[0].key !in m && |m| < PRIMES[27] else ops[0].key in m)
      && Known(Meaning(m, ops[0]), ops[1..]))
  }

  // Whatever tombstones it leaves, such a run ends: no property of the table is needed.
  lemma {:induction false} KnownRunEnds(t: Table, m: map<nat, nat>, ops: seq<Op>)
    requires Sound(t, m) && Known(m, ops)
    ensures Run(t, ops).Ends? && Sound(Run(t, ops).value, RunMeaning(m, ops))
    ensures Results(t, ops) == MeantResults(m, ops)
    decreases |ops|
  {
    if ops == [] {
    } else {
      var op := ops[0];
      SizeIsCardinality(t.slots, m);
      StepEnds(t, m, op);
      StepSound(t, m, op);
      if op.FindOp? { FindCorrect(t, m, op.key); }
      KnownRunEnds(Apply(t, op).value, Meaning(m, op), ops[1..]);
    }
  }

  // ---- the size field ----

  lemma {:induction false} NothingHeld(slots: seq<Slot>)
    requires forall s :: 0 <= s < |slots| ==> slots[s].status != Occupied
    ensures Count(slots) == 0
  {
    if slots == [] {
    } else {
      NothingHeld(slots[..|slots| - 1]);
    }
  }

  lemma {:induction false} SizeIsCardinality(slots: seq<Slot>, m: map<nat, nat>)
    requires UniqueKeys(slots) && Stores(slots, m)
    ensures Count(slots) == |m|
    decreases |m|
  {
    if m == map[] {
      forall s: nat | s < |slots| ensures slots[s].status != Occupied {
        assert !Holds(slots, slots[s].key, s);
      }
      NothingHeld(slots);
    } else {
      var key: nat :| key in m;
      assert Present(slots, key);
      var s: nat :| Holds(slots, key, s);
      var slots' := slots[s := slots[s].(status := Deleted)];
      assert forall k: nat, r: nat :: Holds(slots', k, r) <==> Holds(slots, k, r) && r != s;
      DeleteStores(slots, slots', m, key, s);
      CountUpdate(slots, s, slots[s].(status := Deleted));
      assert (m - {key}).Keys == m.Keys - {key};
      assert |m - {key}| == |m| - 1;
      SizeIsCardinality(slots', m - {key});
    }
  }

  // ---- how soon probing ends ----

  const LAST_LEVEL: nat := 16   // capacity 87359: the squares of its probes stay below 2^32

  lemma SmallPrimes()
    ensures IsPrime(7) && IsPrime(19) && IsPrime(41) && IsPrime(83)
  {
    TrialDivision(7);
    TrialDivision(19);
    TrialDivision(41);
    TrialDivision(83);
  }

  lemma MiddlePrimes()
    ensures IsPrime(167) && IsPrime(337) && IsPrime(677)
  {
    TrialDivision(167);
    TrialDivision(337);
    TrialDivision(677);
  }

  lemma LargePrimes()
    ensures IsPrime(1361) && IsPrime(2729)
  {
    TrialDivision(1361);
    TrialDivision(2729);
  }

  lemma Prime5449()
    ensures IsPrime(5449)
  {
    TrialDivision(5449);
  }

  lemma Prime10909()
    ensures IsPrime(10909)
  {
    TrialDivision(10909);
  }

  lemma Prime21841()
    ensures IsPrime(21841)
  {
    TrialDivision(21841);
  }

  lemma Prime43669()
    ensures IsPrime(43669)
  {
    TrialDivision(43669);
  }

  lemma Prime87359()
    ensures IsPrime(87359)
  {
    TrialDivision(87359);
  }

  lemma LevelPrime(level: nat)
    requires 3 <= level <= LAST_LEVEL
    ensures IsPrime(PRIMES[level]) && PRIMES[level] <= 87359
  {
    SmallPrimes();
    MiddlePrimes();
    LargePrimes();
    Prime5449();
    Prime10909();
    Prime21841();
    Prime43669();
    Prime87359();
  }

  // How many numbers follow the capacity of the level before the nodes, of 12 bytes each, take 2^(level + 4) bytes.
  function Gap(level: nat): nat
    requires 3 <= level <= LAST_LEVEL
  {
    [3, 2, 1, 2, 3, 4, 5, 4, 1, 12, 13, 4, 21, 22][level - 3]
  }

  predicate SmallDivisor(q: nat) {
    || Divides(q, 2) || Divides(q, 3) || Divides(q, 5) || Divides(q, 7) || Divides(q, 11) || Divides(q, 13)
    || Divides(q, 23) || Divides(q, 29) || Divides(q, 31) || Divides(q, 41) || Divides(q, 43) || Divides(q, 53)
    || Divides(q, 59) || Divides(q, 61) || Divides(q, 67) || Divides(q, 199)
  }

  predicate NoneFrom(q: nat, n: nat)
    decreases n
  {
    n == 0 || (SmallDivisor(q) && NoneFrom(q + 1, n - 1))
  }

  lemma LowGaps()
    ensures NoneFrom(8, 3) && NoneFrom(20, 2) && NoneFrom(42, 1) && NoneFrom(84, 2) && NoneFrom(168, 3)
  {
  }

  lemma MiddleGaps()
    ensures NoneFrom(338, 4) && NoneFrom(678, 5) && NoneFrom(1362, 4) && NoneFrom(2730, 1)
  {
  }

  predicate NoneOfSix(q: nat) {
    && SmallDivisor(q) && SmallDivisor(q + 1) && SmallDivisor(q + 2)
    && SmallDivisor(q + 3) && SmallDivisor(q + 4) && SmallDivisor(q + 5)
  }

  lemma SixMore(q: nat, n: nat)
    requires NoneOfSix(q) && NoneFrom(q + 6, n)
    ensures NoneFrom(q, n + 6)
  {
    assert NoneFrom(q + 5, n + 1);
    assert NoneFrom(q + 4, n + 2);
    assert NoneFrom(q + 3, n + 3);
    assert NoneFrom(q + 2, n + 4);
    assert NoneFrom(q + 1, n + 5);
  }

  lemma Sixes5450()
    ensures NoneOfSix(5450) && NoneOfSix(5456)
  {
  }

  lemma Gap5450()
    ensures NoneFrom(5450, 12)
  {
    Sixes5450();
    assert NoneFrom(5462, 0);
    SixMore(5456, 0);
    SixMore(5450, 6);
  }

  lemma Sixes10910()
    ensures NoneOfSix(10910) && NoneOfSix(10916)
  {
  }

  lemma Rest10910()
    ensures NoneFrom(10922, 1) && NoneFrom(21842, 4)
  {
  }

  lemma Gap10910()
    ensures NoneFrom(10910, 13) && NoneFrom(21842, 4)
  {
    Sixes10910();
    Rest10910();
    SixMore(10916, 1);
    SixMore(10910, 7);
  }

  lemma Sixes43670()
    ensures NoneOfSix(43670) && NoneOfSix(43676) && NoneOfSix(43682)
  {
  }

  lemma Rest43670()
    ensures NoneFrom(43688, 3)
  {
  }

  lemma Gap43670()
    ensures NoneFrom(43670, 21)
  {
    Sixes43670();
    Rest43670();
    SixMore(43682, 3);
    SixMore(43676, 9);
    SixMore(43670, 15);
  }

  lemma Sixes87360()
    ensures NoneOfSix(87360) && NoneOfSix(87366) && NoneOfSix(87372)
  {
  }

  lemma Rest87360()
    ensures NoneFrom(87378, 4)
  {
  }

  lemma Gap87360()
    ensures NoneFrom(87360, 22)
  {
    Sixes87360();
    Rest87360();
    SixMore(87372, 4);
    SixMore(87366, 10);
    SixMore(87360, 16);
  }

  lemma NoPrimeAfter(level: nat, from: nat, n: nat)
    requires 3 <= level <= LAST_LEVEL && from == PRIMES[level] + 1 && n == Gap(level)
    ensures NoneFrom(from, n)
  {
    if level <= 7 {
      LowGaps();
    } else if level <= 11 {
      MiddleGaps();
    } else if level == 12 {
      Gap5450();
    } else if level <= 14 {
      Gap10910();
    } else if level == 15 {
      Gap43670();
    } else {
      Gap87360();
    }
  }

  lemma {:induction false} NoneAmong(from: nat, n: nat, q: nat)
    requires NoneFrom(from, n) && from <= q < from + n
    ensures !IsPrime(q)
    decreases n
  {
    if q == from {
      assert SmallDivisor(q);
    } else {
      NoneAmong(from + 1, n - 1, q);
    }
  }

  lemma LowPowers()
    ensures Pow2(7) == 128 && Pow2(8) == 256 && Pow2(9) == 512 && Pow2(10) == 1024 && Pow2(11) == 2048
    ensures Pow2(12) == 4096 && Pow2(13) == 8192
  {
  }

  lemma HighPowers()
    ensures Pow2(14) == 0x4000 && Pow2(15) == 0x8000 && Pow2(16) == 0x1_0000 && Pow2(17) == 0x2_0000
    ensures Pow2(18) == 0x4_0000 && Pow2(19) == 0x8_0000 && Pow2(20) == 0x10_0000
  {
  }

  lemma SizeLimit(level: nat)
    requires 3 <= level <= LAST_LEVEL
    ensures 12 * PRIMES[level] < Pow2(level + 4) <= 12 * (PRIMES[level] + 1 + Gap(level))
  {
    if level <= 9 { LowPowers(); } else { HighPowers(); }
  }

  // The capacity of a level is the largest prime whose nodes of 12 bytes take less than 2^(level + 4) bytes.
  lemma LargestPrime(level: nat, q: nat)
    requires 3 <= level <= LAST_LEVEL && IsPrime(q) && 12 * q < Pow2(level + 4)
    ensures IsPrime(PRIMES[level]) && 12 * PRIMES[level] < Pow2(level + 4) && q <= PRIMES[level]
  {
    LevelPrime(level);
    SizeLimit(level);
    if q > PRIMES[level] {
      NoPrimeAfter(level, PRIMES[level] + 1, Gap(level));
      NoneAmong(PRIMES[level] + 1, Gap(level), q);
    }
  }

  lemma PathIsQuadratic(key: nat, p: nat, i: nat)
    requires 0 < p <= 87359 && 2 * i < p
    ensures Path(key, p, i) == (key % p + i * i) % p
  {
    Square(i, 43679);
    NoWrap(key % p, i * i);
  }

  lemma NoWrap(h: nat, x: nat)
    requires h < 87359 && x <= 43679 * 43679
    ensures (h + x % TWO32) % TWO32 == h + x
  {
  }

  // The first (p + 1) / 2 probes of a key meet different slots.
  lemma ProbesDiffer(key: nat, p: nat, i: nat, j: nat)
    requires IsPrime(p) && p <= 87359 && i < j && 2 * j < p
    ensures Path(key, p, i) != Path(key, p, j)
  {
    PathIsQuadratic(key, p, i);
    PathIsQuadratic(key, p, j);
    SquaresDiffer(p, key % p, i, j);
  }

  predicate Filled(slots: seq<Slot>, s: nat) {
    s < |slots| && slots[s].status != Empty
  }

  function NonEmpty(slots: seq<Slot>): set<nat> {
    set s: nat | s < |slots| && Filled(slots, s)
  }

  lemma {:induction false} ProbedSlots(slots: seq<Slot>, key: nat, n: nat) returns (met: set<nat>)
    requires IsPrime(|slots|) && |slots| <= 87359 && 2 * n <= |slots| + 1
    requires forall i :: 0 <= i < n ==> Filled(slots, Path(key, |slots|, i))
    ensures |met| == n && met <= NonEmpty(slots)
    ensures forall s :: s in met <==> exists i :: 0 <= i < n && Path(key, |slots|, i) == s
  {
    if n == 0 {
      met := {};
    } else {
      met := ProbedSlots(slots, key, n - 1);
      var s := Path(key, |slots|, n - 1);
      forall i | 0 <= i < n - 1 ensures Path(key, |slots|, i) != s {
        ProbesDiffer(key, |slots|, i, n - 1);
      }
      met := met + {s};
    }
  }

  // A table of one of the first prime capacities, less than half full counting tombstones.
  predicate HalfEmpty(t: Table) {
    Shape(t) && t.level <= LAST_LEVEL && 2 * |NonEmpty(t.slots)| < |t.slots| + 1
  }

  // Then every search and every insertion meets an empty slot within the first (capacity + 1) / 2 probes.
  lemma ProbingEnds(t: Table, key: nat)
    requires HalfEmpty(t)
    ensures FirstFind(t.slots, key, 0) <= |t.slots| / 2 && FirstInsert(t.slots, key, 0) <= |t.slots| / 2
    ensures FindSlot(t.slots, key).Ends?
    ensures forall value :: InsertSlot(t, key, value).Ends?
  {
    LevelPrime(t.level);
    var p := |t.slots|;
    var n := p / 2 + 1;
    OddCapacity(t.level);
    if forall i :: 0 <= i < n ==> Filled(t.slots, Path(key, p, i)) {
      var met := ProbedSlots(t.slots, key, n);
      SubsetSize(met, NonEmpty(t.slots));
      assert false;
    }
    var i :| 0 <= i < n && !Filled(t.slots, Path(key, p, i));
    assert ExitsFind(t.slots, key, i) && ExitsInsert(t.slots, key, i);
  }

  lemma OddCapacity(level: nat)
    requires 3 <= level <= LAST_LEVEL
    ensures PRIMES[level] % 2 == 1
  {
  }

  lemma {:induction false} SubsetSize(a: set<nat>, b: set<nat>)
    requires a <= b
    ensures |a| <= |b|
  {
    assert b == a + (b - a);
  }

  // ---- how fast it is after a rehash ----

  lemma {:induction false} OccupiedSize(slots: seq<Slot>)
    requires NoTombstone(slots)
    ensures |NonEmpty(slots)| == Count(slots)
  {
    if slots == [] {
      assert NonEmpty(slots) == {};
    } else {
      var n := |slots| - 1;
      OccupiedSize(slots[..n]);
      assert NonEmpty(slots) == NonEmpty(slots[..n]) + if slots[n].status == Occupied then {n} else {};
    }
  }

  // A rehash leaves a table that is less than half full, so that probing is short, exactly if the keys are few.
  lemma RehashHalfEmpty(t: Table, m: map<nat, nat>, level: nat)
    requires Sound(t, m) && 3 <= level <= LAST_LEVEL && 4 * t.size < 3 * PRIMES[level] + 4
    ensures Rehash(t, level).Ends?
    ensures HalfEmpty(Rehash(t, level).value) <==> 2 * t.size < PRIMES[level] + 1
  {
    RehashCorrect(t, m, level);
    OccupiedSize(Rehash(t, level).value.slots);
  }

  // ---- the load limits alone do not make probing end ----

  // The initial table after key 0 was inserted and keys 1 .. k were inserted and deleted.
  function Worn(k: nat): Table {
    Table(3, 1, seq(7, (i: nat) => WornSlot(k, i)))
  }

  function WornSlot(k: nat, i: nat): Slot {
    if i == 0 then Slot(0, 0, Occupied) else if i <= k then Slot(i, 0, Deleted) else BLANK
  }

  lemma FirstProbe(slots: seq<Slot>, key: nat)
    requires |slots| == 7 && key < 7
    ensures Path(key, 7, 0) == key
    ensures slots[key].status == Empty ==> FirstInsert(slots, key, 0) == 0
    ensures Holds(slots, key, key) ==> FirstFind(slots, key, 0) == 0
  {
  }

  lemma RunTwo(t: Table, a: Op, b: Op)
    requires Shape(t) && Apply(t, a).Ends?
    ensures Run(t, [a, b]) == Apply(Apply(t, a).value, b)
  {
    assert [a, b][1..] == [b] && [b][1..] == [];
    assert Run(Apply(t, a).value, [b]) == Apply(Apply(t, a).value, b);
  }

  lemma WearStep(k: nat)
    requires k < 6
    ensures Run(Worn(k), [InsertOp(k + 1, 0), DeleteOp(k + 1)]) == Ends(Worn(k + 1))
  {
    var t, key := Worn(k), k + 1;
    FirstProbe(t.slots, key);
    var u := Table(3, 2, t.slots[key := Slot(key, 0, Occupied)]);
    assert Insert(t, key, 0) == Ends(u);
    FirstProbe(u.slots, key);
    assert Holds(u.slots, key, key);
    assert Delete(u, key) == Ends(Table(3, 1, u.slots[key := Slot(key, 0, Deleted)]));
    assert u.slots[key := Slot(key, 0, Deleted)] == Worn(k + 1).slots;
    RunTwo(t, InsertOp(key, 0), DeleteOp(key));
  }

  function WearOut(k: nat): seq<Op> {
    if k == 0 then [InsertOp(0, 0)] else WearOut(k - 1) + [InsertOp(k, 0), DeleteOp(k)]
  }

  lemma {:induction false} RunAppend(t: Table, first: seq<Op>, rest: seq<Op>)
    requires Shape(t) && Run(t, first).Ends? && Shape(Run(t, first).value)
    ensures Run(t, first + rest) == Run(Run(t, first).value, rest)
    decreases |first|
  {
    if first == [] {
      assert first + rest == rest;
    } else {
      assert (first + rest)[1..] == first[1..] + rest;
      RunAppend(Apply(t, first[0]).value, first[1..], rest);
    }
  }

  lemma {:induction false} WornReached(k: nat)
    requires k <= 6
    ensures Run(Init(), WearOut(k)) == Ends(Worn(k))
  {
    if k == 0 {
      FirstProbe(Init().slots, 0);
      assert Init().slots[0 := Slot(0, 0, Occupied)] == Worn(0).slots;
      assert [InsertOp(0, 0)][1..] == [];
    } else {
      WornReached(k - 1);
      WearStep(k - 1);
      RunAppend(Init(), WearOut(k - 1), [InsertOp(k, 0), DeleteOp(k)]);
    }
  }

  // With one key stored, six deleted and the load limits respected, looking for a seventh never ends.
  lemma TombstoneTrap()
    ensures Run(Init(), WearOut(6)) == Ends(Worn(6)) && Worn(6).size == 1
    ensures FindSlot(Worn(6).slots, 7) == Diverges && Delete(Worn(6), 7) == Diverges
  {
    WornReached(6);
    var slots := Worn(6).slots;
    forall i | 0 <= i < TWO32 ensures !ExitsFind(slots, 7, i) {
      assert slots[Path(7, 7, i)].status != Empty && slots[Path(7, 7, i)].key != 7;
    }
  }
}
