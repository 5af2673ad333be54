// The open-addressing hash map of kernel/kernel/klib/map.c as steps on the values of its table. A probe loop
// that never ends is a result of its own, so every step is total.

module HashTable {
  import opened Basics
  import Squares

  // LOAD_FACTOR_DIVIDEND_MAX over _DIVISOR_MAX, and the same for MIN.
  const LOAD_MAX: nat := 3
  const LOAD_MIN: nat := 1
  const LOAD_DIVISOR: nat := 4

  const PRIMES: seq<nat> := [1, 2, 5, 7, 19, 41, 83, 167, 337, 677, 1361, 2729, 5449, 10909, 21841, 43669, 87359,
    174761, 349519, 699037, 1398091, 2796181, 5592373, 11184799, 22369601, 44739181, 89478457, 178956937, 357913931]

  datatype Status = Empty | Occupied | Deleted
  datatype Slot = Slot(key: nat, value: nat, status: Status)
  datatype Table = Table(level: nat, size: nat, slots: seq<Slot>)
  datatype Outcome<T> = Diverges | Ends(value: T)

  const BLANK := Slot(0, 0, Empty)

  // Levels start at 3 and stop growing at 27.
  predicate Shape(t: Table) {
    3 <= t.level <= 27 && |t.slots| == PRIMES[t.level]
  }

  // map_init
  function Init(): Table {
    Table(3, 0, seq(7, _ => BLANK))
  }

  // The slot of probe i, in 32-bit arithmetic.
  function Path(key: nat, capacity: nat, i: nat): (s: nat)
    requires capacity > 0
    ensures s < capacity
  {
    ((key % capacity + (i * i) % TWO32) % TWO32) % capacity
  }

  // ---- the probe loops ----

  predicate ExitsFind(slots: seq<Slot>, key: nat, i: nat)
    requires slots != []
  {
    var s := slots[Path(key, |slots|, i)];
    s.status == Empty || (s.key == key && s.status == Occupied)
  }

  predicate ExitsInsert(slots: seq<Slot>, key: nat, i: nat)
    requires slots != []
  {
    var s := slots[Path(key, |slots|, i)];
    s.status != Occupied || s.key == key
  }

  // The first probe from j on that leaves the loop, or 2^32: then the counter wraps and the loop never ends.
  function FirstFind(slots: seq<Slot>, key: nat, j: nat): (r: nat)
    requires slots != [] && j <= TWO32
    ensures j <= r <= TWO32 && forall i :: j <= i < r ==> !ExitsFind(slots, key, i)
    ensures r < TWO32 ==> ExitsFind(slots, key, r)
    decreases TWO32 - j
  {
    if j < TWO32 && !ExitsFind(slots, key, j) then FirstFind(slots, key, j + 1) else j
  }

  function FirstInsert(slots: seq<Slot>, key: nat, j: nat): (r: nat)
    requires slots != [] && j <= TWO32
    ensures j <= r <= TWO32 && forall i :: j <= i < r ==> !ExitsInsert(slots, key, i)
    ensures r < TWO32 ==> ExitsInsert(slots, key, r)
    decreases TWO32 - j
  {
    if j < TWO32 && !ExitsInsert(slots, key, j) then FirstInsert(slots, key, j + 1) else j
  }

  // _map_find
  function FindSlot(slots: seq<Slot>, key: nat): Outcome<Option<nat>>
    requires slots != []
  {
    var i := FirstFind(slots, key, 0);
    if i == TWO32 then Diverges else
      var s := Path(key, |slots|, i);
      Ends(if slots[s].status == Empty then None else Some(s))
  }

  // The second half of map_insert.
  function InsertSlot(t: Table, key: nat, value: nat): Outcome<Table>
    requires Shape(t)
  {
    var i := FirstInsert(t.slots, key, 0);
    if i == TWO32 then Diverges else
      var s := Path(key, |t.slots|, i);
      Ends(t.(slots := t.slots[s := Slot(key, value, Occupied)], size := t.size + 1))
  }

  // ---- growing and shrinking ----

  predicate NeedsGrow(t: Table)
    requires Shape(t)
  {
    t.level < 27 && (|t.slots| - t.size) * LOAD_MAX <= (LOAD_DIVISOR - LOAD_MAX) * t.size
  }

  predicate NeedsShrink(t: Table)
    requires Shape(t)
  {
    t.level > 3 && (|t.slots| - t.size) * LOAD_MIN >= (LOAD_DIVISOR - LOAD_MIN) * t.size
  }

  // map_insert; a rehash inserts through map_insert again.
  function Insert(t: Table, key: nat, value: nat): (r: Outcome<Table>)
    requires Shape(t)
    ensures r.Ends? ==> Shape(r.value) && r.value.level >= t.level
    decreases 28 - t.level, 0, 0
  {
    if NeedsGrow(t) then
      match Rehash(t, t.level + 1)
      case Diverges => Diverges
      case Ends(u) => InsertSlot(u, key, value)
    else InsertSlot(t, key, value)
  }

  // map_rehash
  function Rehash(t: Table, level: nat): (r: Outcome<Table>)
    requires Shape(t) && 3 <= level <= 27
    ensures r.Ends? ==> Shape(r.value) && r.value.level >= level
    decreases 28 - level, 2, 0
  {
    RehashFrom(t.slots, 0, Table(level, 0, seq(PRIMES[level], _ => BLANK)))
  }

  function RehashFrom(from: seq<Slot>, i: nat, t: Table): (r: Outcome<Table>)
    requires Shape(t) && i <= |from|
    ensures r.Ends? ==> Shape(r.value) && r.value.level >= t.level
    decreases 28 - t.level, 1, |from| - i
  {
    if i == |from| then Ends(t)
    else if from[i].status != Occupied then RehashFrom(from, i + 1, t)
    else
      match Insert(t, from[i].key, from[i].value)
      case Diverges => Diverges
      case Ends(u) => RehashFrom(from, i + 1, u)
  }

  // map_delete
  function Delete(t: Table, key: nat): (r: Outcome<Table>)
    requires Shape(t)
    ensures r.Ends? ==> Shape(r.value)
  {
    if NeedsShrink(t) then
      match Rehash(t, t.level - 1)
      case Diverges => Diverges
      case Ends(u) => DeleteSlot(u, key)
    else DeleteSlot(t, key)
  }

  function DeleteSlot(t: Table, key: nat): (r: Outcome<Table>)
    requires Shape(t)
    ensures r.Ends? ==> Shape(r.value) && r.value.level == t.level
  {
    match FindSlot(t.slots, key)
    case Diverges => Diverges
    case Ends(None) => Ends(t)
    case Ends(Some(s)) =>
      Ends(t.(slots := t.slots[s := t.slots[s].(status := Deleted)],
              size := if t.size > 0 then t.size - 1 else TWO32 - 1))
  }

  // ---- the dictionary a table stands for ----

  predicate Holds(slots: seq<Slot>, key: nat, s: nat) {
    s < |slots| && slots[s].status == Occupied && slots[s].key == key
  }

  ghost predicate Present(slots: seq<Slot>, key: nat) {
    exists s: nat :: Holds(slots, key, s)
  }

  ghost predicate UniqueKeys(slots: seq<Slot>) {
    forall key: nat, s: nat, r: nat :: Holds(slots, key, s) && Holds(slots, key, r) ==> s == r
  }

  // Probe i of the key is slot s, and the probes before it pass over non-empty slots.
  ghost predicate Reaches(slots: seq<Slot>, key: nat, s: nat, i: nat)
    requires slots != []
  {
    i < TWO32 && Path(key, |slots|, i) == s && forall j :: 0 <= j < i ==> slots[Path(key, |slots|, j)].status != Empty
  }

  ghost predicate Reachable(slots: seq<Slot>)
    requires slots != []
  {
    forall key: nat, s: nat :: Holds(slots, key, s) ==> exists i: nat :: Reaches(slots, key, s, i)
  }

  ghost predicate Stores(slots: seq<Slot>, m: map<nat, nat>) {
    && (forall key: nat :: key in m <==> Present(slots, key))
    && (forall key: nat, s: nat :: Holds(slots, key, s) ==> key in m && slots[s].value == m[key])
  }

  function Count(slots: seq<Slot>): (n: nat)
    ensures n <= |slots|
  {
    if slots == [] then 0 else
      Count(slots[..|slots| - 1]) + (if slots[|slots| - 1].status == Occupied then 1 else 0)
  }

  ghost predicate Sound(t: Table, m: map<nat, nat>) {
    && Shape(t) && UniqueKeys(t.slots) && Reachable(t.slots) && Stores(t.slots, m)
    && t.size == Count(t.slots)
  }

  lemma {:induction false} CountUpdate(slots: seq<Slot>, s: nat, x: Slot)
    requires s < |slots|
    ensures Count(slots[s := x]) == Count(slots)
      + (if x.status == Occupied then 1 else 0) - (if slots[s].status == Occupied then 1 else 0)
  {
    var n := |slots| - 1;
    if s < n {
      CountUpdate(slots[..n], s, x);
      assert slots[s := x][..n] == slots[..n][s := x];
    } else {
      assert slots[s := x][..n] == slots[..n];
    }
  }

  lemma {:induction false} CountBlank(n: nat)
    ensures Count(seq(n, _ => BLANK)) == 0
  {
    if n == 0 {
    } else {
      CountBlank(n - 1);
      assert seq(n, _ => BLANK)[..n - 1] == seq(n - 1, _ => BLANK);
    }
  }

  // ---- when the probe loops end ----

  lemma Capacity(level: nat)
    requires 3 <= level <= 27
    ensures PRIMES[level] % 2 == 1 && 7 <= PRIMES[level] <= 178956937
  {
  }

  // The wrap-around of the square at 2^32 lets the probes of every key meet every slot.
  lemma EverySlotProbed(key: nat, p: nat, s: nat) returns (i: nat)
    requires p % 2 == 1 && s < p <= 178956937
    ensures i < TWO32 && Path(key, p, i) == s
  {
    var h := key % p;
    var u := Squares.Stride(h, p, s);
    i := Squares.SquareOf(8 * u + 1);
    assert h + (8 * u + 1) < TWO32;
  }

  ghost predicate HasEmpty(slots: seq<Slot>) {
    exists s: nat :: s < |slots| && slots[s].status == Empty
  }

  // Sound or not, a table lets a search end exactly if it holds the key or an empty slot.
  lemma FindEnds(t: Table, key: nat)
    requires Shape(t)
    ensures FindSlot(t.slots, key).Ends? <==> Present(t.slots, key) || HasEmpty(t.slots)
  {
    var slots := t.slots;
    Capacity(t.level);
    var i := FirstFind(slots, key, 0);
    if i < TWO32 {
      var s := Path(key, |slots|, i);
      assert slots[s].status == Empty || Holds(slots, key, s);
    } else if Present(slots, key) || HasEmpty(slots) {
      var s: nat :| s < |slots| && (slots[s].status == Empty || Holds(slots, key, s));
      var j := EverySlotProbed(key, |slots|, s);
      assert ExitsFind(slots, key, j);
    }
  }

  ghost predicate HasVacant(slots: seq<Slot>) {
    exists s: nat :: s < |slots| && slots[s].status != Occupied
  }

  lemma {:induction false} VacantCount(slots: seq<Slot>)
    ensures HasVacant(slots) <==> Count(slots) < |slots|
  {
    if slots == [] {
    } else {
      var n := |slots| - 1;
      VacantCount(slots[..n]);
      if HasVacant(slots) && slots[n].status == Occupied {
        var s: nat :| s < |slots| && slots[s].status != Occupied;
        assert slots[..n][s].status != Occupied;
      }
      if HasVacant(slots[..n]) {
        var s: nat :| s < n && slots[..n][s].status != Occupied;
        assert slots[s].status != Occupied;
      }
    }
  }

  // The store of an insertion is reached exactly if the key is there or not every slot is occupied.
  lemma InsertSlotEnds(t: Table, key: nat, value: nat)
    requires Shape(t)
    ensures InsertSlot(t, key, value).Ends? <==> Present(t.slots, key) || Count(t.slots) < |t.slots|
  {
    var slots := t.slots;
    Capacity(t.level);
    VacantCount(slots);
    var i := FirstInsert(slots, key, 0);
    if i < TWO32 {
      var s := Path(key, |slots|, i);
      assert slots[s].status != Occupied || Holds(slots, key, s);
    } else if Present(slots, key) || HasVacant(slots) {
      var s: nat :| s < |slots| && (slots[s].status != Occupied || Holds(slots, key, s));
      var j := EverySlotProbed(key, |slots|, s);
      assert ExitsInsert(slots, key, j);
    }
  }

  // ---- finding ----

  predicate Answers(slots: seq<Slot>, m: map<nat, nat>, key: nat, r: Option<nat>) {
    match r
    case None => key !in m
    case Some(s) => key in m && Holds(slots, key, s) && slots[s].value == m[key]
  }

  // A search ends exactly if the key is stored or a slot is empty, and then gives the dictionary's answer.
  lemma FindCorrect(t: Table, m: map<nat, nat>, key: nat)
    requires Sound(t, m)
    ensures FindSlot(t.slots, key).Ends? <==> key in m || HasEmpty(t.slots)
    ensures FindSlot(t.slots, key).Ends? ==> Answers(t.slots, m, key, FindSlot(t.slots, key).value)
  {
    FindEnds(t, key);
    var slots := t.slots;
    var i := FirstFind(slots, key, 0);
    if key in m {
      assert Present(slots, key);
      var s: nat :| Holds(slots, key, s);
      var j: nat :| Reaches(slots, key, s, j);
      assert ExitsFind(slots, key, j);
      assert i <= j;
      if i < j {
        assert slots[Path(key, |slots|, i)].status != Empty;
        assert Holds(slots, key, Path(key, |slots|, i));
      }
    }
    if i < TWO32 && slots[Path(key, |slots|, i)].status != Empty {
      assert Holds(slots, key, Path(key, |slots|, i));
    }
  }

  // ---- inserting ----

  // The insertion of an absent key ends exactly if a slot is not occupied, and then adds the key.
  lemma InsertSlotCorrect(t: Table, m: map<nat, nat>, key: nat, value: nat)
    requires Sound(t, m) && key !in m
    ensures InsertSlot(t, key, value).Ends? <==> t.size < |t.slots|
    ensures InsertSlot(t, key, value).Ends? ==> Sound(InsertSlot(t, key, value).value, m[key := value])
    ensures InsertSlot(t, key, value).Ends? ==> InsertSlot(t, key, value).value.size == t.size + 1
  {
    assert !Present(t.slots, key);
    InsertSlotEnds(t, key, value);
    if InsertSlot(t, key, value).Ends? {
      InsertSlotSound(t, m, key, value);
    }
  }

  lemma InsertSlotSound(t: Table, m: map<nat, nat>, key: nat, value: nat)
    requires Sound(t, m) && key !in m && InsertSlot(t, key, value).Ends?
    ensures Sound(InsertSlot(t, key, value).value, m[key := value])
    ensures InsertSlot(t, key, value).value.size == t.size + 1
  {
    var slots := t.slots;
    var i := FirstInsert(slots, key, 0);
    var s := Path(key, |slots|, i);
    var slots' := slots[s := Slot(key, value, Occupied)];
    assert !Present(slots, key);
    assert slots[s].status != Occupied by {
      if slots[s].status == Occupied { assert Holds(slots, key, s); }
    }
    CountUpdate(slots, s, Slot(key, value, Occupied));
    InsertReachable(slots, key, value, i, s);
    assert forall k: nat, r: nat :: Holds(slots', k, r) <==> Holds(slots, k, r) || (k == key && r == s);
    InsertStores(slots, slots', m, key, value, s);
  }

  lemma InsertStores(slots: seq<Slot>, slots': seq<Slot>, m: map<nat, nat>, key: nat, value: nat, s: nat)
    requires Stores(slots, m) && s < |slots| && slots' == slots[s := Slot(key, value, Occupied)] && key !in m
    requires forall k: nat, r: nat :: Holds(slots', k, r) <==> Holds(slots, k, r) || (k == key && r == s)
    ensures Stores(slots', m[key := value])
  {
    forall k: nat ensures k in m[key := value] <==> Present(slots', k) {
      if Present(slots, k) {
        var r: nat :| Holds(slots, k, r);
        assert Holds(slots', k, r);
      }
      assert Holds(slots', key, s);
    }
  }

  lemma InsertReachable(slots: seq<Slot>, key: nat, value: nat, i: nat, s: nat)
    requires slots != [] && Reachable(slots) && i < TWO32 && s == Path(key, |slots|, i)
    requires forall j :: 0 <= j < i ==> !ExitsInsert(slots, key, j)
    ensures Reachable(slots[s := Slot(key, value, Occupied)])
  {
    var slots' := slots[s := Slot(key, value, Occupied)];
    forall k: nat, r: nat | Holds(slots', k, r) ensures exists j: nat :: Reaches(slots', k, r, j) {
      if r == s {
        forall j | 0 <= j < i ensures slots'[Path(key, |slots|, j)].status != Empty {
          assert !ExitsInsert(slots, key, j);
        }
        assert Reaches(slots', k, r, i);
      } else {
        assert Holds(slots, k, r);
        var j: nat :| Reaches(slots, k, r, j);
        assert Reaches(slots', k, r, j);
      }
    }
  }

  // A present key is either overwritten, counting one key twice, or entered a second time.
  lemma InsertSlotTwice(t: Table, m: map<nat, nat>, key: nat, value: nat, m': map<nat, nat>)
    requires Sound(t, m) && key in m
    ensures InsertSlot(t, key, value).Ends? && !Sound(InsertSlot(t, key, value).value, m')
  {
    var slots := t.slots;
    InsertSlotEnds(t, key, value);
    var s := Path(key, |slots|, FirstInsert(slots, key, 0));
    var slots' := slots[s := Slot(key, value, Occupied)];
    CountUpdate(slots, s, Slot(key, value, Occupied));
    assert Present(slots, key);
    var r: nat :| Holds(slots, key, r);
    if slots[s].status != Occupied {
      assert Holds(slots', key, r) && Holds(slots', key, s) && r != s;
    }
  }

  // ---- deleting ----

  lemma DeleteSlotCorrect(t: Table, m: map<nat, nat>, key: nat)
    requires Sound(t, m)
    ensures DeleteSlot(t, key).Ends? <==> key in m || HasEmpty(t.slots)
    ensures DeleteSlot(t, key).Ends? ==> Sound(DeleteSlot(t, key).value, m - {key})
  {
    FindCorrect(t, m, key);
    if FindSlot(t.slots, key).Ends? {
      DeleteSlotSound(t, m, key);
    }
  }

  lemma DeleteSlotSound(t: Table, m: map<nat, nat>, key: nat)
    requires Sound(t, m) && DeleteSlot(t, key).Ends?
    ensures Sound(DeleteSlot(t, key).value, m - {key})
  {
    FindCorrect(t, m, key);
    var found := FindSlot(t.slots, key).value;
    if found.None? {
      assert m - {key} == m;
    } else {
      var s, slots := found.value, t.slots;
      var slots' := slots[s := slots[s].(status := Deleted)];
      CountUpdate(slots, s, slots[s].(status := Deleted));
      assert forall k: nat, r: nat :: Holds(slots', k, r) <==> Holds(slots, k, r) && r != s;
      DeleteReachable(slots, s);
      DeleteStores(slots, slots', m, key, s);
    }
  }

  lemma DeleteReachable(slots: seq<Slot>, s: nat)
    requires s < |slots| && Reachable(slots)
    ensures Reachable(slots[s := slots[s].(status := Deleted)])
  {
    var slots' := slots[s := slots[s].(status := Deleted)];
    forall k: nat, r: nat | Holds(slots', k, r) ensures exists j: nat :: Reaches(slots', k, r, j) {
      assert Holds(slots, k, r);
      var j: nat :| Reaches(slots, k, r, j);
      assert Reaches(slots', k, r, j);
    }
  }

  lemma DeleteStores(slots: seq<Slot>, slots': seq<Slot>, m: map<nat, nat>, key: nat, s: nat)
    requires UniqueKeys(slots) && Stores(slots, m) && Holds(slots, key, s)
    requires slots' == slots[s := slots[s].(status := Deleted)]
    requires forall k: nat, r: nat :: Holds(slots', k, r) <==> Holds(slots, k, r) && r != s
    ensures Stores(slots', m - {key})
  {
  }

  // ---- rehashing ----

  ghost predicate NoTombstone(slots: seq<Slot>) {
    forall s :: 0 <= s < |slots| ==> slots[s].status != Deleted
  }

  ghost predicate HeldBefore(slots: seq<Slot>, key: nat, i: nat) {
    exists s: nat :: s < i && Holds(slots, key, s)
  }

  lemma {:induction false} CountPrefix(slots: seq<Slot>, i: nat)
    requires i < |slots|
    ensures Count(slots[..i + 1]) == Count(slots[..i]) + (if slots[i].status == Occupied then 1 else 0)
    ensures Count(slots[..i + 1]) <= Count(slots)
    decreases |slots| - i
  {
    assert slots[..i + 1][..i] == slots[..i];
    if i + 1 == |slots| {
      assert slots[..i + 1] == slots;
    } else {
      CountPrefix(slots, i + 1);
    }
  }

  // The new table has taken over the first i slots, and never gets full enough to be rehashed itself.
  ghost predicate Moving(from: seq<Slot>, i: nat, t: Table, m: map<nat, nat>, done: map<nat, nat>) {
    && i <= |from| && UniqueKeys(from) && Stores(from, m)
    && Sound(t, done) && NoTombstone(t.slots) && t.size == Count(from[..i])
    && (forall k: nat :: k in done <==> HeldBefore(from, k, i))
    && (forall k: nat :: k in done ==> k in m && done[k] == m[k])
    && 4 * Count(from) < 3 * |t.slots| + 4
  }

  lemma MoveSlot(from: seq<Slot>, i: nat, t: Table, m: map<nat, nat>, done: map<nat, nat>)
    requires Moving(from, i, t, m, done) && i < |from| && from[i].status == Occupied
    ensures !NeedsGrow(t) && InsertSlot(t, from[i].key, from[i].value).Ends?
    ensures Moving(from, i + 1, InsertSlot(t, from[i].key, from[i].value).value, m, done[from[i].key := from[i].value])
  {
    var key, value := from[i].key, from[i].value;
    CountPrefix(from, i);
    MoveFresh(from, i, key);
    NoNestedGrow(from, i, t, m, done);
    MoveRoom(from, i, t, m, done);
    InsertSlotCorrect(t, done, key, value);
    InsertSlotNoTombstone(t, key, value);
    MoveKeys(from, i, done, key, value, done[key := value]);
  }

  lemma MoveRoom(from: seq<Slot>, i: nat, t: Table, m: map<nat, nat>, done: map<nat, nat>)
    requires Moving(from, i, t, m, done) && i < |from| && from[i].status == Occupied
    ensures t.size < |t.slots|
  {
    CountPrefix(from, i);
  }

  lemma MoveFresh(from: seq<Slot>, i: nat, key: nat)
    requires UniqueKeys(from) && Holds(from, key, i)
    ensures !HeldBefore(from, key, i)
  {
  }

  lemma InsertSlotNoTombstone(t: Table, key: nat, value: nat)
    requires Shape(t) && NoTombstone(t.slots) && InsertSlot(t, key, value).Ends?
    ensures NoTombstone(InsertSlot(t, key, value).value.slots)
    ensures |InsertSlot(t, key, value).value.slots| == |t.slots|
  {
  }

  lemma MoveKeys(from: seq<Slot>, i: nat, done: map<nat, nat>, key: nat, value: nat, done': map<nat, nat>)
    requires Holds(from, key, i) && done' == done[key := value]
    requires forall k: nat :: k in done <==> HeldBefore(from, k, i)
    ensures forall k: nat :: k in done' <==> HeldBefore(from, k, i + 1)
  {
  }

  lemma SkipSlot(from: seq<Slot>, i: nat, t: Table, m: map<nat, nat>, done: map<nat, nat>)
    requires Moving(from, i, t, m, done) && i < |from| && from[i].status != Occupied
    ensures Moving(from, i + 1, t, m, done)
  {
    CountPrefix(from, i);
    forall k: nat ensures HeldBefore(from, k, i) <==> HeldBefore(from, k, i + 1) {
      if HeldBefore(from, k, i) {
        var s: nat :| s < i && Holds(from, k, s);
        assert s < i + 1 && Holds(from, k, s);
      }
      if HeldBefore(from, k, i + 1) {
        var s: nat :| s < i + 1 && Holds(from, k, s);
        assert s < i && Holds(from, k, s);
      }
    }
  }

  lemma {:induction false} RehashFromCorrect(from: seq<Slot>, i: nat, t: Table, m: map<nat, nat>, done: map<nat, nat>)
    requires Moving(from, i, t, m, done)
    ensures RehashFrom(from, i, t).Ends?
    ensures var r := RehashFrom(from, i, t).value;
      Sound(r, m) && NoTombstone(r.slots) && r.level == t.level && r.size == Count(from)
    decreases |from| - i
  {
    if i == |from| {
      MoveDone(from, t, m, done);
    } else if from[i].status != Occupied {
      SkipSlot(from, i, t, m, done);
      RehashFromCorrect(from, i + 1, t, m, done);
    } else {
      NoNestedGrow(from, i, t, m, done);
      MoveSlot(from, i, t, m, done);
      var u := InsertSlot(t, from[i].key, from[i].value).value;
      RehashFromCorrect(from, i + 1, u, m, done[from[i].key := from[i].value]);
    }
  }

  lemma NoNestedGrow(from: seq<Slot>, i: nat, t: Table, m: map<nat, nat>, done: map<nat, nat>)
    requires Moving(from, i, t, m, done) && i < |from| && from[i].status == Occupied
    ensures !NeedsGrow(t) && Insert(t, from[i].key, from[i].value) == InsertSlot(t, from[i].key, from[i].value)
  {
    CountPrefix(from, i);
  }

  lemma SameMap(a: map<nat, nat>, b: map<nat, nat>)
    requires forall k: nat :: k in b ==> k in a
    requires forall k: nat :: k in a ==> k in b && a[k] == b[k]
    ensures a == b
  {
  }

  lemma MoveDone(from: seq<Slot>, t: Table, m: map<nat, nat>, done: map<nat, nat>)
    requires Moving(from, |from|, t, m, done)
    ensures done == m && Sound(t, m) && NoTombstone(t.slots) && t.size == Count(from)
  {
    assert from[..|from|] == from;
    forall k: nat | k in m ensures k in done {
      assert Present(from, k);
      var s: nat :| Holds(from, k, s);
      assert s < |from|;
      assert HeldBefore(from, k, |from|);
    }
    SameMap(done, m);
  }

  // A rehash into room for the keys ends, keeps the dictionary and drops the tombstones.
  lemma RehashCorrect(t: Table, m: map<nat, nat>, level: nat)
    requires Sound(t, m) && 3 <= level <= 27 && 4 * t.size < 3 * PRIMES[level] + 4
    ensures Rehash(t, level).Ends?
    ensures var r := Rehash(t, level).value;
      Sound(r, m) && NoTombstone(r.slots) && r.level == level && r.size == t.size
  {
    var blank := Table(level, 0, seq(PRIMES[level], _ => BLANK));
    CountBlank(PRIMES[level]);
    assert t.slots[..0] == [];
    assert Moving(t.slots, 0, blank, m, map[]);
    RehashFromCorrect(t.slots, 0, blank, m, map[]);
  }

  lemma NeighbourRoom(level: nat)
    requires 3 <= level <= 26
    ensures 4 * PRIMES[level] < 3 * PRIMES[level + 1] + 4
    ensures PRIMES[level + 1] < 3 * PRIMES[level] + 4
  {
  }

  // ---- the public operations on a dictionary ----

  // The table map_insert probes: the same dictionary, possibly in a larger table.
  function Grown(t: Table): Outcome<Table>
    requires Shape(t)
  {
    if NeedsGrow(t) then Rehash(t, t.level + 1) else Ends(t)
  }

  // The load limits leave room for the keys, at either end of the range of each capacity.
  lemma LimitsLeaveRoom(t: Table)
    requires Shape(t) && t.size <= |t.slots|
    ensures t.level < 27 ==> 4 * t.size < 3 * PRIMES[t.level + 1] + 4
    ensures t.level < 27 && !NeedsGrow(t) ==> t.size < |t.slots|
    ensures NeedsShrink(t) ==> 4 * t.size < 3 * PRIMES[t.level - 1] + 4
  {
    if t.level < 27 { NeighbourRoom(t.level); }
    if t.level > 3 { NeighbourRoom(t.level - 1); }
  }

  lemma RoomLeft(size: nat, level: nat)
    requires 3 <= level <= 27 && 4 * size < 3 * PRIMES[level] + 4
    ensures size < PRIMES[level]
  {
    Capacity(level);
  }

  // Below level 27 there is always room for one more key.
  lemma GrownCorrect(t: Table, m: map<nat, nat>)
    requires Sound(t, m)
    ensures Grown(t).Ends? && Sound(Grown(t).value, m) && Grown(t).value.size == t.size
    ensures t.level < 27 ==> t.size < |Grown(t).value.slots|
    ensures t.level == 27 ==> Grown(t).value == t
  {
    LimitsLeaveRoom(t);
    if NeedsGrow(t) {
      RehashCorrect(t, m, t.level + 1);
      RoomLeft(t.size, t.level + 1);
    }
  }

  lemma InsertSteps(t: Table, key: nat, value: nat)
    requires Shape(t)
    ensures Grown(t).Ends? ==> Insert(t, key, value) == InsertSlot(Grown(t).value, key, value)
    ensures Insert(t, key, value).Ends? ==> Grown(t).Ends?
  {
  }

  // No dictionary is that of the table.
  ghost predicate Broken(t: Table) {
    forall m :: !Sound(t, m)
  }

  lemma InsertPresent(u: Table, m: map<nat, nat>, key: nat, value: nat)
    requires Sound(u, m) && key in m
    ensures InsertSlot(u, key, value).Ends? && Broken(InsertSlot(u, key, value).value)
  {
    InsertSlotTwice(u, m, key, value, m);
    forall m' ensures !Sound(InsertSlot(u, key, value).value, m') {
      InsertSlotTwice(u, m, key, value, m');
    }
  }

  // An insertion ends unless the key is absent and the table is the largest one and full. It leaves a sound
  // table exactly when the key was absent, and then has added it.
  lemma InsertCorrect(t: Table, m: map<nat, nat>, key: nat, value: nat)
    requires Sound(t, m)
    ensures Insert(t, key, value).Ends? <==> key in m || t.level < 27 || t.size < |t.slots|
    ensures Insert(t, key, value).Ends? && key !in m ==> Sound(Insert(t, key, value).value, m[key := value])
    ensures Insert(t, key, value).Ends? && key in m ==> Broken(Insert(t, key, value).value)
  {
    GrownCorrect(t, m);
    InsertSteps(t, key, value);
    if key in m {
      InsertPresent(Grown(t).value, m, key, value);
    } else {
      InsertSlotCorrect(Grown(t).value, m, key, value);
    }
  }

  // The table map_delete searches.
  function Shrunk(t: Table): Outcome<Table>
    requires Shape(t)
  {
    if NeedsShrink(t) then Rehash(t, t.level - 1) else Ends(t)
  }

  // After a shrink an empty slot is left.
  lemma ShrunkCorrect(t: Table, m: map<nat, nat>)
    requires Sound(t, m)
    ensures Shrunk(t).Ends? && Sound(Shrunk(t).value, m)
    ensures NeedsShrink(t) ==> HasEmpty(Shrunk(t).value.slots)
  {
    LimitsLeaveRoom(t);
    if NeedsShrink(t) {
      RehashEmpties(t, m, t.level - 1);
    }
  }

  lemma RehashEmpties(t: Table, m: map<nat, nat>, level: nat)
    requires Sound(t, m) && 3 <= level <= 27 && 4 * t.size < 3 * PRIMES[level] + 4
    ensures Rehash(t, level).Ends? && Sound(Rehash(t, level).value, m) && HasEmpty(Rehash(t, level).value.slots)
  {
    RehashCorrect(t, m, level);
    RoomLeft(t.size, level);
    VacantIsEmpty(Rehash(t, level).value);
  }

  lemma VacantIsEmpty(t: Table)
    requires NoTombstone(t.slots) && Count(t.slots) < |t.slots|
    ensures HasEmpty(t.slots)
  {
    VacantCount(t.slots);
    var s: nat :| s < |t.slots| && t.slots[s].status != Occupied;
    assert t.slots[s].status == Empty;
  }

  lemma DeleteSteps(t: Table, key: nat)
    requires Shape(t)
    ensures Shrunk(t).Ends? ==> Delete(t, key) == DeleteSlot(Shrunk(t).value, key)
    ensures Delete(t, key).Ends? ==> Shrunk(t).Ends?
  {
  }

  // A deletion ends exactly if it shrinks the table, the key is stored or a slot is empty.
  lemma DeleteCorrect(t: Table, m: map<nat, nat>, key: nat)
    requires Sound(t, m)
    ensures Delete(t, key).Ends? <==> NeedsShrink(t) || key in m || HasEmpty(t.slots)
    ensures Delete(t, key).Ends? ==> Sound(Delete(t, key).value, m - {key})
  {
    ShrunkCorrect(t, m);
    DeleteSteps(t, key);
    DeleteSlotCorrect(Shrunk(t).value, m, key);
  }

  lemma InitSound()
    ensures Sound(Init(), map[]) && NoTombstone(Init().slots)
  {
    CountBlank(7);
  }
}
