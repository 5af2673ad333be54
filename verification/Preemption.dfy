// Going to sleep in a later pass of mutex_acquire, store by store (kernel/include/kernel/sync.h:64-66 with
// list_move_to_tail of kernel/include/klib/list.h): interrupts are on, so the timer can come between any two stores.

module Preemption {
  import opened Basics
  import opened Links

  // The links of list heads and tasks, by number; a null link has no entry. `sleeping` is the state field.
  datatype Memory = Memory(next: map<nat, nat>, prev: map<nat, nat>, sleeping: set<nat>)

  function After(s: seq<nat>, i: nat): nat
    requires i < |s|
  {
    if i + 1 == |s| then s[0] else s[i + 1]
  }

  predicate NextAt(next: map<nat, nat>, s: seq<nat>, i: nat) {
    i < |s| && s[i] in next && next[s[i]] == After(s, i)
  }

  predicate PrevAt(prev: map<nat, nat>, s: seq<nat>, i: nat) {
    i < |s| && After(s, i) in prev && prev[After(s, i)] == s[i]
  }

  // Following `next` from the first node visits the others in order and comes back to it.
  ghost predicate NextCycle(next: map<nat, nat>, s: seq<nat>) {
    s != [] && Distinct(s) && forall i: nat :: i < |s| ==> NextAt(next, s, i)
  }

  ghost predicate PrevCycle(prev: map<nat, nat>, s: seq<nat>) {
    s != [] && forall i: nat :: i < |s| ==> PrevAt(prev, s, i)
  }

  ghost predicate Ring(m: Memory, s: seq<nat>) {
    NextCycle(m.next, s) && PrevCycle(m.prev, s)
  }

  // The task that goes to sleep, its neighbours on the run list, and the two ends of the waiting list.
  datatype Move = Move(node: nat, left: nat, right: nat, last: nat, head: nat)

  // The first j stores, in the order of list_del, list_add_tail and the state field.
  function Stored(m: Memory, v: Move, j: nat): Memory
    requires j <= 9
  {
    if j == 0 then m else
      var b := Stored(m, v, j - 1);
      if j == 1 then b.(next := b.next[v.left := v.right])
      else if j == 2 then b.(prev := b.prev[v.right := v.left])
      else if j == 3 then b.(next := b.next - {v.node})
      else if j == 4 then b.(prev := b.prev - {v.node})
      else if j == 5 then b.(next := b.next[v.node := v.head])
      else if j == 6 then b.(prev := b.prev[v.node := v.last])
      else if j == 7 then b.(next := b.next[v.last := v.node])
      else if j == 8 then b.(prev := b.prev[v.head := v.node])
      else b.(sleeping := b.sleeping + {v.node})
  }

  // Before the move: the task at position k of the run list, whose head is its first node, and a waiting list.
  ghost predicate Ready(m: Memory, run: seq<nat>, k: nat, wait: seq<nat>, v: Move) {
    && Ring(m, run) && Ring(m, wait) && 0 < k < |run| && (forall x :: x in run ==> x !in wait)
    && v == Move(run[k], run[k - 1], After(run, k), wait[|wait| - 1], wait[0])
    && (forall x :: x in run ==> x !in m.sleeping)
  }

  // `r` and `w` are rings from the same heads, and each task of the two lists is in exactly one of them.
  ghost predicate Lists(m: Memory, run: seq<nat>, wait: seq<nat>, r: seq<nat>, w: seq<nat>) {
    && run != [] && wait != [] && Ring(m, r) && Ring(m, w) && r[0] == run[0] && w[0] == wait[0]
    && forall x :: x in run || x in wait ==> (x in r <==> x !in w)
  }

  ghost predicate OneList(m: Memory, run: seq<nat>, wait: seq<nat>) {
    exists r, w :: Lists(m, run, wait, r, w)
  }

  // Besides, the task's state says which list it is in.
  ghost predicate Settled(m: Memory, run: seq<nat>, wait: seq<nat>, node: nat) {
    exists r, w :: Lists(m, run, wait, r, w) && (node in w <==> node in m.sleeping)
  }

  // ---- a cycle is what its links say ----

  lemma {:induction false} SameUpTo(next: map<nat, nat>, s: seq<nat>, r: seq<nat>, i: nat)
    requires NextCycle(next, s) && NextCycle(next, r) && r[0] == s[0] && i < |r|
    ensures i < |s| && r[i] == s[i]
  {
    if i == 0 {
    } else {
      SameUpTo(next, s, r, i - 1);
      assert NextAt(next, s, i - 1) && NextAt(next, r, i - 1) && r[0] != r[i];
    }
  }

  lemma SameCycle(next: map<nat, nat>, s: seq<nat>, r: seq<nat>)
    requires NextCycle(next, s) && NextCycle(next, r) && r[0] == s[0]
    ensures r == s
  {
    SameUpTo(next, s, r, |r| - 1);
    SameUpTo(next, r, s, |s| - 1);
    forall i | 0 <= i < |r| ensures r[i] == s[i] {
      SameUpTo(next, s, r, i);
    }
  }

  // ---- the links after each store ----

  predicate Kept(was: map<nat, nat>, now: map<nat, nat>, x: nat) {
    x in was ==> x in now && now[x] == was[x]
  }

  lemma AfterCut(s: seq<nat>, k: nat, i: nat, j: nat)
    requires 0 < k < |s| && i < |s| - 1 && j == (if i < k then i else i + 1)
    ensures i < |Without(s, k)| && Without(s, k)[i] == s[j]
    ensures After(Without(s, k), i) == if j == k - 1 then After(s, k) else After(s, j)
  {
  }

  lemma CutNext(next: map<nat, nat>, now: map<nat, nat>, s: seq<nat>, k: nat)
    requires NextCycle(next, s) && 0 < k < |s|
    requires s[k - 1] in now && now[s[k - 1]] == After(s, k)
    requires forall x :: x in s && x != s[k] && x != s[k - 1] ==> Kept(next, now, x)
    ensures NextCycle(now, Without(s, k))
  {
    var r := Without(s, k);
    forall i: nat | i < |r| ensures NextAt(now, r, i) {
      var j := if i < k then i else i + 1;
      AfterCut(s, k, i, j);
      assert s[j] in s && NextAt(next, s, j);
      assert j != k && s[j] != s[k];
    }
    DistinctWithout(s, k);
  }

  lemma CutPrev(prev: map<nat, nat>, now: map<nat, nat>, s: seq<nat>, k: nat)
    requires PrevCycle(prev, s) && Distinct(s) && 0 < k < |s|
    requires After(s, k) in now && now[After(s, k)] == s[k - 1]
    requires forall x :: x in s && x != s[k] && x != After(s, k) ==> Kept(prev, now, x)
    ensures PrevCycle(now, Without(s, k))
  {
    var r := Without(s, k);
    forall i: nat | i < |r| ensures PrevAt(now, r, i) {
      var j := if i < k then i else i + 1;
      AfterCut(s, k, i, j);
      assert PrevAt(prev, s, j);
      assert After(s, j) in s && (j != k - 1 ==> After(s, j) != After(s, k));
    }
  }

  lemma DistinctWithout(s: seq<nat>, k: nat)
    requires Distinct(s) && k < |s|
    ensures Distinct(Without(s, k)) && forall x :: x in Without(s, k) <==> x in s && x != s[k]
  {
    forall x {
      WithoutMembers(s, k, x);
    }
  }

  lemma SameNext(next: map<nat, nat>, now: map<nat, nat>, s: seq<nat>)
    requires NextCycle(next, s) && forall x :: x in s ==> Kept(next, now, x)
    ensures NextCycle(now, s)
  {
    forall i: nat | i < |s| ensures NextAt(now, s, i) {
      assert NextAt(next, s, i) && s[i] in s;
    }
  }

  lemma SamePrev(prev: map<nat, nat>, now: map<nat, nat>, s: seq<nat>)
    requires PrevCycle(prev, s) && forall x :: x in s ==> Kept(prev, now, x)
    ensures PrevCycle(now, s)
  {
    forall i: nat | i < |s| ensures PrevAt(now, s, i) {
      assert PrevAt(prev, s, i) && After(s, i) in s;
    }
  }

  lemma GrownNext(next: map<nat, nat>, now: map<nat, nat>, s: seq<nat>, y: nat)
    requires NextCycle(next, s) && y !in s && y in now && now[y] == s[0]
    requires s[|s| - 1] in now && now[s[|s| - 1]] == y
    requires forall x :: x in s && x != s[|s| - 1] ==> Kept(next, now, x)
    ensures NextCycle(now, s + [y])
  {
    var r := s + [y];
    forall i: nat | i < |r| ensures NextAt(now, r, i) {
      if i < |s| - 1 {
        assert NextAt(next, s, i) && s[i] in s && s[i] != s[|s| - 1];
        assert After(r, i) == After(s, i);
      }
    }
  }

  lemma GrownPrev(prev: map<nat, nat>, now: map<nat, nat>, s: seq<nat>, y: nat)
    requires PrevCycle(prev, s) && Distinct(s) && y !in s && y in now && now[y] == s[|s| - 1]
    requires s[0] in now && now[s[0]] == y
    requires forall x :: x in s && x != s[0] ==> Kept(prev, now, x)
    ensures PrevCycle(now, s + [y])
  {
    var r := s + [y];
    forall i: nat | i < |r| ensures PrevAt(now, r, i) {
      if i < |s| - 1 {
        assert PrevAt(prev, s, i) && After(r, i) == After(s, i) == s[i + 1] && s[i + 1] in s && s[0] != s[i + 1];
      }
    }
  }

  // ---- what an interrupt finds after j stores ----

  function NextNow(m: Memory, v: Move, j: nat): map<nat, nat> {
    var cut := m.next[v.left := v.right];
    if j == 0 then m.next
    else if j <= 2 then cut
    else if j <= 4 then cut - {v.node}
    else if j <= 6 then (cut - {v.node})[v.node := v.head]
    else (cut - {v.node})[v.node := v.head][v.last := v.node]
  }

  function PrevNow(m: Memory, v: Move, j: nat): map<nat, nat> {
    var cut := m.prev[v.right := v.left];
    if j <= 1 then m.prev
    else if j <= 3 then cut
    else if j <= 5 then cut - {v.node}
    else if j <= 7 then (cut - {v.node})[v.node := v.last]
    else (cut - {v.node})[v.node := v.last][v.head := v.node]
  }

  lemma {:induction false} StoredUnfold(m: Memory, v: Move, j: nat)
    requires j <= 9
    ensures Stored(m, v, j).next == NextNow(m, v, j) && Stored(m, v, j).prev == PrevNow(m, v, j)
    ensures Stored(m, v, j).sleeping == if j == 9 then m.sleeping + {v.node} else m.sleeping
  {
    if j == 0 {
    } else {
      StoredUnfold(m, v, j - 1);
    }
  }

  // From the first store on `next` leads around the run list without the task ...
  lemma RunNext(m: Memory, run: seq<nat>, k: nat, wait: seq<nat>, v: Move, j: nat)
    requires Ready(m, run, k, wait, v) && 1 <= j <= 9
    ensures NextCycle(NextNow(m, v, j), Without(run, k))
  {
    assert v.left in run && v.node in run && v.last in wait;
    CutNext(m.next, NextNow(m, v, j), run, k);
  }

  // ... and from the second on so does `prev`.
  lemma RunPrev(m: Memory, run: seq<nat>, k: nat, wait: seq<nat>, v: Move, j: nat)
    requires Ready(m, run, k, wait, v) && 2 <= j <= 9
    ensures PrevCycle(PrevNow(m, v, j), Without(run, k))
  {
    assert v.right in run && v.node in run && v.head in wait && v.right != v.node;
    CutPrev(m.prev, PrevNow(m, v, j), run, k);
  }

  // Around the waiting list `next` leads without the task up to the sixth store, and with it from the seventh on;
  // `prev` from the eighth on.
  lemma WaitNext(m: Memory, run: seq<nat>, k: nat, wait: seq<nat>, v: Move, j: nat)
    requires Ready(m, run, k, wait, v) && j <= 9
    ensures NextCycle(NextNow(m, v, j), if j <= 6 then wait else wait + [v.node])
  {
    assert v.left in run && v.node in run && v.last in wait;
    if j <= 6 {
      SameNext(m.next, NextNow(m, v, j), wait);
    } else {
      GrownNext(m.next, NextNow(m, v, j), wait, v.node);
    }
  }

  lemma WaitPrev(m: Memory, run: seq<nat>, k: nat, wait: seq<nat>, v: Move, j: nat)
    requires Ready(m, run, k, wait, v) && j <= 9
    ensures PrevCycle(PrevNow(m, v, j), if j <= 7 then wait else wait + [v.node])
  {
    assert v.right in run && v.node in run && v.head in wait;
    if j <= 7 {
      SamePrev(m.prev, PrevNow(m, v, j), wait);
    } else {
      GrownPrev(m.prev, PrevNow(m, v, j), wait, v.node);
    }
  }

  // No list leads to the task: the scheduler, which follows `next`, does not come back to it, and nobody wakes it.
  ghost predicate Lost(m: Memory, run: seq<nat>, wait: seq<nat>, node: nat) {
    run != [] && wait != [] &&
    forall s :: NextCycle(m.next, s) && (s[0] == run[0] || s[0] == wait[0]) ==> node !in s
  }

  lemma MiddleLost(m: Memory, run: seq<nat>, k: nat, wait: seq<nat>, v: Move, j: nat)
    requires Ready(m, run, k, wait, v) && 1 <= j <= 6
    ensures Lost(Stored(m, v, j), run, wait, v.node)
  {
    var next := NextNow(m, v, j);
    StoredUnfold(m, v, j);
    RunNext(m, run, k, wait, v, j);
    WaitNext(m, run, k, wait, v, j);
    DistinctWithout(run, k);
    assert v.node in run && Without(run, k)[0] == run[0];
    forall s | NextCycle(next, s) && (s[0] == run[0] || s[0] == wait[0]) ensures v.node !in s {
      if s[0] == run[0] { SameCycle(next, Without(run, k), s); } else { SameCycle(next, wait, s); }
    }
  }

  lemma LostNotListed(m: Memory, run: seq<nat>, wait: seq<nat>, node: nat)
    requires Lost(m, run, wait, node) && node in run
    ensures !OneList(m, run, wait)
  {
    forall r, w ensures !Lists(m, run, wait, r, w) {
    }
  }

  lemma HeadLooksBack(m: Memory, run: seq<nat>, k: nat, wait: seq<nat>, v: Move)
    requires Ready(m, run, k, wait, v)
    ensures wait[0] in PrevNow(m, v, 7) && PrevNow(m, v, 7)[wait[0]] != v.node
  {
    WaitPrev(m, run, k, wait, v, 7);
    assert PrevAt(PrevNow(m, v, 7), wait, |wait| - 1) && wait[|wait| - 1] in wait && v.node in run;
  }

  // After seven stores `next` finds the task on the waiting list, but `prev` does not.
  lemma HalfListed(m: Memory, run: seq<nat>, k: nat, wait: seq<nat>, v: Move)
    requires Ready(m, run, k, wait, v)
    ensures !OneList(Stored(m, v, 7), run, wait)
  {
    var d := Stored(m, v, 7);
    StoredUnfold(m, v, 7);
    WaitNext(m, run, k, wait, v, 7);
    HeadLooksBack(m, run, k, wait, v);
    forall r, w ensures !Lists(d, run, wait, r, w) {
      if NextCycle(d.next, w) && w[0] == wait[0] {
        SameCycle(d.next, wait + [v.node], w);
        assert !PrevAt(d.prev, w, |w| - 1);
      }
    }
  }

  lemma Done(m: Memory, run: seq<nat>, k: nat, wait: seq<nat>, v: Move, j: nat)
    requires Ready(m, run, k, wait, v) && 8 <= j <= 9
    ensures Lists(Stored(m, v, j), run, wait, Without(run, k), wait + [v.node])
  {
    StoredUnfold(m, v, j);
    RunNext(m, run, k, wait, v, j);
    RunPrev(m, run, k, wait, v, j);
    WaitNext(m, run, k, wait, v, j);
    WaitPrev(m, run, k, wait, v, j);
    DistinctWithout(run, k);
  }

  // An interrupt leaves every task in exactly one list before the first store and after the eighth, and with the
  // right state only before the first and after the last; between the first and the seventh it loses the task.
  lemma Interrupted(m: Memory, run: seq<nat>, k: nat, wait: seq<nat>, v: Move, j: nat)
    requires Ready(m, run, k, wait, v) && j <= 9
    ensures OneList(Stored(m, v, j), run, wait) <==> j == 0 || 8 <= j
    ensures Settled(Stored(m, v, j), run, wait, v.node) <==> j == 0 || j == 9
    ensures 1 <= j <= 6 ==> Lost(Stored(m, v, j), run, wait, v.node)
  {
    var d := Stored(m, v, j);
    assert v.node in run;
    StoredUnfold(m, v, j);
    if j == 0 {
      assert Lists(d, run, wait, run, wait);
    } else if j <= 6 {
      MiddleLost(m, run, k, wait, v, j);
      LostNotListed(d, run, wait, v.node);
    } else if j == 7 {
      HalfListed(m, run, k, wait, v);
    } else {
      Done(m, run, k, wait, v, j);
      if j == 8 { NotSettled(m, run, k, wait, v); }
    }
  }

  lemma NotSettled(m: Memory, run: seq<nat>, k: nat, wait: seq<nat>, v: Move)
    requires Ready(m, run, k, wait, v)
    ensures !Settled(Stored(m, v, 8), run, wait, v.node)
  {
    var d := Stored(m, v, 8);
    assert v.node in run;
    StoredUnfold(m, v, 8);
    WaitNext(m, run, k, wait, v, 8);
    forall r, w | Lists(d, run, wait, r, w) ensures v.node in w {
      SameCycle(d.next, wait + [v.node], w);
    }
  }
}
