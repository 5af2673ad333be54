// In which order tasks get the processor: the run list read from the next task on, around its end, is a queue, and
// every step of the scheduler and the mutex is an operation on it. Over whole runs no runnable task is passed over.

module RunQueue {
  import opened Basics
  import opened Scheduling

  // The run list from position i on, around.
  function Rotated(run: seq<nat>, i: nat): (q: seq<nat>)
    requires i <= |run|
    ensures |q| == |run|
  {
    run[i..] + run[..i]
  }

  function Queue(s: System): (q: seq<nat>)
    requires s.next in s.run
    ensures |q| == |s.run| && q != [] && q[0] == s.next
  {
    Rotated(s.run, IndexOf(s.run, s.next))
  }

  lemma QueueIs(s: System, i: nat)
    requires Distinct(s.run) && i < |s.run| && s.run[i] == s.next
    ensures Queue(s) == Rotated(s.run, i)
  {
    IndexUnique(s.run, i, IndexOf(s.run, s.next));
  }

  lemma QueueMembers(s: System)
    requires s.next in s.run
    ensures forall t :: t in Queue(s) <==> t in s.run
  {
    var i := IndexOf(s.run, s.next);
    assert s.run == s.run[..i] + s.run[i..];
  }

  // ---- one switch ----

  // The first of the queue gets the processor and goes to its end.
  predicate Turned(q: seq<nat>, current: nat, after: seq<nat>) {
    q != [] && current == q[0] && after == q[1..] + [q[0]]
  }

  lemma RotateOnce(run: seq<nat>, i: nat)
    requires i < |run|
    ensures Rotated(run, if i + 1 < |run| then i + 1 else 0) == Rotated(run, i)[1..] + [run[i]]
  {
    if i + 1 < |run| {
      assert run[i..] == [run[i]] + run[i + 1..];
      assert run[..i + 1] == run[..i] + [run[i]];
    } else {
      assert run == run[..i] + [run[i]];
    }
  }

  lemma ScheduleTurns(s: System)
    requires Distinct(s.run) && s.next in s.run
    ensures Turned(Queue(s), Schedule(s).current, Queue(Schedule(s)))
  {
    var i := IndexOf(s.run, s.next);
    RotateOnce(s.run, i);
    QueueIs(Schedule(s), if i + 1 < |s.run| then i + 1 else 0);
  }

  // ---- going to sleep ----

  // The queue without its element number k.
  function Without(q: seq<nat>, k: nat): (r: seq<nat>)
    requires k < |q|
    ensures |r| == |q| - 1
  {
    q[..k] + q[k + 1..]
  }

  // Taking the element at position j off the list takes it off the queue.
  lemma RotateWithout(run: seq<nat>, i: nat, j: nat)
    requires i < |run| && j < |run| && i != j
    ensures var k := if j > i then j - i else j + |run| - i;
      && 0 < k < |run| && Rotated(run, i)[k] == run[j]
      && Rotated(Without(run, j), if j < i then i - 1 else i) == Without(Rotated(run, i), k)
  {
  }

  ghost predicate Left(q: seq<nat>, x: nat, p: seq<nat>) {
    exists k :: 0 < k < |q| && q[k] == x && p == Without(q, k)
  }

  lemma LeavesAt(q: seq<nat>, k: nat)
    requires 0 < k < |q|
    ensures Left(q, q[k], Without(q, k))
  {
  }

  lemma NextStays(run: seq<nat>, i: nat, j: nat)
    requires i < |run| && j < |run| && i != j
    ensures Without(run, j)[if j < i then i - 1 else i] == run[i]
  {
  }

  // The list without x at position j, read from y at position i on.
  lemma RemoveLeaves(run: seq<nat>, x: nat, y: nat, i: nat, j: nat, r: seq<nat>)
    requires i < |run| && j < |run| && i != j && run[i] == y && run[j] == x
    requires r == Without(run, j) && Distinct(r) && y in r
    ensures Left(Rotated(run, i), x, Rotated(r, IndexOf(r, y)))
  {
    RotateWithout(run, i, j);
    LeavesAt(Rotated(run, i), if j > i then j - i else j + |run| - i);
    NextStays(run, i, j);
    IndexUnique(r, if j < i then i - 1 else i, IndexOf(r, y));
  }

  lemma QueuedLeaves(s: System)
    requires WellFormed(s) && Distinct(s.run) && CanBlock(s)
    ensures var r := Queued(s); Distinct(r.run) && r.next in r.run && Left(Queue(s), s.current, Queue(r))
  {
    RemoveMembers(s.run, s.current);
    RemoveLeaves(s.run, s.current, s.next, IndexOf(s.run, s.next), IndexOf(s.run, s.current),
      Remove(s.run, s.current));
  }

  lemma BlockTurns(s: System)
    requires ListsInOrder(s) && CanBlock(s)
    ensures exists q :: Left(Queue(s), s.current, q) && Turned(q, Block(s).current, Queue(Block(s)))
  {
    QueuedLeaves(s);
    ScheduleTurns(Queued(s));
  }

  // ---- arrivals ----

  lemma RotateInsert(run: seq<nat>, i: nat, y: nat)
    requires i < |run|
    ensures Rotated(run[..i] + [y] + run[i..], i) == [y] + Rotated(run, i)
  {
  }

  lemma WakeArrives(s: System)
    requires ListsInOrder(s) && s.wait != []
    ensures Wake(s).next in Wake(s).run && Queue(Wake(s)) == [s.wait[0]] + Queue(s)
  {
    var i := IndexOf(s.run, s.next);
    WakeMembers(s.run, s.next, s.wait);
    RotateInsert(s.run, i, s.wait[0]);
    QueueIs(Wake(s), i);
  }

  lemma RotateInsertAt(run: seq<nat>, i: nat, j: nat, y: nat)
    requires i < |run| && j < |run|
    ensures var k := if j > i then j - i else j + |run| - i;
      && 0 < k <= |run| && (if k == |run| then j == i else Rotated(run, i)[k] == run[j])
      && Rotated(run[..j] + [y] + run[j..], if j <= i then i + 1 else i) ==
         Rotated(run, i)[..k] + [y] + Rotated(run, i)[k..]
  {
  }

  // `p` is `q` with y right before x, or at the end if x is the first.
  ghost predicate Joined(q: seq<nat>, x: nat, y: nat, p: seq<nat>) {
    exists k :: 0 < k <= |q| && x == (if k == |q| then q[0] else q[k]) && p == q[..k] + [y] + q[k..]
  }

  lemma CreatedArrives(s: System)
    requires ListsInOrder(s)
    ensures var r := Created(s); r.next in r.run && Joined(Queue(s), s.current, s.created, Queue(r))
  {
    var i, j := IndexOf(s.run, s.next), IndexOf(s.run, s.current);
    InsertMembers(s.run, s.current, s.created);
    RotateInsertAt(s.run, i, j, s.created);
    QueueIs(Created(s), if j <= i then i + 1 else i);
  }

  // ---- steps ----

  // The processor changes hands.
  predicate Switches(s: System, step: Step) {
    step == Tick || Blocks(s, step)
  }

  // A task comes onto the run list.
  predicate Arrives(s: System, step: Step) {
    step == Create || (step == Release && s.wait != [])
  }

  // What a step does to the queue q and to who has the processor.
  ghost predicate QueueStep(s: System, step: Step, r: System)
    requires s.next in s.run && r.next in r.run
  {
    var q, p := Queue(s), Queue(r);
    if step == Tick then Turned(q, r.current, p)
    else if Blocks(s, step) then exists m :: Left(q, s.current, m) && Turned(m, r.current, p)
    else
      && r.current == s.current
      && if step == Release && s.wait != [] then p == [s.wait[0]] + q
         else if step == Create then Joined(q, s.current, s.created, p)
         else p == q
  }

  lemma SameQueue(s: System, r: System)
    requires s.next in s.run && r.run == s.run && r.next == s.next
    ensures Queue(r) == Queue(s)
  {
  }

  lemma ReleaseQueue(s: System)
    requires ListsInOrder(s) && Enabled(s, Release)
    ensures var r := Apply(s, Release);
      && r.next in r.run && r.current == s.current
      && Queue(r) == if s.wait == [] then Queue(s) else [s.wait[0]] + Queue(s)
  {
    if s.wait != [] { WakeArrives(s); }
    SameQueue(Wake(s), Apply(s, Release));
  }

  lemma StepQueue(s: System, step: Step)
    requires ListsInOrder(s) && Enabled(s, step)
    ensures Apply(s, step).next in Apply(s, step).run && QueueStep(s, step, Apply(s, step))
  {
    if step == Tick {
      ScheduleTurns(s);
    } else if Blocks(s, step) {
      BlockTurns(s);
    } else if step == Release {
      ReleaseQueue(s);
    } else if step == Create {
      CreatedArrives(s);
    } else {
      SameQueue(s, Apply(s, step));
    }
  }

  // ---- going to sleep, by positions ----

  // After a step that puts the current task to sleep, the next task has the processor, and the first other task met
  // from it on around the run list follows: the next task itself if there is none.
  lemma BlockOrder(s: System, step: Step, i: nat, d: nat)
    requires ListsInOrder(s) && Enabled(s, step) && Blocks(s, step)
    requires i < |s.run| && s.run[i] == s.next
    requires 0 < d <= |s.run| && s.run[Wrap(i + d, |s.run|)] != s.current
    requires d > 1 ==> d == 2 && s.run[Wrap(i + 1, |s.run|)] == s.current
    ensures Apply(s, step).current == s.next && Apply(s, step).next == s.run[Wrap(i + d, |s.run|)]
  {
    var q := Queue(s);
    BlockTurns(s);
    QueueIs(s, i);
    var m :| Left(q, s.current, m) && Turned(m, Block(s).current, Queue(Block(s)));
    var k: nat :| 0 < k < |q| && q[k] == s.current && m == Without(q, k);
    BlockNext(s.run, i, d, k, s.current);
  }

  lemma BlockNext(run: seq<nat>, i: nat, d: nat, k: nat, x: nat)
    requires Distinct(run) && i < |run| && 0 < k < |run| && Rotated(run, i)[k] == x
    requires 0 < d <= |run| && run[Wrap(i + d, |run|)] != x
    requires d > 1 ==> d == 2 && run[Wrap(i + 1, |run|)] == x
    ensures var m := Without(Rotated(run, i), k); m[0] == run[i] && (m[1..] + [m[0]])[0] == run[Wrap(i + d, |run|)]
  {
    assert Rotated(run, i)[k] == run[Wrap(i + k, |run|)];
    if d > 1 {
      IndexUnique(run, Wrap(i + k, |run|), Wrap(i + 1, |run|));
      assert k == 1;
    } else {
      assert k != 1;
    }
  }

  // ---- runs ----

  function SwitchCount(s: System, steps: seq<Step>): nat
    requires Runs(s, steps)
    decreases |steps|
  {
    if steps == [] then 0
    else (if Switches(s, steps[0]) then 1 else 0) + SwitchCount(Apply(s, steps[0]), steps[1..])
  }

  function ArrivalCount(s: System, steps: seq<Step>): nat
    requires Runs(s, steps)
    decreases |steps|
  {
    if steps == [] then 0
    else (if Arrives(s, steps[0]) then 1 else 0) + ArrivalCount(Apply(s, steps[0]), steps[1..])
  }

  // The task has the processor at some point of the run.
  predicate GetsTurn(s: System, steps: seq<Step>, t: nat)
    requires Runs(s, steps)
    decreases |steps|
  {
    s.current == t || (steps != [] && GetsTurn(Apply(s, steps[0]), steps[1..], t))
  }

  // The task is number k of the queue.
  predicate Waits(s: System, t: nat, k: nat) {
    s.next in s.run && k < |Queue(s)| && Queue(s)[k] == t
  }

  lemma TurnForward(q: seq<nat>, current: nat, p: seq<nat>, k: nat)
    requires Turned(q, current, p) && k < |q|
    ensures if k == 0 then current == q[k] else p[k - 1] == q[k]
  {
  }

  lemma LeftForward(q: seq<nat>, x: nat, m: seq<nat>, k: nat) returns (i: nat)
    requires Left(q, x, m) && k < |q| && q[k] != x
    ensures i <= k && i < |m| && m[i] == q[k]
  {
    var l: nat :| 0 < l < |q| && q[l] == x && m == Without(q, l);
    i := if k < l then k else k - 1;
  }

  // A switch brings every runnable task forward, or gives it the processor.
  lemma SwitchForward(s: System, step: Step, t: nat, k: nat) returns (j: nat)
    requires ListsInOrder(s) && Enabled(s, step) && Switches(s, step) && Waits(s, t, k) && t != s.current
    ensures Apply(s, step).current == t || (j < k && Waits(Apply(s, step), t, j))
  {
    var q, r := Queue(s), Apply(s, step);
    StepQueue(s, step);
    var m, i := q, k;
    if step != Tick {
      m :| Left(q, s.current, m) && Turned(m, r.current, Queue(r));
      i := LeftForward(q, s.current, m, k);
    }
    TurnForward(m, r.current, Queue(r), i);
    j := if i == 0 then 0 else i - 1;
  }

  lemma JoinedBehind(q: seq<nat>, x: nat, y: nat, p: seq<nat>, k: nat) returns (j: nat)
    requires Joined(q, x, y, p) && k < |q|
    ensures j <= k + 1 && j < |p| && p[j] == q[k]
  {
    var l: nat :| 0 < l <= |q| && p == q[..l] + [y] + q[l..];
    j := if k < l then k else k + 1;
  }

  // Every other step puts at most one task ahead of it.
  lemma OtherForward(s: System, step: Step, t: nat, k: nat) returns (j: nat)
    requires ListsInOrder(s) && Enabled(s, step) && !Switches(s, step) && Waits(s, t, k)
    ensures Waits(Apply(s, step), t, j) && j <= (if Arrives(s, step) then k + 1 else k)
    ensures Apply(s, step).current == s.current
  {
    var q, r := Queue(s), Apply(s, step);
    StepQueue(s, step);
    if step == Create {
      j := JoinedBehind(q, s.current, s.created, Queue(r), k);
    } else if Arrives(s, step) {
      j := k + 1;
    } else {
      j := k;
    }
  }

  // No runnable task is passed over: with k tasks ahead of it, it has the processor after k + 1 switches, and one
  // more for each task that came onto the run list meanwhile.
  lemma {:induction false} NotPassedOver(s: System, steps: seq<Step>, t: nat, k: nat)
    requires ListsInOrder(s) && Runs(s, steps) && Waits(s, t, k)
    requires SwitchCount(s, steps) > k + ArrivalCount(s, steps)
    ensures GetsTurn(s, steps, t)
    decreases |steps|
  {
    if s.current == t {
    } else {
      var step := steps[0];
      StepKeepsLists(s, step);
      var j;
      if Switches(s, step) {
        j := SwitchForward(s, step, t, k);
      } else {
        j := OtherForward(s, step, t, k);
      }
      if Apply(s, step).current != t {
        NotPassedOver(Apply(s, step), steps[1..], t, j);
      }
    }
  }

  // A woken task is the one that gets the processor from the task that woke it.
  lemma HandedOver(s: System, step: Step)
    requires ListsInOrder(s) && s.wait != [] && Enabled(s, Release)
    ensures WellFormed(Apply(s, Release))
    ensures Enabled(Apply(s, Release), step) && Switches(Apply(s, Release), step) ==>
      Apply(Apply(s, Release), step).current == s.wait[0]
  {
    StepKeepsLists(s, Release);
    StepQueue(s, Release);
    var r := Apply(s, Release);
    if Enabled(r, step) && Switches(r, step) {
      StepQueue(r, step);
    }
  }
}
