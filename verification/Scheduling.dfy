// Round-robin scheduling with a sleeping mutex (kernel/kernel/schedule.c, kernel/include/kernel/sync.h) as a
// transition system on one processor. The first pass of mutex_acquire and mutex_release run with interrupts off,
// but task_schedule turns them on again, so a task that was put to sleep and woken goes through its next pass in
// separate steps: the test (Retest), writing the holder (Claim), going to sleep (Enqueue). Enqueue and Create are
// taken as one step each although the source runs them with interrupts on (sync.h:64-66, task.c:39-65); Preemption
// says what an interrupt between the stores of Enqueue finds.

module Scheduling {
  import opened Basics

  // Where a task stands with respect to the mutex.
  datatype Location =
    | Outside    // not in mutex_acquire, not holding
    | InLoop     // in mutex_acquire: asleep in the waiting list, or woken and about to test again
    | Failed     // the later test found the lock taken; the task is not in the waiting list yet
    | Won        // the later test took the lock; the holder is not written yet
    | Holding

  // `run` is the run list from its head on, `wait` the waiting list; `blocked` and `woken` record who was put
  // to sleep and who was woken, in order.
  datatype System = System(run: seq<nat>, wait: seq<nat>, current: nat, next: nat, value: bool, holder: int,
    location: map<nat, Location>, created: nat, blocked: seq<nat>, woken: seq<nat>)

  datatype Step = Tick | Create | Acquire | Retest | Claim | Enqueue | Release

  // ---- lists ----

  function IndexOf(s: seq<nat>, x: nat): (i: nat)
    requires x in s
    ensures i < |s| && s[i] == x
  {
    if s[0] == x then 0 else 1 + IndexOf(s[1..], x)
  }

  // next_task: the following task of the run list, skipping the list head.
  function Successor(run: seq<nat>, x: nat): (y: nat)
    requires x in run
    ensures y in run
  {
    var i := IndexOf(run, x);
    if i + 1 < |run| then run[i + 1] else run[0]
  }

  function InsertBefore(run: seq<nat>, x: nat, y: nat): seq<nat>
    requires x in run
  {
    run[..IndexOf(run, x)] + [y] + run[IndexOf(run, x)..]
  }

  function Remove(run: seq<nat>, x: nat): seq<nat>
    requires x in run
  {
    run[..IndexOf(run, x)] + run[IndexOf(run, x) + 1..]
  }

  lemma SpliceMembers(run: seq<nat>, i: nat, y: nat)
    requires i <= |run|
    ensures forall z :: z in run[..i] + [y] + run[i..] <==> z in run || z == y
  {
    assert run == run[..i] + run[i..];
  }

  lemma SpliceDistinct(run: seq<nat>, i: nat, y: nat)
    requires i <= |run| && Distinct(run) && y !in run
    ensures Distinct(run[..i] + [y] + run[i..])
  {
    var r := run[..i] + [y] + run[i..];
    forall j, k | 0 <= j < k < |r| ensures r[j] != r[k] {
      assert r[j] == if j < i then run[j] else if j == i then y else run[j - 1];
      assert r[k] == if k < i then run[k] else if k == i then y else run[k - 1];
    }
  }

  lemma InsertMembers(run: seq<nat>, x: nat, y: nat)
    requires x in run && Distinct(run)
    ensures forall z :: z in InsertBefore(run, x, y) <==> z in run || z == y
    ensures y !in run ==> Distinct(InsertBefore(run, x, y))
  {
    SpliceMembers(run, IndexOf(run, x), y);
    if y !in run { SpliceDistinct(run, IndexOf(run, x), y); }
  }

  lemma RemoveMembers(run: seq<nat>, x: nat)
    requires x in run && Distinct(run)
    ensures forall z :: z in Remove(run, x) <==> z in run && z != x
    ensures Distinct(Remove(run, x))
  {
    var i := IndexOf(run, x);
    assert run == run[..i] + [x] + run[i + 1..];
  }

  // ---- steps ----

  predicate WellFormed(s: System) {
    && s.current in s.run && s.next in s.run
    && s.current in s.location
  }

  // task_schedule
  function Schedule(s: System): System
    requires s.next in s.run
  {
    s.(current := s.next, next := Successor(s.run, s.next))
  }

  // The guard a blocking task needs: otherwise next_task follows the links of the waiting list.
  predicate CanBlock(s: System) {
    s.next != s.current
  }

  // The body of the acquire loop: to the tail of the waiting list, then schedule.
  function Block(s: System): System
    requires WellFormed(s) && CanBlock(s)
  {
    RemoveKeeps(s.run, s.current, s.next);
    Schedule(Queued(s))
  }

  function Queued(s: System): System
    requires s.current in s.run
  {
    s.(run := Remove(s.run, s.current), wait := s.wait + [s.current],
       location := s.location[s.current := InLoop], blocked := s.blocked + [s.current])
  }

  lemma RemoveKeeps(run: seq<nat>, x: nat, y: nat)
    requires x in run && y in run && x != y
    ensures y in Remove(run, x)
  {
    var i := IndexOf(run, x);
    assert run == run[..i] + [x] + run[i + 1..];
  }

  // thread_create: a task with the next identifier goes ahead of the current task.
  function Created(s: System): System
    requires s.current in s.run
  {
    s.(run := InsertBefore(s.run, s.current, s.created), location := s.location[s.created := Outside],
       created := s.created + 1)
  }

  // mutex_release: the first waiting task goes ahead of the next task and becomes the next task.
  function Wake(s: System): System
    requires WellFormed(s)
  {
    if s.wait == [] then s else
      s.(run := InsertBefore(s.run, s.next, s.wait[0]), next := s.wait[0], wait := s.wait[1..],
         woken := s.woken + [s.wait[0]])
  }

  // What the protocol lets the current task do.
  predicate Allowed(s: System, step: Step)
    requires WellFormed(s)
  {
    match step
    case Tick => true
    case Create => true
    case Acquire => s.location[s.current] == Outside
    case Retest => s.location[s.current] == InLoop
    case Claim => s.location[s.current] == Won
    case Enqueue => s.location[s.current] == Failed
    case Release => s.location[s.current] == Holding
  }

  predicate Blocks(s: System, step: Step) {
    step == Enqueue || (step == Acquire && s.value)
  }

  predicate Enabled(s: System, step: Step)
    requires WellFormed(s)
  {
    Allowed(s, step) && (Blocks(s, step) ==> CanBlock(s))
  }

  function Apply(s: System, step: Step): System
    requires WellFormed(s) && Enabled(s, step)
  {
    var me := s.current;
    match step
    case Tick => Schedule(s)
    case Create => Created(s)
    case Acquire =>
      if s.value then Block(s) else s.(value := true, holder := me, location := s.location[me := Holding])
    case Retest =>
      if s.value then s.(location := s.location[me := Failed]) else s.(value := true, location := s.location[me := Won])
    case Claim => s.(holder := me, location := s.location[me := Holding])
    case Enqueue => Block(s)
    case Release =>
      Wake(s).(holder := -1, value := false, location := s.location[me := Outside])
  }

  // init_task
  function Boot(): System {
    System([0], [], 0, 0, false, -1, map[0 := Outside], 1, [], [])
  }

  // ---- invariants ----

  // Every task is in exactly one of the two lists; the current and the next task are runnable.
  ghost predicate ListsInOrder(s: System) {
    && WellFormed(s)
    && Distinct(s.run) && Distinct(s.wait)
    && (forall t :: t in s.run ==> t !in s.wait)
    && (forall t: nat :: t in s.location <==> t < s.created)
    && (forall t: nat :: t in s.run || t in s.wait <==> t < s.created)
    && (forall t :: t in s.wait ==> s.location[t] == InLoop)
    && s.blocked == s.woken + s.wait
  }

  predicate Owns(s: System, t: nat) {
    t in s.location && (s.location[t] == Won || s.location[t] == Holding)
  }

  // The lock word is set exactly while one task owns the mutex, and only one task can own it.
  ghost predicate Exclusive(s: System) {
    && (forall t, u :: Owns(s, t) && Owns(s, u) ==> t == u)
    && (forall t :: Owns(s, t) ==> s.value)
    && (s.value ==> exists t :: Owns(s, t))
    && (forall t :: t in s.location && s.location[t] == Holding ==> s.holder == t)
  }

  predicate WillRetry(s: System, t: nat) {
    t in s.run && t in s.location && s.location[t] == InLoop
  }

  // While somebody waits, the lock is taken or a woken task is about to test it.
  ghost predicate NoLostWakeup(s: System) {
    s.wait != [] ==> s.value || exists t :: WillRetry(s, t)
  }

  lemma BlockKeepsLists(s: System)
    requires ListsInOrder(s) && CanBlock(s)
    ensures ListsInOrder(Block(s))
  {
    RemoveMembers(s.run, s.current);
    var r := Block(s);
    assert s.woken + s.wait + [s.current] == s.woken + (s.wait + [s.current]);
    forall i, j | 0 <= i < j < |r.wait| ensures r.wait[i] != r.wait[j] {
      assert r.wait[i] in s.wait;
    }
  }

  lemma WakeMembers(run: seq<nat>, next: nat, wait: seq<nat>)
    requires next in run && wait != [] && Distinct(run) && Distinct(wait) && forall t :: t in run ==> t !in wait
    ensures var r, w := InsertBefore(run, next, wait[0]), wait[1..];
      && Distinct(r) && Distinct(w) && wait[0] in r
      && (forall t :: t in r <==> t in run || t == wait[0])
      && (forall t :: t in w <==> t in wait && t != wait[0])
      && (forall t :: t in r ==> t !in w)
  {
    assert wait[0] in wait;
    InsertMembers(run, next, wait[0]);
    TailMembers(wait);
  }

  lemma WokenLists(s: System, run: seq<nat>, wait: seq<nat>, w: nat)
    requires ListsInOrder(s) && s.wait != [] && w == s.wait[0] && w in s.wait && w in run
    requires Distinct(run) && Distinct(wait)
    requires s.woken + s.wait == s.woken + [w] + wait
    requires forall t :: t in run <==> t in s.run || t == w
    requires forall t :: t in wait <==> t in s.wait && t != w
    ensures ListsInOrder(s.(run := run, next := w, wait := wait, woken := s.woken + [w]))
  {
  }

  lemma WakeKeepsLists(s: System)
    requires ListsInOrder(s)
    ensures ListsInOrder(Wake(s)) && Wake(s).current == s.current
  {
    if s.wait != [] {
      WakeMembers(s.run, s.next, s.wait);
      assert s.woken + s.wait == s.woken + [s.wait[0]] + s.wait[1..];
      WokenLists(s, InsertBefore(s.run, s.next, s.wait[0]), s.wait[1..], s.wait[0]);
    }
  }

  lemma StepKeepsLists(s: System, step: Step)
    requires ListsInOrder(s) && Enabled(s, step)
    ensures ListsInOrder(Apply(s, step))
  {
    match step {
      case Create =>
        CreateKeepsLists(s);
      case Acquire =>
        if s.value { BlockKeepsLists(s); }
      case Enqueue =>
        BlockKeepsLists(s);
      case Release =>
        ReleaseKeepsLists(s);
      case _ =>
    }
  }

  lemma CreateKeepsLists(s: System)
    requires ListsInOrder(s)
    ensures ListsInOrder(Created(s))
  {
    InsertMembers(s.run, s.current, s.created);
  }

  lemma ReleaseKeepsLists(s: System)
    requires ListsInOrder(s) && Enabled(s, Release)
    ensures ListsInOrder(Apply(s, Release))
  {
    WakeKeepsLists(s);
    assert s.current !in s.wait;
  }

  // Steps that hand the lock to nobody and take it from nobody.
  lemma SameOwners(s: System, r: System)
    requires Exclusive(s) && r.value == s.value
    requires forall t :: Owns(r, t) <==> Owns(s, t)
    requires forall t :: t in r.location && r.location[t] == Holding ==> r.holder == t
    ensures Exclusive(r)
  {
  }

  lemma TakesLock(s: System, r: System, me: nat)
    requires Exclusive(s) && !s.value && r.value && Owns(r, me)
    requires forall t :: t != me ==> (Owns(r, t) <==> Owns(s, t))
    requires r.location[me] == Holding ==> r.holder == me
    ensures Exclusive(r)
  {
    assert forall t :: Owns(r, t) ==> t == me;
    forall t | t in r.location && r.location[t] == Holding ensures r.holder == t {
      assert Owns(r, t);
    }
  }

  lemma ClaimKeeps(s: System)
    requires ListsInOrder(s) && Exclusive(s) && Enabled(s, Claim)
    ensures Exclusive(Apply(s, Claim))
  {
    var r, me := Apply(s, Claim), s.current;
    assert Owns(s, me);
    forall t | t in r.location && r.location[t] == Holding ensures r.holder == t {
      assert Owns(s, t);
    }
    SameOwners(s, r);
  }

  lemma ReleaseKeeps(s: System)
    requires ListsInOrder(s) && Exclusive(s) && Enabled(s, Release)
    ensures Exclusive(Apply(s, Release))
  {
    var r, me := Apply(s, Release), s.current;
    assert Owns(s, me);
    forall t ensures !Owns(r, t) {
      assert t != me ==> Owns(r, t) == Owns(s, t);
    }
  }

  lemma TestKeeps(s: System, step: Step)
    requires ListsInOrder(s) && Exclusive(s) && (step == Acquire || step == Retest) && Enabled(s, step)
    ensures Exclusive(Apply(s, step))
  {
    var r, me := Apply(s, step), s.current;
    if s.value { SameOwners(s, r); } else { TakesLock(s, r, me); }
  }

  lemma StepKeepsExclusive(s: System, step: Step)
    requires ListsInOrder(s) && Exclusive(s) && Enabled(s, step)
    ensures Exclusive(Apply(s, step))
  {
    match step {
      case Acquire => TestKeeps(s, step);
      case Retest => TestKeeps(s, step);
      case Release => ReleaseKeeps(s);
      case Claim => ClaimKeeps(s);
      case _ => SameOwners(s, Apply(s, step));
    }
  }

  // The holder is written exactly while a task is past the acquire loop: it is that task, and -1 otherwise.
  ghost predicate HolderKnown(s: System) {
    if s.holder < 0 then s.holder == -1 && forall t :: t in s.location ==> s.location[t] != Holding
    else s.holder in s.location && s.location[s.holder] == Holding
  }

  lemma StepKeepsHolder(s: System, step: Step)
    requires ListsInOrder(s) && Exclusive(s) && HolderKnown(s) && Enabled(s, step)
    ensures HolderKnown(Apply(s, step))
  {
    var r, me := Apply(s, step), s.current;
    if s.holder >= 0 { assert Owns(s, s.holder); }
    if step == Claim || step == Release { assert Owns(s, me); }
    forall t | t in s.location && s.location[t] == Holding ensures t == s.holder {
      assert Owns(s, t);
    }
  }

  // ---- runs ----

  predicate Runs(s: System, steps: seq<Step>)
    decreases |steps|
  {
    WellFormed(s) && (steps == [] || (Enabled(s, steps[0]) && Runs(Apply(s, steps[0]), steps[1..])))
  }

  function After(s: System, steps: seq<Step>): System
    requires Runs(s, steps)
    decreases |steps|
  {
    if steps == [] then s else After(Apply(s, steps[0]), steps[1..])
  }

  // Over every run: the lists stay in order, the mutex stays exclusive with its holder known, and tasks are woken in
  // the order in which they were put to sleep.
  lemma {:induction false} RunKeeps(s: System, steps: seq<Step>)
    requires ListsInOrder(s) && Exclusive(s) && Runs(s, steps)
    ensures ListsInOrder(After(s, steps)) && Exclusive(After(s, steps))
    ensures HolderKnown(s) ==> HolderKnown(After(s, steps))
    decreases |steps|
  {
    if steps == [] {
    } else {
      StepKeepsLists(s, steps[0]);
      StepKeepsExclusive(s, steps[0]);
      if HolderKnown(s) { StepKeepsHolder(s, steps[0]); }
      RunKeeps(Apply(s, steps[0]), steps[1..]);
    }
  }

  lemma BootInOrder()
    ensures ListsInOrder(Boot()) && Exclusive(Boot()) && HolderKnown(Boot()) && NoLostWakeup(Boot())
  {
  }

  // ---- who can block ----

  // Task 0 stays runnable and only it can be both the current and the next task.
  predicate IdleRuns(s: System) {
    0 in s.run && (s.current == s.next ==> s.current == 0)
  }

  lemma {:induction false} SuccessorDiffers(run: seq<nat>, x: nat)
    requires x in run && Distinct(run) && Successor(run, x) == x
    ensures run == [x]
  {
    var i := IndexOf(run, x);
    assert Successor(run, x) == run[if i + 1 < |run| then i + 1 else 0];
    assert |run| == 1;
  }

  // The guard is exact: taking the current task off the run list leaves the next task on it if and only if
  // they differ.
  lemma GuardExact(s: System)
    requires WellFormed(s) && Distinct(s.run)
    ensures s.next in Remove(s.run, s.current) <==> CanBlock(s)
  {
    RemoveMembers(s.run, s.current);
  }

  // If task 0 never blocks, every task that does block may do so: the next task is another one.
  lemma StepKeepsIdle(s: System, step: Step)
    requires ListsInOrder(s) && IdleRuns(s) && Allowed(s, step) && (Blocks(s, step) ==> s.current != 0)
    ensures Enabled(s, step) && IdleRuns(Apply(s, step))
  {
    match step {
      case Tick => ScheduleKeepsIdle(s);
      case Create => InsertMembers(s.run, s.current, s.created);
      case Release => if s.wait != [] { InsertMembers(s.run, s.next, s.wait[0]); assert s.wait[0] in s.wait; }
      case Acquire => if s.value { BlockKeepsIdle(s); }
      case Enqueue => BlockKeepsIdle(s);
      case _ =>
    }
  }

  // A run by the protocol in which task 0 never blocks, without regard to the guard.
  predicate IdleRun(s: System, steps: seq<Step>)
    decreases |steps|
  {
    WellFormed(s) && (steps == [] ||
      (&& Allowed(s, steps[0]) && (Blocks(s, steps[0]) ==> s.current != 0)
       && (Enabled(s, steps[0]) ==> IdleRun(Apply(s, steps[0]), steps[1..]))))
  }

  lemma {:induction false} IdleRunRuns(s: System, steps: seq<Step>)
    requires ListsInOrder(s) && IdleRuns(s) && IdleRun(s, steps)
    ensures Runs(s, steps) && IdleRuns(After(s, steps))
    decreases |steps|
  {
    if steps == [] {
    } else {
      StepKeepsIdle(s, steps[0]);
      StepKeepsLists(s, steps[0]);
      IdleRunRuns(Apply(s, steps[0]), steps[1..]);
    }
  }

  lemma ScheduleKeepsIdle(s: System)
    requires 0 in s.run && Distinct(s.run) && s.next in s.run
    ensures IdleRuns(Schedule(s))
  {
    if Successor(s.run, s.next) == s.next {
      SuccessorDiffers(s.run, s.next);
    }
  }

  lemma BlockKeepsIdle(s: System)
    requires ListsInOrder(s) && IdleRuns(s) && CanBlock(s) && s.current != 0
    ensures IdleRuns(Block(s))
  {
    RemoveMembers(s.run, s.current);
    ScheduleKeepsIdle(s.(run := Remove(s.run, s.current)));
  }

  // ---- wakeups ----

  // What makes it safe to go to sleep: the lock is still taken, or another woken task is about to test it. The
  // loop does not look again.
  ghost predicate SleepIsSafe(s: System) {
    s.value || exists t :: t != s.current && WillRetry(s, t)
  }

  lemma EnqueueWakeup(s: System)
    requires ListsInOrder(s) && Enabled(s, Enqueue)
    ensures NoLostWakeup(Apply(s, Enqueue)) <==> SleepIsSafe(s)
  {
    var r := Apply(s, Enqueue);
    RemoveMembers(s.run, s.current);
    forall t ensures WillRetry(r, t) <==> t != s.current && WillRetry(s, t) {
    }
    assert r.wait[|s.wait|] == s.current;
  }

  lemma SameRetriers(s: System, r: System)
    requires NoLostWakeup(s) && r.value == s.value && r.wait == s.wait
    requires forall t :: WillRetry(s, t) ==> WillRetry(r, t)
    ensures NoLostWakeup(r)
  {
  }

  lemma ReleaseWakeup(s: System)
    requires ListsInOrder(s) && Enabled(s, Release)
    ensures NoLostWakeup(Apply(s, Release))
  {
    if s.wait != [] {
      assert s.wait[0] in s.wait && s.location[s.wait[0]] == InLoop;
      InsertMembers(s.run, s.next, s.wait[0]);
      assert WillRetry(Apply(s, Release), s.wait[0]);
    }
  }

  // Every other step keeps the property, wherever interrupted passes stand.
  lemma StepKeepsWakeup(s: System, step: Step)
    requires ListsInOrder(s) && NoLostWakeup(s) && Enabled(s, step) && step != Enqueue
    ensures NoLostWakeup(Apply(s, step))
  {
    match step {
      case Create =>
        InsertMembers(s.run, s.current, s.created);
        SameRetriers(s, Apply(s, step));
      case Release => ReleaseWakeup(s);
      case Tick => SameRetriers(s, Apply(s, step));
      case Claim => SameRetriers(s, Apply(s, step));
      case _ =>
    }
  }

  // Each later pass of the run that goes to sleep does so safely.
  ghost predicate SafeSleeps(s: System, steps: seq<Step>)
    requires Runs(s, steps)
    decreases |steps|
  {
    steps == [] || ((steps[0] == Enqueue ==> SleepIsSafe(s)) && SafeSleeps(Apply(s, steps[0]), steps[1..]))
  }

  // No state of the run has lost a wakeup.
  ghost predicate AlwaysWoken(s: System, steps: seq<Step>)
    requires Runs(s, steps)
    decreases |steps|
  {
    NoLostWakeup(s) && (steps == [] || AlwaysWoken(Apply(s, steps[0]), steps[1..]))
  }

  lemma {:induction false} RunKeepsWakeup(s: System, steps: seq<Step>)
    requires ListsInOrder(s) && NoLostWakeup(s) && Runs(s, steps)
    ensures AlwaysWoken(s, steps) <==> SafeSleeps(s, steps)
    decreases |steps|
  {
    if steps == [] {
    } else {
      var step, r := steps[0], Apply(s, steps[0]);
      StepKeepsLists(s, step);
      if step == Enqueue {
        EnqueueWakeup(s);
      } else {
        StepKeepsWakeup(s, step);
      }
      if NoLostWakeup(r) {
        RunKeepsWakeup(r, steps[1..]);
      }
    }
  }

  // ---- passes that are not interrupted ----

  // A task that is about to be put to sleep after a failed later test.
  predicate Committed(s: System, t: nat) {
    t in s.location && s.location[t] == Failed
  }

  // The pass was not interrupted: the only such task is the current one, and the lock is still taken.
  ghost predicate Uninterrupted(s: System) {
    forall t :: Committed(s, t) ==> t == s.current && s.value
  }

  lemma StepKeepsUninterrupted(s: System, step: Step)
    requires WellFormed(s) && Uninterrupted(s) && Enabled(s, step)
    requires Committed(s, s.current) ==> step == Enqueue
    ensures Uninterrupted(Apply(s, step))
  {
    var r := Apply(s, step);
    forall t | Committed(r, t) ensures t == r.current && r.value {
      assert t != s.current ==> Committed(s, t);
    }
  }

  // No later pass is interrupted between its test and its enqueueing.
  predicate Prompt(s: System, steps: seq<Step>)
    requires Runs(s, steps)
    decreases |steps|
  {
    steps == [] || ((Committed(s, s.current) ==> steps[0] == Enqueue) && Prompt(Apply(s, steps[0]), steps[1..]))
  }

  // Then every sleep is safe, and no wakeup is lost.
  lemma {:induction false} PromptRun(s: System, steps: seq<Step>)
    requires ListsInOrder(s) && NoLostWakeup(s) && Uninterrupted(s) && Runs(s, steps) && Prompt(s, steps)
    ensures SafeSleeps(s, steps) && AlwaysWoken(s, steps)
    decreases |steps|
  {
    if steps == [] {
    } else {
      var step, r := steps[0], Apply(s, steps[0]);
      StepKeepsUninterrupted(s, step);
      StepKeepsLists(s, step);
      if step == Enqueue {
        assert Committed(s, s.current);
        EnqueueWakeup(s);
      } else {
        StepKeepsWakeup(s, step);
      }
      PromptRun(r, steps[1..]);
    }
  }

  // ---- an interrupted pass loses a wakeup ----

  lemma RunOn(s: System, first: Step, rest: seq<Step>)
    requires WellFormed(s) && Enabled(s, first) && Runs(Apply(s, first), rest)
    ensures Runs(s, [first] + rest) && After(s, [first] + rest) == After(Apply(s, first), rest)
  {
    assert ([first] + rest)[1..] == rest;
  }

  // ---- the lost wakeup ----

  // The states of the run, after each of its thirteen steps.
  const S1 := System([1, 0], [], 0, 0, false, -1, map[0 := Outside, 1 := Outside], 2, [], [])
  const S2 := System([1, 0], [], 0, 0, true, 0, map[0 := Holding, 1 := Outside], 2, [], [])
  const S3 := System([1, 0], [], 0, 1, true, 0, map[0 := Holding, 1 := Outside], 2, [], [])
  const S4 := System([1, 0], [], 1, 0, true, 0, map[0 := Holding, 1 := Outside], 2, [], [])
  // Task 1 sleeps on the lock that task 0 holds.
  const ASLEEP := System([0], [1], 0, 0, true, 0, map[0 := Holding, 1 := InLoop], 2, [1], [])
  const S6 := System([1, 0], [], 0, 1, false, -1, map[0 := Outside, 1 := InLoop], 2, [1], [1])
  const S7 := System([1, 0], [], 0, 1, true, 0, map[0 := Holding, 1 := InLoop], 2, [1], [1])
  const S8 := System([1, 0], [], 1, 0, true, 0, map[0 := Holding, 1 := InLoop], 2, [1], [1])
  const S9 := System([1, 0], [], 1, 0, true, 0, map[0 := Holding, 1 := Failed], 2, [1], [1])
  // Woken, 1 has found the lock taken again and is interrupted before it goes to sleep.
  const CAUGHT := System([1, 0], [], 0, 1, true, 0, map[0 := Holding, 1 := Failed], 2, [1], [1])
  const S11 := System([1, 0], [], 0, 1, false, -1, map[0 := Outside, 1 := Failed], 2, [1], [1])
  const S12 := System([1, 0], [], 1, 0, false, -1, map[0 := Outside, 1 := Failed], 2, [1], [1])
  // It sleeps on a free lock.
  const STRANDED := System([0], [1], 0, 0, false, -1, map[0 := Outside, 1 := InLoop], 2, [1, 1], [1])

  // The rest of the run leads from `s` to the stranded task.
  ghost predicate Strands(s: System, steps: seq<Step>) {
    Runs(s, steps) && After(s, steps) == STRANDED
  }

  lemma StrandsOn(s: System, step: Step, r: System, steps: seq<Step>)
    requires WellFormed(s) && Enabled(s, step) && Apply(s, step) == r && Strands(r, steps)
    ensures Strands(s, [step] + steps)
  {
    RunOn(s, step, steps);
  }

  // Two tasks on the run list, each the successor of the other.
  lemma TwoTasks()
    ensures IndexOf([1, 0], 0) == 1 && IndexOf([1, 0], 1) == 0 && IndexOf([0], 0) == 0
    ensures Successor([1, 0], 0) == 1 && Successor([1, 0], 1) == 0 && Successor([0], 0) == 0
    ensures Remove([1, 0], 1) == [0] && InsertBefore([0], 0, 1) == [1, 0]
  {
  }

  lemma Step13()
    ensures WellFormed(S12) && Enabled(S12, Enqueue) && Apply(S12, Enqueue) == STRANDED
  {
    TwoTasks();
    Relocated(Outside, Failed, InLoop);
  }

  lemma Step12()
    ensures WellFormed(S11) && Enabled(S11, Tick) && Apply(S11, Tick) == S12
  {
    TwoTasks();
  }

  lemma Step11()
    ensures WellFormed(CAUGHT) && Enabled(CAUGHT, Release) && Apply(CAUGHT, Release) == S11
  {
    TwoTasks();
    Relocated(Holding, Failed, Outside);
  }

  lemma Step10()
    ensures WellFormed(S9) && Enabled(S9, Tick) && Apply(S9, Tick) == CAUGHT
  {
    TwoTasks();
  }

  lemma Step9()
    ensures WellFormed(S8) && Enabled(S8, Retest) && Apply(S8, Retest) == S9
  {
    TwoTasks();
    Relocated(Holding, InLoop, Failed);
  }

  lemma Step8()
    ensures WellFormed(S7) && Enabled(S7, Tick) && Apply(S7, Tick) == S8
  {
    TwoTasks();
  }

  lemma Step7()
    ensures WellFormed(S6) && Enabled(S6, Acquire) && Apply(S6, Acquire) == S7
  {
    TwoTasks();
    Relocated(Outside, InLoop, Holding);
  }

  lemma Step6()
    ensures WellFormed(ASLEEP) && Enabled(ASLEEP, Release) && Apply(ASLEEP, Release) == S6
  {
    TwoTasks();
    Relocated(Holding, InLoop, Outside);
  }

  lemma Step5()
    ensures WellFormed(S4) && Enabled(S4, Acquire) && Apply(S4, Acquire) == ASLEEP
  {
    TwoTasks();
    Relocated(Holding, Outside, InLoop);
  }

  lemma Step4()
    ensures WellFormed(S3) && Enabled(S3, Tick) && Apply(S3, Tick) == S4
  {
    TwoTasks();
  }

  lemma Step3()
    ensures WellFormed(S2) && Enabled(S2, Tick) && Apply(S2, Tick) == S3
  {
    TwoTasks();
  }

  lemma Step2()
    ensures WellFormed(S1) && Enabled(S1, Acquire) && Apply(S1, Acquire) == S2
  {
    TwoTasks();
    Relocated(Outside, Outside, Holding);
  }

  lemma Relocated(a: Location, b: Location, v: Location)
    ensures map[0 := a, 1 := b][0 := v] == map[0 := v, 1 := b] && map[0 := a, 1 := b][1 := v] == map[0 := a, 1 := v]
  {
  }

  lemma Step1()
    ensures WellFormed(Boot()) && Enabled(Boot(), Create) && Apply(Boot(), Create) == S1
  {
    TwoTasks();
  }

  lemma Stranded() returns (steps: seq<Step>)
    ensures Strands(CAUGHT, steps)
  {
    steps := [];
    Step13();
    StrandsOn(S12, Enqueue, STRANDED, steps);
    steps := [Enqueue] + steps;
    Step12();
    StrandsOn(S11, Tick, S12, steps);
    steps := [Tick] + steps;
    Step11();
    StrandsOn(CAUGHT, Release, S11, steps);
    steps := [Release] + steps;
  }

  lemma Caught() returns (steps: seq<Step>)
    ensures Strands(ASLEEP, steps)
  {
    steps := Stranded();
    Step10();
    StrandsOn(S9, Tick, CAUGHT, steps);
    steps := [Tick] + steps;
    Step9();
    StrandsOn(S8, Retest, S9, steps);
    steps := [Retest] + steps;
    Step8();
    StrandsOn(S7, Tick, S8, steps);
    steps := [Tick] + steps;
    Step7();
    StrandsOn(S6, Acquire, S7, steps);
    steps := [Acquire] + steps;
    Step6();
    StrandsOn(ASLEEP, Release, S6, steps);
    steps := [Release] + steps;
  }

  lemma Asleep() returns (steps: seq<Step>)
    ensures Strands(Boot(), steps)
  {
    steps := Caught();
    Step5();
    StrandsOn(S4, Acquire, ASLEEP, steps);
    steps := [Acquire] + steps;
    Step4();
    StrandsOn(S3, Tick, S4, steps);
    steps := [Tick] + steps;
    Step3();
    StrandsOn(S2, Tick, S3, steps);
    steps := [Tick] + steps;
    Step2();
    StrandsOn(S1, Acquire, S2, steps);
    steps := [Acquire] + steps;
    Step1();
    StrandsOn(Boot(), Create, S1, steps);
    steps := [Create] + steps;
  }

  // A run from the initial state in which every task keeps to the protocol and the last one asleep is never
  // woken: nobody holds the lock and nobody is about to test it.
  lemma LostWakeupWitness() returns (steps: seq<Step>)
    ensures Runs(Boot(), steps) && !NoLostWakeup(After(Boot(), steps))
  {
    steps := Asleep();
    assert STRANDED.wait != [] && !STRANDED.value;
    assert forall t :: !WillRetry(STRANDED, t);
  }

  // ---- fairness ----

  function Ticks(s: System, k: nat): System
    requires s.next in s.run
    decreases k
  {
    if k == 0 then s else Ticks(Schedule(s), k - 1)
  }

  function Wrap(x: nat, n: nat): nat {
    if x >= n then x - n else x
  }

  // The k-th tick runs the k-th task counted from the next one, around the run list.
  lemma {:induction false} RoundRobin(s: System, k: nat)
    requires Distinct(s.run) && s.next in s.run && 0 < k <= |s.run|
    ensures var i := Wrap(IndexOf(s.run, s.next) + k - 1, |s.run|); i < |s.run| && Ticks(s, k).current == s.run[i]
    decreases k
  {
    if k > 1 {
      var r := Schedule(s);
      RoundRobin(r, k - 1);
      IndexUnique(s.run, IndexOf(s.run, r.next), Wrap(IndexOf(s.run, s.next) + 1, |s.run|));
    } else {
      assert Ticks(s, 1) == Ticks(Schedule(s), 0);
    }
  }

  lemma IndexUnique(s: seq<nat>, i: nat, j: nat)
    requires Distinct(s) && i < |s| && j < |s| && s[i] == s[j]
    ensures i == j
  {
  }

  lemma TickAgain(s: System, j: nat, k: nat)
    requires Distinct(s.run) && s.next in s.run && 0 < j <= |s.run| && 0 < k <= |s.run|
    requires Ticks(s, j).current == Ticks(s, k).current
    ensures j == k
  {
    RoundRobin(s, j);
    RoundRobin(s, k);
    var i := IndexOf(s.run, s.next);
    IndexUnique(s.run, Wrap(i + j - 1, |s.run|), Wrap(i + k - 1, |s.run|));
  }

  // With n runnable tasks, each is the current task after exactly one of any n ticks in a row.
  lemma Fairness(s: System, t: nat) returns (k: nat)
    requires Distinct(s.run) && s.next in s.run && t in s.run
    ensures 0 < k <= |s.run| && Ticks(s, k).current == t
    ensures forall j: nat :: 0 < j <= |s.run| && Ticks(s, j).current == t ==> j == k
  {
    var i, p, n := IndexOf(s.run, s.next), IndexOf(s.run, t), |s.run|;
    k := if p >= i then p - i + 1 else p + n + 1 - i;
    RoundRobin(s, k);
    forall j: nat | 0 < j <= n && Ticks(s, j).current == t ensures j == k {
      TickAgain(s, j, k);
    }
  }
}
