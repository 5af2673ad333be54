// The run list, the waiting list of one mutex and the scheduler's globals as the source holds them: nodes on
// two rings, moved in place. Each method is proved to perform the corresponding step of Scheduling.

module KernelTasks {
  import opened Basics
  import opened Rings
  import opened Scheduling

  function Pids(s: seq<Node>): (r: seq<nat>)
    ensures |r| == |s| && forall i :: 0 <= i < |s| ==> r[i] == s[i].pid
  {
    seq(|s|, i requires 0 <= i < |s| => s[i].pid)
  }

  // Nodes with different process identifiers: positions and identifiers correspond.
  ghost predicate Named(s: seq<Node>) {
    Distinct(Pids(s))
  }

  lemma NamedIndex(s: seq<Node>, k: nat)
    requires Named(s) && k < |s|
    ensures s[k].pid in Pids(s) && IndexOf(Pids(s), s[k].pid) == k
  {
  }

  lemma CutMembers(head: Node, s: seq<Node>, k: nat)
    requires DistinctNodes([head] + s) && k < |s|
    ensures forall x :: x in Cut(s, k) <==> x in s && x != s[k]
    ensures Cut([head] + s, k + 1) == [head] + Cut(s, k)
  {
    var ring := [head] + s;
    assert s == s[..k] + [s[k]] + s[k + 1..];
    forall i | 0 <= i < |s| && i != k ensures s[i] != s[k] {
      assert ring[i + 1] != ring[k + 1];
    }
  }

  lemma PidsCut(s: seq<Node>, k: nat)
    requires Named(s) && k < |s|
    ensures s[k].pid in Pids(s) && Pids(Cut(s, k)) == Remove(Pids(s), s[k].pid) && Named(Cut(s, k))
  {
  }

  lemma PidsAppend(s: seq<Node>, x: Node)
    ensures Pids(s + [x]) == Pids(s) + [x.pid]
  {
  }

  lemma PidsInsert(s: seq<Node>, k: nat, node: Node)
    requires Named(s) && k < |s|
    ensures s[k].pid in Pids(s)
    ensures Pids(s[..k] + [node] + s[k..]) == InsertBefore(Pids(s), s[k].pid, node.pid)
  {
  }

  class Kernel {
    const tasks: Node      // head of the run list
    const waiting: Node    // head of the mutex's waiting list
    var current: Node
    var nextTask: Node
    var currentPid: nat
    var value: bool
    var holder: int
    ghost var run: seq<Node>
    ghost var wait: seq<Node>
    ghost var location: map<nat, Location>
    ghost var blocked: seq<nat>
    ghost var woken: seq<nat>

    ghost function State(): System
      reads this
    {
      System(Pids(run), Pids(wait), current.pid, nextTask.pid, value, holder, location, currentPid, blocked, woken)
    }

    ghost predicate InState(s: seq<Node>, state: TaskState)
      reads s
    {
      forall x :: x in s ==> x.state == state
    }

    // Both lists hold together: the tasks on the run list are runnable, those on the waiting list asleep.
    ghost predicate Lists()
      reads this, tasks, waiting, run, wait
    {
      TwoRings(run, wait) && Named(run) && nextTask in run && InState(run, Runnable) && InState(wait, Sleeping)
    }

    ghost predicate Valid()
      reads this, tasks, waiting, run, wait
    {
      && Lists() && current in run
      && ListsInOrder(State())
    }

    // init_task: task 0 alone on the run list, and a mutex nobody waits for.
    constructor ()
      ensures Valid() && State() == Boot()
      ensures fresh(tasks) && fresh(waiting) && fresh(current) && run == [current] && wait == []
    {
      var head := new Node(0);
      var queue := new Node(0);
      var task := new Node(0);
      tasks, waiting, current, nextTask := head, queue, task, task;
      currentPid := 1;
      value, holder := false, -1;
      run, wait, location, blocked, woken := [], [], map[0 := Outside], [], [];
      new;
      FirstTask(task);
      Booted();
    }

    lemma Booted()
      requires Pids(run) == [0] && wait == [] && current.pid == 0 && nextTask.pid == 0 && !value && holder == -1
      requires location == map[0 := Outside] && currentPid == 1 && blocked == [] && woken == []
      ensures State() == Boot() && ListsInOrder(State())
    {
    }

    method FirstTask(task: Node)
      requires tasks.next == tasks && tasks.prev == tasks && waiting.next == waiting && waiting.prev == waiting
      requires tasks != waiting && task != tasks && task != waiting && run == [] && wait == []
      requires nextTask == task && task.state == Runnable
      modifies this`run, tasks`next, tasks`prev, task`next, task`prev
      ensures run == [task] && Lists()
    {
      assert Ring([tasks]) && Ring([waiting]);
      ListAddTail(task, tasks, [tasks], 0, [waiting]);
      run := [task];
      assert [tasks] + [task] == [tasks] + run && [waiting] == [waiting] + wait;
    }

    // next_task
    method NextTask(task: Node) returns (following: Node)
      requires TwoRings(run, wait) && Named(run) && task in run
      ensures following in run && task.pid in Pids(run) && following.pid == Successor(Pids(run), task.pid)
    {
      ghost var k :| 0 <= k < |run| && run[k] == task;
      NamedIndex(run, k);
      ghost var ring := [tasks] + run;
      assert ring[k + 1] == task;
      var n := task.next;
      if n == tasks {
        n := n.next;
      }
      assert k + 1 < |run| ==> ring[k + 2] == run[k + 1];
      assert ring[1] == run[0];
      following := n;
    }

    // task_schedule; the context switch is the change of the current task.
    method TaskSchedule()
      requires Lists()
      modifies this`current, this`nextTask
      ensures Lists() && current in run
      ensures old(State()).next in old(State()).run && State() == Schedule(old(State()))
    {
      ghost var n :| 0 <= n < |run| && run[n] == nextTask;
      NamedIndex(run, n);
      var next := nextTask;
      nextTask := NextTask(nextTask);
      current := next;
    }

    ghost predicate TwoRings(r: seq<Node>, w: seq<Node>)
      reads tasks`next, tasks`prev, waiting`next, waiting`prev, r`next, r`prev, w`next, w`prev
    {
      && Ring([tasks] + r) && Ring([waiting] + w)
      && Apart([tasks] + r, [waiting] + w)
    }

    // list_del of a task on the run list.
    method TakeOffRun(task: Node, ghost k: nat)
      requires TwoRings(run, wait) && k < |run| && run[k] == task
      modifies this`run, run`next, run`prev, tasks`next, tasks`prev
      ensures run == Cut(old(run), k) && TwoRings(run, wait) && task !in run && task !in wait && task != tasks &&
        task != waiting
    {
      ghost var ring, queue := [tasks] + run, [waiting] + wait;
      assert ring[k + 1] == task && task in ring;
      CutMembers(tasks, run, k);
      ListDel(task, ring, k + 1, queue);
      run := Cut(run, k);
      assert queue == [waiting] + wait && waiting in queue;
      assert forall x :: x in wait ==> x in queue;
    }

    // list_add_tail onto the waiting list.
    method AppendToWait(task: Node)
      requires TwoRings(run, wait) && task !in run && task !in wait && task != tasks && task != waiting
      modifies this`wait, wait`next, wait`prev, waiting`next, waiting`prev, task`next, task`prev
      ensures wait == old(wait) + [task] && TwoRings(run, wait)
    {
      ghost var ring, queue := [tasks] + run, [waiting] + wait;
      assert Apart(queue, ring);
      ListAddTail(task, waiting, queue, 0, ring);
      assert queue + [task] == [waiting] + (wait + [task]);
      wait := wait + [task];
    }

    // list_add_tail of a task in front of position k of the run list.
    method PutAhead(task: Node, pos: Node, ghost k: nat)
      requires TwoRings(run, wait) && k < |run| && run[k] == pos
      requires task !in run && task !in wait && task != tasks && task != waiting
      modifies this`run, run`next, run`prev, tasks`next, tasks`prev, task`next, task`prev
      ensures run == old(run)[..k] + [task] + old(run)[k..] && TwoRings(run, wait)
    {
      ghost var ring, queue := [tasks] + run, [waiting] + wait;
      assert ring[k + 1] == pos;
      ListAddTail(task, pos, ring, k + 1, queue);
      assert Splice(ring, k + 1, task) == [tasks] + (run[..k] + [task] + run[k..]);
      assert forall x :: x in run[..k] + [task] + run[k..] ==> x in run || x == task;
      run := run[..k] + [task] + run[k..];
    }

    // list_del of the first waiting task.
    method TakeOffWait(task: Node)
      requires TwoRings(run, wait) && wait != [] && wait[0] == task
      modifies this`wait, wait`next, wait`prev, waiting`next, waiting`prev
      ensures wait == Cut(old(wait), 0) && TwoRings(run, wait) && task !in wait && task !in run && task != tasks &&
        task != waiting
    {
      ghost var ring, queue := [tasks] + run, [waiting] + wait;
      assert queue[1] == task && task in queue;
      assert Apart(queue, ring);
      CutMembers(waiting, wait, 0);
      ListDel(task, queue, 1, ring);
      wait := Cut(wait, 0);
      assert ring == [tasks] + run && tasks in ring;
      assert forall x :: x in run ==> x in ring;
    }

    // list_move_to_tail of the current task to the waiting list.
    method MoveToWait(ghost k: nat)
      requires TwoRings(run, wait) && k < |run| && run[k] == current
      modifies this`run, this`wait, tasks`next, tasks`prev, waiting`next, waiting`prev
      modifies run`next, run`prev, wait`next, wait`prev
      ensures run == Cut(old(run), k) && wait == old(wait) + [current] && TwoRings(run, wait) && current !in run
    {
      TakeOffRun(current, k);
      AppendToWait(current);
    }

    // What is left on the run list is in order.
    method LeaveRun(ghost k: nat)
      requires Lists() && k < |run| && run[k] == current && current != nextTask
      modifies this`run, this`wait, tasks`next, tasks`prev, waiting`next, waiting`prev
      modifies run`next, run`prev, wait`next, wait`prev
      ensures run == Cut(old(run), k) && wait == old(wait) + [current] && TwoRings(run, wait) && current !in run
      ensures Named(run) && nextTask in run && InState(run, Runnable)
    {
      CutMembers(tasks, run, k);
      PidsCut(run, k);
      MoveToWait(k);
    }

    // The current task goes to the waiting list and to sleep; the next task stays runnable.
    method Sleep(ghost k: nat)
      requires Lists() && k < |run| && run[k] == current && current != nextTask
      modifies this`run, this`wait, tasks`next, tasks`prev, waiting`next, waiting`prev
      modifies run`next, run`prev, wait`next, wait`prev, current`state
      ensures run == Cut(old(run), k) && wait == old(wait) + [current] && Lists()
    {
      LeaveRun(k);
      current.state := Sleeping;
    }

    ghost method NoteBlocked()
      requires Lists()
      modifies this`location, this`blocked
      ensures Lists()
      ensures State() ==
        old(State()).(location := old(location)[current.pid := InLoop], blocked := old(blocked) + [current.pid])
    {
      location := location[current.pid := InLoop];
      blocked := blocked + [current.pid];
    }

    method QueueCurrent(ghost k: nat)
      requires Lists() && k < |run| && run[k] == current && current != nextTask
      modifies this, tasks, waiting, run, wait
      ensures Lists() && current == old(current) && nextTask == old(nextTask)
      ensures old(State()).current in old(State()).run && State() == Queued(old(State()))
    {
      PidsCut(run, k);
      PidsAppend(wait, current);
      Sleep(k);
      NoteBlocked();
    }

    // The body of the acquire loop.
    method GoToSleep()
      requires Lists() && current in run && current != nextTask
      modifies this, tasks, waiting, run, wait
      ensures Lists() && current in run
      ensures old(State()).current in old(State()).run &&
        old(State()).next in Remove(old(State()).run, old(State()).current)
      ensures State() == Schedule(Queued(old(State())))
    {
      ghost var k :| 0 <= k < |run| && run[k] == current;
      QueueCurrent(k);
      TaskSchedule();
    }

    // ---- the steps ----

    // A timer tick.
    method TimerTick()
      requires Valid()
      modifies this`current, this`nextTask
      ensures Valid() && State() == Apply(old(State()), Tick)
    {
      StepKeepsLists(State(), Tick);
      TaskSchedule();
    }

    // The first pass of mutex_acquire, with interrupts off.
    method MutexAcquire() returns (taken: bool)
      requires Valid() && Enabled(State(), Acquire)
      modifies this, tasks, waiting, run, wait
      ensures Valid() && State() == Apply(old(State()), Acquire) && taken == !old(value)
    {
      StepKeepsLists(State(), Acquire);
      taken := !value;
      if value {
        GoToSleep();
      } else {
        value := true;
        TakeOver();
      }
    }

    method TakeOver()
      requires Lists() && current in run
      modifies this`holder, this`location
      ensures Lists() && current in run
      ensures State() == old(State()).(holder := current.pid, location := old(location)[current.pid := Holding])
    {
      holder := current.pid;
      location := location[current.pid := Holding];
    }

    // The test of a later pass.
    method MutexRetest() returns (taken: bool)
      requires Valid() && Enabled(State(), Retest)
      modifies this`value, this`location
      ensures Valid() && State() == Apply(old(State()), Retest) && taken == !old(value)
    {
      StepKeepsLists(State(), Retest);
      taken := TestAndSet();
    }

    // __atomic_test_and_set, and what the outcome means for the task.
    method TestAndSet() returns (taken: bool)
      requires Lists() && current in run
      modifies this`value, this`location
      ensures Lists() && current in run && taken == !old(value)
      ensures State() ==
        old(State()).(value := true, location := old(location)[current.pid := if taken then Won else Failed])
    {
      taken := !value;
      value := true;
      location := location[current.pid := if taken then Won else Failed];
    }

    // The rest of a later pass whose test took the lock.
    method MutexClaim()
      requires Valid() && Enabled(State(), Claim)
      modifies this`holder, this`location
      ensures Valid() && State() == Apply(old(State()), Claim)
    {
      StepKeepsLists(State(), Claim);
      TakeOver();
    }

    // The rest of a later pass whose test failed.
    method MutexEnqueue()
      requires Valid() && Enabled(State(), Enqueue)
      modifies this, tasks, waiting, run, wait
      ensures Valid() && State() == Apply(old(State()), Enqueue)
    {
      StepKeepsLists(State(), Enqueue);
      GoToSleep();
    }

    // list_move_to_tail of the first waiting task, in front of the next task.
    method MoveAhead(task: Node, ghost n: nat)
      requires TwoRings(run, wait) && wait != [] && wait[0] == task && n < |run| && run[n] == nextTask
      modifies this`run, this`wait, tasks`next, tasks`prev, waiting`next, waiting`prev
      modifies run`next, run`prev, wait`next, wait`prev
      ensures run == old(run)[..n] + [task] + old(run)[n..] && wait == Cut(old(wait), 0) && TwoRings(run, wait)
      ensures task !in old(run) && task !in wait
    {
      TakeOffWait(task);
      PutAhead(task, nextTask, n);
    }

    method JoinRun(tmp: Node, ghost n: nat)
      requires Lists() && current in run && wait != [] && wait[0] == tmp && n < |run| && run[n] == nextTask
      requires Named(run[..n] + [wait[0]] + run[n..])
      modifies this`run, this`wait, tasks`next, tasks`prev, waiting`next, waiting`prev
      modifies run`next, run`prev, wait`next, wait`prev
      ensures run == old(run)[..n] + [old(wait)[0]] + old(run)[n..] && wait == Cut(old(wait), 0) && TwoRings(run, wait)
      ensures Named(run) && tmp in run && current in run && tmp !in wait
      ensures InState(wait, Sleeping) && forall x :: x in run ==> x == tmp || x.state == Runnable
    {
      ghost var was, slept := run, wait;
      MoveAhead(tmp, n);
      Regrouped(was, slept, n);
    }

    // The first waiting task becomes runnable ahead of the next task, and the next task itself.
    method WakeFirst(tmp: Node, ghost n: nat)
      requires Lists() && current in run && wait != [] && wait[0] == tmp && n < |run| && run[n] == nextTask
      requires Named(run[..n] + [wait[0]] + run[n..])
      modifies this`run, this`wait, this`nextTask, tasks`next, tasks`prev, waiting`next, waiting`prev
      modifies run`next, run`prev, wait`next, wait`prev, tmp`state
      ensures Lists() && current in run && nextTask == tmp
      ensures run == old(run)[..n] + [old(wait)[0]] + old(run)[n..] && wait == Cut(old(wait), 0)
    {
      JoinRun(tmp, n);
      nextTask := tmp;
      tmp.state := Runnable;
    }

    lemma Regrouped(was: seq<Node>, slept: seq<Node>, n: nat)
      requires n <= |was| && slept != []
      ensures forall x :: x in was[..n] + [slept[0]] + was[n..] <==> x in was || x == slept[0]
      ensures slept[0] in was[..n] + [slept[0]] + was[n..]
      ensures forall x :: x in Cut(slept, 0) ==> x in slept
    {
    }

    lemma WakeNames(n: nat)
      requires Valid() && wait != [] && n < |run| && run[n] == nextTask
      ensures Named(run[..n] + [wait[0]] + run[n..])
      ensures nextTask.pid in Pids(run) &&
        Pids(run[..n] + [wait[0]] + run[n..]) == InsertBefore(Pids(run), nextTask.pid, wait[0].pid)
      ensures Pids(Cut(wait, 0)) == Pids(wait)[1..]
    {
      PidsInsert(run, n, wait[0]);
      assert Pids(wait)[0] == wait[0].pid && wait[0].pid in State().wait;
      assert wait[0].pid !in State().run;
      InsertMembers(Pids(run), nextTask.pid, wait[0].pid);
      assert Cut(wait, 0) == wait[1..];
    }

    ghost method NoteWoken(task: Node)
      requires Lists() && current in run
      modifies this`woken
      ensures Lists() && current in run
      ensures State() == old(State()).(woken := old(woken) + [task.pid])
    {
      woken := woken + [task.pid];
    }

    method WakeUp(ghost n: nat)
      requires Lists() && current in run && wait != [] && n < |run| && run[n] == nextTask
      requires Named(run[..n] + [wait[0]] + run[n..])
      modifies this`run, this`wait, this`nextTask, this`woken, tasks`next, tasks`prev, waiting`next, waiting`prev
      modifies run`next, run`prev, wait`next, wait`prev, wait`state
      ensures Lists() && current in run
      ensures State() == old(State()).(run := old(Pids(run[..n] + [wait[0]] + run[n..])), next := old(wait[0].pid),
        wait := old(Pids(Cut(wait, 0))), woken := old(woken) + [old(wait[0].pid)])
    {
      assert ([waiting] + wait)[1] == waiting.next;
      var tmp := waiting.next;
      WakeFirst(tmp, n);
      NoteWoken(tmp);
    }

    method Unlock()
      requires Lists() && current in run
      modifies this`holder, this`value, this`location
      ensures Lists() && current in run
      ensures State() == old(State()).(holder := -1, value := false, location := old(location)[current.pid := Outside])
    {
      holder := -1;
      value := false;
      location := location[current.pid := Outside];
    }

    // mutex_release
    method MutexRelease()
      requires Valid() && Enabled(State(), Release)
      modifies this, tasks, waiting, run, wait
      ensures Valid() && State() == Apply(old(State()), Release)
    {
      ghost var s := State();
      StepKeepsLists(s, Release);
      EmptyWhenAlone();
      if waiting.next != waiting {
        ghost var n :| 0 <= n < |run| && run[n] == nextTask;
        WakeNames(n);
        WakeUp(n);
        assert State() == Wake(s);
      }
      Unlock();
    }

    lemma EmptyWhenAlone()
      requires TwoRings(run, wait)
      ensures waiting.next == waiting <==> wait == []
    {
    }

    // list_add_tail of a new task in front of the current one.
    method Admit(task: Node, ghost k: nat)
      requires Lists() && k < |run| && run[k] == current && Named(run[..k] + [task] + run[k..])
      requires task !in run && task !in wait && task != tasks && task != waiting && task.state == Runnable
      modifies this`run, run`next, run`prev, tasks`next, tasks`prev, task`next, task`prev
      ensures run == old(run)[..k] + [task] + old(run)[k..] && Lists() && current in run
    {
      ghost var was := run;
      PutAhead(task, current, k);
      Regrouped(was, [task], k);
    }

    method AdmitNew(pid: nat, ghost k: nat)
      requires Lists() && k < |run| && run[k] == current && pid !in Pids(run)
      modifies this`run, run`next, run`prev, tasks`next, tasks`prev
      ensures Lists() && current in run && current.pid in old(State()).run
      ensures State() == old(State()).(run := InsertBefore(old(State()).run, current.pid, pid))
    {
      var task := new Node(pid);
      PidsInsert(run, k, task);
      InsertMembers(Pids(run), current.pid, pid);
      Admit(task, k);
    }

    method TakePid() returns (pid: nat)
      requires Lists() && current in run
      modifies this`currentPid, this`location
      ensures Lists() && current in run && pid == old(currentPid)
      ensures State() == old(State()).(created := pid + 1, location := old(location)[pid := Outside])
    {
      pid := currentPid;
      currentPid := currentPid + 1;
      location := location[pid := Outside];
    }

    method Enroll(ghost k: nat, ghost was: System) returns (pid: nat)
      requires Lists() && k < |run| && run[k] == current && currentPid !in Pids(run)
      requires was == State() && was.current in was.run
      modifies this`run, this`currentPid, this`location, run`next, run`prev, tasks`next, tasks`prev
      ensures Lists() && current in run && pid == was.created && State() == Created(was)
    {
      pid := TakePid();
      AdmitNew(pid, k);
    }

    // thread_create, as far as the lists are concerned.
    method ThreadCreate() returns (pid: nat)
      requires Valid()
      modifies this, tasks, waiting, run, wait
      ensures Valid() && State() == Apply(old(State()), Create) && pid == old(currentPid)
    {
      StepKeepsLists(State(), Create);
      assert currentPid !in State().run;
      ghost var k :| 0 <= k < |run| && run[k] == current;
      pid := Enroll(k, State());
    }
  }
}
