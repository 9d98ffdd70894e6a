/**
 The scheduler has no idle task: where nobody is ready it dequeues from an
 empty queue (kernel/sched/sched.c:249-288, kernel/sched/queue.c:43-48). When
 that happens, told from the state before the call, and a run that gets there.
 */
module SchedulerIdle {
  import opened Wrappers
  import opened Partition
  import opened TaskQueue
  import opened KernelModel
  import opened KernelInvariant
  import opened KernelRuns

  /** A task is ready, or a sleeper is due, or the current task can go on, or its death wakes somebody. */
  ghost predicate SomebodyRuns(k: Kernel, now: nat, locks: seq<nat>)
    requires Sized(k)
  {
    var c := k.tasks[k.current];
    || Q(k, ReadyQ) != []
    || KernelModel.DueSleepers(k, now) != {}
    || (c.status == Running && c.pid != 0)
    || (c.status == Exited && (AwaitsPid(k, c.pid) || LockWaiters(k, locks)))
  }

  /** Somebody waits for the pid. */
  predicate AwaitsPid(k: Kernel, pid: nat) {
    exists x :: x in Q(k, WaitQ) && x < |k.tasks| && k.tasks[x].waitpid == pid
  }

  lemma AwaitsExact(k: Kernel, pid: nat)
    ensures AwaitsPid(k, pid) <==> Waiters(k, pid) != {}
  {
    if AwaitsPid(k, pid) {
      var x :| x in Q(k, WaitQ) && x < |k.tasks| && k.tasks[x].waitpid == pid;
      assert x in Waiters(k, pid);
    }
  }

  predicate LockWaiters(k: Kernel, locks: seq<nat>) {
    exists j | 0 <= j < |locks| :: Q(k, BlockQ(locks[j])) != []
  }

  lemma WakeReady(k: Kernel, from: QueueId, due: set<nat>)
    requires from != ReadyQ && forall i | i in due :: i in Q(k, from)
    ensures Q(Wake(k, from, due), ReadyQ) == [] <==> Q(k, ReadyQ) == [] && due == {}
    ensures Wake(k, from, due).current == k.current && (due == {} ==> Wake(k, from, due).tasks == k.tasks)
    ensures due == {} ==> forall d | d != ReadyQ :: Q(Wake(k, from, due), d) == Q(k, d)
  {
    PickDropMembers(Q(k, from), due);
    if due == {} {
      NobodyDue(Q(k, from));
    } else {
      var i :| i in due;
      assert i in Pick(Q(k, from), due);
    }
  }

  lemma {:induction false} NobodyDue(s: seq<nat>)
    ensures Pick(s, {}) == [] && Drop(s, {}) == s
  {
    if s == [] {
    } else {
      NobodyDue(s[..|s| - 1]);
      assert s == s[..|s| - 1] + [s[|s| - 1]];
    }
  }

  lemma {:induction false} ReleaseReady(k: Kernel, locks: seq<nat>)
    requires forall n: nat | Q(k, BlockQ(n)) != [] :: Q(k, BlockQ(n))[0] < |k.tasks|
    ensures LockWaiters(k, locks) ==> Q(ReleaseLocks(k, locks), ReadyQ) != []
    ensures !LockWaiters(k, locks) ==> ReleaseLocks(k, locks) == k
    decreases |locks|
  {
    if locks == [] {
    } else if Q(k, BlockQ(locks[0])) != [] {
      ReleaseAppends(UnblockOne(k, locks[0]), locks[1..]);
    } else {
      ReleaseReady(k, locks[1..]);
      if LockWaiters(k, locks) {
        var j :| 0 <= j < |locks| && Q(k, BlockQ(locks[j])) != [];
        assert locks[1..][j - 1] == locks[j];
      } else {
        assert forall j | 0 <= j < |locks[1..]| :: locks[1..][j] == locks[j + 1];
      }
    }
  }

  /** Freeing a task readies somebody exactly when somebody waits for its pid or for a lock released with it. */
  lemma FreeReady(k: Kernel, i: nat, locks: seq<nat>)
    requires i < |k.tasks| && Q(k, ReadyQ) == [] && forall n: nat | Q(k, BlockQ(n)) != [] :: Q(k, BlockQ(n))[0] < |k.tasks|
    ensures Q(FreeProc(k, i, locks), ReadyQ) != [] <==> AwaitsPid(k, k.tasks[i].pid) || LockWaiters(k, locks)
  {
    hide Wake, ReleaseLocks, LockWaiters, AwaitsPid;
    AwaitsExact(k, k.tasks[i].pid);
    var k0 := FreeStack(k, i);
    assert forall d :: Q(k0, d) == Q(k, d);
    assert LockWaiters(k0, locks) == LockWaiters(k, locks) by { SameLockWaiters(k, k0, locks); }
    ReleaseReady(k0, locks);
    ReleaseKeepsSize(k0, locks);
    var k1 := ReleaseLocks(k0, locks);
    WakeReady(k1, WaitQ, Waiters(k1, k.tasks[i].pid));
    assert k1 == k0 ==> Waiters(k1, k.tasks[i].pid) == Waiters(k, k.tasks[i].pid);
  }

  lemma SameLockWaiters(k: Kernel, n: Kernel, locks: seq<nat>)
    requires forall d :: Q(n, d) == Q(k, d)
    ensures LockWaiters(n, locks) == LockWaiters(k, locks)
  {
  }

  lemma BlockedInRange(k: Kernel)
    requires Inv(k, -1)
    ensures forall n: nat | Q(k, BlockQ(n)) != [] :: Q(k, BlockQ(n))[0] < |k.tasks|
  {
    hide TaskOk, PidsDistinct;
    forall n: nat | Q(k, BlockQ(n)) != []
      ensures Q(k, BlockQ(n))[0] < |k.tasks|
    {
      assert QueueOk(k, BlockQ(n)) && Q(k, BlockQ(n))[0] in Q(k, BlockQ(n));
    }
  }

  lemma ReadyInRange(k: Kernel)
    requires Inv(k, -1) && Q(k, ReadyQ) != []
    ensures Q(k, ReadyQ)[0] < |k.tasks|
  {
    hide TaskOk, PidsDistinct;
    assert QueueOk(k, ReadyQ) && Q(k, ReadyQ)[0] in Q(k, ReadyQ);
  }

  /** The scheduler finds a task exactly when somebody runs by the state before the call. */
  lemma CanScheduleExact(k: Kernel, now: nat, locks: seq<nat>)
    requires Inv(k, -1) && StacksOk(k)
    ensures CanSchedule(k, now, locks) <==> SomebodyRuns(k, now, locks)
  {
    hide Inv, StacksOk, FreeProc, Push, Wake, LockWaiters;
    InvSized(k, -1);
    BeforeSwitchInv(k, now, locks);
    var n := BeforeSwitch(k, now, locks);
    if Q(n, ReadyQ) != [] {
      ReadyInRange(n);
    }
    var due := KernelModel.DueSleepers(k, now);
    WakeReady(k, SleepQ, due);
    var k1 := CheckSleeping(k, now);
    if Q(k1, ReadyQ) != [] {
      ReadyStays(k, now, locks);
    } else {
      assert forall b: nat :: Q(k1, BlockQ(b)) == Q(k, BlockQ(b));
      BlockedInRange(k);
      assert k1.tasks == k.tasks;
      FreeReady(k1, k1.current, locks);
      SameLocks(k, k1, locks);
      assert AwaitsPid(k1, k.tasks[k.current].pid) == AwaitsPid(k, k.tasks[k.current].pid);
      PushReady(k1, k1.current);
    }
  }

  lemma SameLocks(k: Kernel, n: Kernel, locks: seq<nat>)
    requires forall d | d != ReadyQ :: Q(n, d) == Q(k, d)
    ensures LockWaiters(n, locks) == LockWaiters(k, locks)
  {
  }

  lemma PushReady(k: Kernel, i: nat)
    requires i < |k.tasks|
    ensures Q(Push(k, i, ReadyQ, Ready), ReadyQ) != []
  {
  }

  lemma ReadyStays(k: Kernel, now: nat, locks: seq<nat>)
    requires Sized(k) && Q(CheckSleeping(k, now), ReadyQ) != []
    ensures Q(BeforeSwitch(k, now, locks), ReadyQ) != []
  {
    hide FreeProc, Pick, Drop;
    var k1 := CheckSleeping(k, now);
    FreeProcAppends(k1, k1.current, locks);
  }

  /** A running task that sleeps while nobody else is ready or due takes the scheduler to the empty queue,
      unless its own deadline, modulo 2^32, is below the 32-bit clock. */
  lemma SleepStalls(k: Kernel, ticks: nat, now: nat)
    requires AtRest(k) && IsRunning(k) && Q(k, ReadyQ) == [] && KernelModel.DueSleepers(k, now) == {}
    ensures Enabled(k, DoSleep(ticks, now)) <==> (now + ticks) % UINT32 < now % UINT32
  {
    hide Inv, StacksOk, CanSchedule, Wake, Push, LockWaiters;
    InvSized(k, -1);
    SleepInv(k, ticks, now);
    var n := SleepCurrent(k, ticks, now);
    CanScheduleExact(n, now, []);
    SleepShape(k, ticks, now);
  }

  lemma SleepShape(k: Kernel, ticks: nat, now: nat)
    requires Sized(k) && k.tasks[k.current].status == Running && KernelModel.DueSleepers(k, now) == {} && Inv(k, -1)
    ensures var n := SleepCurrent(k, ticks, now);
            && Sized(n) && Q(n, ReadyQ) == Q(k, ReadyQ) && n.current == k.current && n.tasks[n.current].status == Sleeping
            && (KernelModel.DueSleepers(n, now) != {} <==> (now + ticks) % UINT32 < now % UINT32)
  {
    hide TaskOk, PidsDistinct, QueueOk;
    var n := SleepCurrent(k, ticks, now);
    assert Q(n, SleepQ) == Q(k, SleepQ) + [k.current];
    if (now + ticks) % UINT32 < now % UINT32 {
      assert k.current in KernelModel.DueSleepers(n, now);
    } else {
      forall i | i in Q(n, SleepQ) && i < |n.tasks|
        ensures n.tasks[i].sleepUntil >= now % UINT32
      {
        assert i !in KernelModel.DueSleepers(k, now);
      }
    }
  }

  /** The run: one process is spawned, dispatched, and sleeps. */
  lemma LoneProcessStalls(tasks: seq<Task>, depth: nat, start: nat, ticks: nat, now: nat)
    requires |tasks| == NUM_MAX_TASK && forall i | 0 <= i < NUM_MAX_TASK :: tasks[i].status == NoTask && tasks[i].pid == 0
    requires depth < STACK_SIZE && now % UINT32 + ticks < UINT32
    ensures var es := [DoSpawn(depth), DoTick(start, [])];
            RunEnabled(Boot(tasks), es) && IsRunning(Run(Boot(tasks), es)) && !Enabled(Run(Boot(tasks), es), DoSleep(ticks, now))
  {
    hide Inv, StacksOk, Schedule, BeforeSwitch, CanSchedule, StackSlot;
    BootAtRest(tasks);
    var k := Boot(tasks);
    SpawnInv(k, depth);
    var k1 := Spawn(k, depth).value;
    InvSized(k1, -1);
    CanScheduleExact(k1, start, []);
    ScheduleInv(k1, start, []);
    var k2 := Schedule(k1, start, []);
    OneReady(k1, start);
    var es := [DoSpawn(depth), DoTick(start, [])];
    assert es[1..] == [DoTick(start, [])] && es[1..][1..] == [];
    assert RunEnabled(k1, es[1..]) && Run(k1, es[1..]) == k2;
    SleepStalls(k2, ticks, now);
    NoWrap(now, ticks);
  }

  /** A deadline that does not pass the end of the 32-bit clock is not below it. */
  lemma NoWrap(now: nat, ticks: nat)
    requires now % UINT32 + ticks < UINT32
    ensures (now + ticks) % UINT32 == now % UINT32 + ticks
  {
  }

  /** With one task ready, nobody asleep and no current task, the scheduler leaves the queues empty. */
  lemma OneReady(k: Kernel, now: nat)
    requires Sized(k) && |Q(k, ReadyQ)| == 1 && Q(k, SleepQ) == [] && Q(k, ReadyQ)[0] < |k.tasks|
    requires k.tasks[k.current].status != Running && k.tasks[k.current].status != Exited
    ensures var n := Schedule(k, now, []); Sized(n) && Q(n, ReadyQ) == [] && Q(n, SleepQ) == []
  {
    WakeReady(k, SleepQ, KernelModel.DueSleepers(k, now));
  }
}
