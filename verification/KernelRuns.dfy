/**
 Runs of the kernel: the invariant over every sequence of events, the
 bijection of kernel stacks and live tasks, and bounded waiting in the ready
 queue (kernel/sched/sched.c:54-90, 126-288, 301-433).
 */
module KernelRuns {
  import opened Wrappers
  import opened Partition
  import opened TaskQueue
  import opened KernelModel
  import opened KernelInvariant

  predicate Live(k: Kernel, i: nat) {
    i < |k.tasks| && k.tasks[i].pid != 0
  }

  /** Each live task has its own stack slot after slot 0, and every other such slot is free. */
  ghost predicate StacksOk(k: Kernel) {
    && Sized(k)
    && (forall i: nat | Live(k, i) :: 1 <= StackSlot(k.tasks[i].sp) < NUM_MAX_TASK && k.stackUsed[StackSlot(k.tasks[i].sp)])
    && (forall i: nat, j: nat | Live(k, i) && Live(k, j) && i != j :: StackSlot(k.tasks[i].sp) != StackSlot(k.tasks[j].sp))
    && (forall s: nat | 1 <= s < NUM_MAX_TASK && k.stackUsed[s] :: Owned(k, s))
  }

  ghost predicate Owned(k: Kernel, s: nat) {
    exists i: nat :: Live(k, i) && StackSlot(k.tasks[i].sp) == s
  }

  /** Between events the current task is running, or was killed, or nothing has run yet. */
  ghost predicate AtRest(k: Kernel) {
    && Inv(k, -1) && StacksOk(k)
    && (k.tasks[k.current].status == Running || k.tasks[k.current].status == Exited
        || (k.tasks[k.current].status == NoTask && k.current == 0))
  }

  /** Stacks and live tasks as before. */
  ghost predicate SameStacks(k: Kernel, n: Kernel) {
    && Sized(k) && Sized(n) && n.stackUsed == k.stackUsed
    && forall x | 0 <= x < NUM_MAX_TASK :: n.tasks[x].pid == k.tasks[x].pid && n.tasks[x].sp == k.tasks[x].sp
  }

  lemma SameStacksOk(k: Kernel, n: Kernel)
    requires StacksOk(k) && SameStacks(k, n)
    ensures StacksOk(n)
  {
    hide StackSlot;
    forall s: nat | 1 <= s < NUM_MAX_TASK && n.stackUsed[s]
      ensures Owned(n, s)
    {
      assert Owned(k, s);
      var i: nat :| Live(k, i) && StackSlot(k.tasks[i].sp) == s;
      assert Live(n, i);
    }
  }

  /** Freeing the process at `i` frees exactly its stack slot, whatever stack pointer it had saved. */
  lemma FreedStacksOk(k: Kernel, n: Kernel, i: nat)
    requires StacksOk(k) && Sized(n) && Live(k, i)
    requires n.stackUsed == FreeStack(k, i).stackUsed && n.tasks[i].pid == 0
    requires forall x | 0 <= x < NUM_MAX_TASK && x != i :: n.tasks[x].pid == k.tasks[x].pid && n.tasks[x].sp == k.tasks[x].sp
    ensures StacksOk(n)
  {
    hide StackSlot;
    forall s: nat | 1 <= s < NUM_MAX_TASK && n.stackUsed[s]
      ensures Owned(n, s)
    {
      assert Owned(k, s);
      var j: nat :| Live(k, j) && StackSlot(k.tasks[j].sp) == s;
      assert Live(n, j);
    }
  }

  // ----- spawning cannot run out of stacks -----

  /** Owned stack slots are no more than the PCB slots that may own them. */
  lemma {:induction false} OwnersFit(k: Kernel, slots: set<nat>, pcbs: set<nat>)
    requires StacksOk(k) && Inv(k, -1) && forall s | s in slots :: Owned(k, s) && Owner(k, s) in pcbs
    ensures |slots| <= |pcbs|
    decreases slots
  {
    hide Inv, StacksOk, Owned, Owner, StackSlot;
    if slots == {} {
    } else {
      var s :| s in slots;
      OwnerLive(k, s);
      forall t | t in slots - {s}
        ensures Owner(k, t) in pcbs - {Owner(k, s)}
      {
        OwnerLive(k, t);
      }
      OwnersFit(k, slots - {s}, pcbs - {Owner(k, s)});
      assert |pcbs - {Owner(k, s)}| == |pcbs| - 1;
    }
  }

  /** The slots 1 to `n`. */
  function Slots(n: nat): (r: set<nat>)
    ensures |r| == n && forall s: nat :: s in r <==> 1 <= s <= n
  {
    if n == 0 then {} else Slots(n - 1) + {n}
  }

  /** new_kernel_stack never fails once alloc_pcb has found a PCB. */
  lemma StackForEveryPcb(k: Kernel)
    requires StacksOk(k) && FreeSlot(k, 1).Some? && Inv(k, -1)
    ensures FreeStackSlot(k, 1).Some?
  {
    if FreeStackSlot(k, 1).None? {
      var s := SomeSlotUnowned(k, FreeSlot(k, 1).value, NUM_MAX_TASK - 1);
    }
  }

  lemma SomeSlotUnowned(k: Kernel, free: nat, n: nat) returns (s: nat)
    requires StacksOk(k) && Inv(k, -1) && n == NUM_MAX_TASK - 1
    requires 1 <= free <= n && k.tasks[free].status == NoTask
    ensures 1 <= s <= n && !Owned(k, s)
  {
    hide Slots, Owned, Owner, StackSlot, Inv, StacksOk;
    var all := Slots(n);
    if s' :| s' in all && !Owned(k, s') {
      s := s';
    } else {
      assert |all - {free}| == |all| - 1;
      forall t | t in all
        ensures Owner(k, t) in all - {free}
      {
        OwnerLive(k, t);
      }
      OwnersFit(k, all, all - {free});
    }
  }

  ghost function Owner(k: Kernel, s: nat): nat
    requires Owned(k, s)
  {
    var i: nat :| Live(k, i) && StackSlot(k.tasks[i].sp) == s;
    i
  }

  lemma OwnerLive(k: Kernel, s: nat)
    requires StacksOk(k) && Inv(k, -1) && Owned(k, s)
    ensures var i := Owner(k, s); 1 <= i < NUM_MAX_TASK && Live(k, i) && StackSlot(k.tasks[i].sp) == s
    ensures k.tasks[Owner(k, s)].status != NoTask
  {
    assert TaskOk(k, Owner(k, s), -1);
  }

  lemma SpawnedPids(k: Kernel, n: Kernel, i: nat, pid: nat)
    requires Inv(k, -1) && Sized(n) && 1 <= i < NUM_MAX_TASK && k.tasks[i].pid == 0 && HasPid(k, pid)
    requires forall x | 0 <= x < NUM_MAX_TASK && x != i :: n.tasks[x].pid == k.tasks[x].pid
    ensures HasPid(n, pid)
  {
    var j :| 0 <= j < |k.tasks| && k.tasks[j].pid == pid;
    assert TaskOk(k, 0, -1);
    assert n.tasks[if j == i then 0 else j].pid == pid;
  }

  lemma SpawnTasks(k: Kernel, n: Kernel, i: nat, sp: nat)
    requires Inv(k, -1) && 1 <= i < NUM_MAX_TASK && k.tasks[i].status == NoTask
    requires n == Push(k.(nextPid := k.nextPid + 1, tasks := k.tasks[i := k.tasks[i].(pid := k.nextPid, sp := sp)]), i, ReadyQ, Ready)
    ensures Inv(n, -1)
  {
    hide NoDup, HasPid;
    assert TaskOk(k, i, -1);
    forall d
      ensures QueueOk(n, d)
    {
      assert QueueOk(k, d);
      NoDupAppend(Q(k, d), [i]);
    }
    forall x | 0 <= x < NUM_MAX_TASK
      ensures TaskOk(n, x, -1)
    {
      assert TaskOk(k, x, -1);
      if HasPid(k, k.tasks[x].waitpid) {
        SpawnedPids(k, n, i, k.tasks[x].waitpid);
      }
    }
    forall x, y | 0 <= x < y < NUM_MAX_TASK && n.tasks[x].pid == n.tasks[y].pid
      ensures n.tasks[x].pid == 0
    {
      assert TaskOk(k, x, -1) && TaskOk(k, y, -1);
    }
  }

  /** do_spawn fails exactly when no PCB is free; else the least free PCB gets the next pid and is queued last. */
  lemma SpawnInv(k: Kernel, depth: nat)
    requires AtRest(k) && depth < STACK_SIZE
    ensures Spawn(k, depth).None? <==> forall j | 1 <= j < NUM_MAX_TASK :: k.tasks[j].status != NoTask
    ensures Spawn(k, depth).Some? ==>
              var n := Spawn(k, depth).value;
              && AtRest(n) && n.current == k.current && n.nextPid == k.nextPid + 1
              && var i := FreeSlot(k, 1);
                 i.Some? && Q(n, ReadyQ) == Q(k, ReadyQ) + [i.value] && i.value < |n.tasks|
                 && n.tasks[i.value].pid == k.nextPid && n.tasks[i.value].status == Ready
  {
    var slot := FreeSlot(k, 1);
    if slot.Some? {
      hide StackSlot, StackAddress, Inv, TaskOk, Owned;
      StackForEveryPcb(k);
      var i := slot.value;
      var s := FreeStackSlot(k, 1).value;
      var n := Spawn(k, depth).value;
      var m := Push(k.(nextPid := k.nextPid + 1, tasks := k.tasks[i := k.tasks[i].(pid := k.nextPid, sp := StackAddress(s, depth))]), i, ReadyQ, Ready);
      SpawnTasks(k, m, i, StackAddress(s, depth));
      StackIrrelevant(m, n, -1);
      SpawnStacks(k, n, i, s, depth);
    }
  }

  lemma SpawnStacks(k: Kernel, n: Kernel, i: nat, s: nat, depth: nat)
    requires Inv(k, -1) && StacksOk(k) && Sized(n) && 1 <= i < NUM_MAX_TASK && k.tasks[i].status == NoTask
    requires 1 <= s < NUM_MAX_TASK && !k.stackUsed[s] && n.stackUsed == k.stackUsed[s := true] && depth < STACK_SIZE
    requires n.tasks[i].pid == k.nextPid && n.tasks[i].sp == StackAddress(s, depth)
    requires forall x | 0 <= x < NUM_MAX_TASK && x != i :: n.tasks[x] == k.tasks[x]
    ensures StacksOk(n)
  {
    hide StackSlot, StackAddress, QueueOk;
    assert TaskOk(k, i, -1) && !Live(k, i) && Live(n, i);
    forall t: nat | 1 <= t < NUM_MAX_TASK && n.stackUsed[t]
      ensures Owned(n, t)
    {
      if t != s {
        assert Owned(k, t);
        var j: nat :| Live(k, j) && StackSlot(k.tasks[j].sp) == t;
        assert Live(n, j);
      }
    }
  }

  // ----- every event keeps the invariant -----

  lemma CheckSleepingInv(k: Kernel, now: nat)
    requires Inv(k, -1)
    ensures var n := CheckSleeping(k, now); Inv(n, -1) && OnlyQueued(k, n) && Q(k, ReadyQ) <= Q(n, ReadyQ)
  {
    hide TaskOk, QueueOk, PidsDistinct;
    var due := KernelModel.DueSleepers(k, now);
    WakeInv(k, SleepQ, due, -1);
    forall x | x in due
      ensures x < NUM_MAX_TASK && Queued(k.tasks[x])
    {
      Member(k, SleepQ, x, -1);
    }
  }

  lemma {:induction false} ReleaseAppends(k: Kernel, locks: seq<nat>)
    ensures Q(k, ReadyQ) <= Q(ReleaseLocks(k, locks), ReadyQ)
    decreases |locks|
  {
    if locks == [] {
    } else {
      var q := Q(k, BlockQ(locks[0]));
      ReleaseAppends(if q != [] && q[0] < |k.tasks| then UnblockOne(k, locks[0]) else k, locks[1..]);
    }
  }

  lemma FreeProcAppends(k: Kernel, i: nat, locks: seq<nat>)
    requires i < |k.tasks|
    ensures Q(k, ReadyQ) <= Q(FreeProc(k, i, locks), ReadyQ)
  {
    hide ReleaseLocks;
    var k0 := FreeStack(k, i);
    ReleaseAppends(k0, locks);
    ReleaseKeepsSize(k0, locks);
  }

  /** Nobody is running or waiting to be freed. */
  ghost predicate Quiet(k: Kernel) {
    Sized(k) && forall x | 0 <= x < NUM_MAX_TASK :: k.tasks[x].status != Running && k.tasks[x].status != Exited
  }

  lemma OnlyCurrentActive(k: Kernel, n: Kernel)
    requires Inv(k, -1) && Inv(n, -1) && n.current == k.current
    requires n.tasks[n.current].status != Running && n.tasks[n.current].status != Exited
    ensures Quiet(n)
  {
    forall x | 0 <= x < NUM_MAX_TASK
      ensures n.tasks[x].status != Running && n.tasks[x].status != Exited
    {
      assert TaskOk(n, x, -1);
    }
  }

  /** The exited current task is freed. */
  lemma FreeCurrent(k: Kernel, locks: seq<nat>)
    requires Inv(k, -1) && StacksOk(k) && k.tasks[k.current].status == Exited
    ensures var n := FreeProc(k, k.current, locks);
            Inv(n, -1) && StacksOk(n) && Quiet(n) && Q(k, ReadyQ) <= Q(n, ReadyQ)
  {
    hide QueueOk, PidsDistinct, FreeProc, StackSlot, FreeStack;
    var n := FreeProc(k, k.current, locks);
    assert TaskOk(k, k.current, -1);
    FreeProcInv(k, k.current, locks, -1);
    FreeProcAppends(k, k.current, locks);
    FreedStacksOk(k, n, k.current);
    OnlyCurrentActive(k, n);
  }

  /** The running task goes to the back of the ready queue. */
  lemma RequeueCurrent(k: Kernel)
    requires Inv(k, -1) && StacksOk(k) && k.tasks[k.current].status == Running && k.tasks[k.current].pid != 0
    ensures var n := Push(k, k.current, ReadyQ, Ready);
            Inv(n, -1) && StacksOk(n) && Quiet(n) && Q(n, ReadyQ) == Q(k, ReadyQ) + [k.current]
  {
    hide QueueOk, PidsDistinct, TaskOk;
    var n := Push(k, k.current, ReadyQ, Ready);
    PushInv(k, k.current, ReadyQ, Ready, -1);
    SameStacksOk(k, n);
    OnlyCurrentActive(k, n);
  }

  /** Before its dequeue the scheduler has nobody running, and whoever was ready kept his place. */
  lemma BeforeSwitchInv(k: Kernel, now: nat, locks: seq<nat>)
    requires Inv(k, -1) && StacksOk(k)
    ensures var n := BeforeSwitch(k, now, locks);
            Inv(n, -1) && StacksOk(n) && Quiet(n) && Q(k, ReadyQ) <= Q(n, ReadyQ)
  {
    hide QueueOk, PidsDistinct, StacksOk, FreeProc, StackSlot, FreeStack, CheckSleeping, Push;
    var k1 := CheckSleeping(k, now);
    CheckSleepingInv(k, now);
    SameStacksOk(k, k1);
    var c := k1.tasks[k1.current];
    assert TaskOk(k1, k1.current, -1);
    if c.status == Running {
      RequeueCurrent(k1);
    } else if c.status == Exited {
      FreeCurrent(k1, locks);
    } else {
      OnlyCurrentActive(k, k1);
    }
  }

  /** scheduler ends with exactly one task running, its own current one. */
  lemma ScheduleInv(k: Kernel, now: nat, locks: seq<nat>)
    requires Inv(k, -1) && StacksOk(k) && CanSchedule(k, now, locks)
    ensures var n := Schedule(k, now, locks);
            && AtRest(n) && n.tasks[n.current].status == Running
            && Q(BeforeSwitch(k, now, locks), ReadyQ) == [n.current] + Q(n, ReadyQ)
  {
    hide TaskOk, QueueOk, PidsDistinct, StacksOk, BeforeSwitch;
    BeforeSwitchInv(k, now, locks);
    var m := BeforeSwitch(k, now, locks);
    SwitchInv(m);
    SameStacksOk(m, Switch(m));
  }

  /** do_unblock_all moves the whole queue, in order, behind the ready queue. */
  lemma {:induction false} UnblockAllInv(k: Kernel, b: nat)
    requires Inv(k, -1)
    ensures var n := UnblockAll(k, b);
            Inv(n, -1) && OnlyQueued(k, n) && Q(n, BlockQ(b)) == [] && Q(n, ReadyQ) == Q(k, ReadyQ) + Q(k, BlockQ(b))
    decreases |Q(k, BlockQ(b))|
  {
    hide TaskOk, QueueOk, PidsDistinct;
    if Q(k, BlockQ(b)) == [] {
    } else {
      UnblockInv(k, b, -1);
      UnblockOnlyQueued(k, b, -1);
      UnblockAllInv(UnblockOne(k, b), b);
      assert Q(k, BlockQ(b)) == [Q(k, BlockQ(b))[0]] + Q(k, BlockQ(b))[1..];
    }
  }

  /** do_kill: afterwards the pid is gone, unless it was the running task's, which is only marked. */
  lemma KillInv(k: Kernel, pid: nat, locks: seq<nat>)
    requires AtRest(k) && IsRunning(k) && pid != 0
    ensures var n, r := Kill(k, pid, locks), FindPid(k, pid, 0);
            AtRest(n) && (r.Some? && k.tasks[r.value].status != Running ==> !HasPid(n, pid))
  {
    hide QueueOk, PidsDistinct, StacksOk, FreeProc, StackSlot, FreeStack;
    var r := FindPid(k, pid, 0);
    if r.Some? {
      var i := r.value;
      var t := k.tasks[i];
      assert TaskOk(k, i, -1) && Live(k, i);
      if t.status == Running {
        MarkExited(k);
      } else {
        assert Queued(t);
        var m := Remove(SetTask(k, i, t.(status := Exited)), i, t.inQueue.value);
        RemoveInv(k, i, t.inQueue.value);
        SameStacksOk(k, m);
        FreeProcInv(m, i, locks, i);
        FreedStacksOk(m, FreeProc(m, i, locks), i);
        OnlyHolder(k, i);
      }
    }
  }

  lemma OnlyHolder(k: Kernel, i: nat)
    requires Inv(k, -1) && i < NUM_MAX_TASK && k.tasks[i].pid != 0
    ensures forall x | 0 <= x < NUM_MAX_TASK && x != i :: k.tasks[x].pid != k.tasks[i].pid
  {
    hide TaskOk, QueueOk;
  }

  lemma MarkExited(k: Kernel)
    requires AtRest(k) && IsRunning(k)
    ensures AtRest(SetTask(k, k.current, k.tasks[k.current].(status := Exited)))
  {
    hide NoDup, HasPid;
    var n := SetTask(k, k.current, k.tasks[k.current].(status := Exited));
    forall d
      ensures QueueOk(n, d)
    {
      assert QueueOk(k, d) && Q(n, d) == Q(k, d);
    }
    SamePids(k, n);
    forall x | 0 <= x < NUM_MAX_TASK
      ensures TaskOk(n, x, -1)
    {
      assert TaskOk(k, x, -1);
      assert k.tasks[x].inQueue.Some? ==> Q(n, k.tasks[x].inQueue.value) == Q(k, k.tasks[x].inQueue.value);
    }
    SameStacksOk(k, n);
  }

  /** Before the scheduler call of a blocking system call: the current task is in the queue it chose. */
  lemma BlockInv(k: Kernel, t: Task, id: QueueId, st: Status)
    requires AtRest(k) && IsRunning(k) && Fits(st, id) && SameIdentity(t, k.tasks[k.current]) && (id == WaitQ ==> HasPid(k, t.waitpid))
    ensures var n := Push(SetTask(k, k.current, t), k.current, id, st);
            Inv(n, -1) && StacksOk(n) && (id != ReadyQ ==> Q(n, ReadyQ) == Q(k, ReadyQ))
  {
    hide QueueOk, PidsDistinct, StacksOk, NoDup;
    var m := SetTask(k, k.current, t);
    assert TaskOk(k, k.current, -1);
    hide TaskOk;
    SetCurrentInv(k, t);
    SamePids(k, m);
    PushInv(m, m.current, id, st, -1);
    SameStacksOk(k, Push(m, k.current, id, st));
  }

  predicate SameIdentity(t: Task, u: Task) {
    t.pid == u.pid && t.status == u.status && t.inQueue == u.inQueue && t.sp == u.sp
  }

  lemma SetCurrentInv(k: Kernel, t: Task)
    requires Inv(k, -1) && IsRunning(k)
    requires t.pid == k.tasks[k.current].pid && t.status == Running && t.inQueue == k.tasks[k.current].inQueue
    ensures Inv(SetTask(k, k.current, t), -1)
  {
    hide NoDup, HasPid;
    var n := SetTask(k, k.current, t);
    forall d
      ensures QueueOk(n, d)
    {
      assert QueueOk(k, d) && Q(n, d) == Q(k, d);
    }
    SamePids(k, n);
    forall x | 0 <= x < NUM_MAX_TASK
      ensures TaskOk(n, x, -1)
    {
      assert TaskOk(k, x, -1);
      assert k.tasks[x].inQueue.Some? ==> Q(n, k.tasks[x].inQueue.value) == Q(k, k.tasks[x].inQueue.value);
    }
  }

  lemma SleepInv(k: Kernel, ticks: nat, now: nat)
    requires AtRest(k) && IsRunning(k)
    ensures var n := SleepCurrent(k, ticks, now); Inv(n, -1) && StacksOk(n) && Q(n, ReadyQ) == Q(k, ReadyQ)
  {
    hide Inv, StacksOk;
    BlockInv(k, k.tasks[k.current].(sleepUntil := (now + ticks) % UINT32), SleepQ, Sleeping);
  }

  lemma DoBlockInv(k: Kernel, b: nat)
    requires AtRest(k) && IsRunning(k)
    ensures var n := Push(k, k.current, BlockQ(b), Blocked); Inv(n, -1) && StacksOk(n) && Q(n, ReadyQ) == Q(k, ReadyQ)
  {
    hide Inv, StacksOk;
    assert SetTask(k, k.current, k.tasks[k.current]) == k;
    BlockInv(k, k.tasks[k.current], BlockQ(b), Blocked);
  }

  lemma WaitInv(k: Kernel, pid: nat)
    requires AtRest(k) && IsRunning(k) && WaitBlocks(k, pid)
    ensures var n := WaitCurrent(k, pid); Inv(n, -1) && StacksOk(n) && Q(n, ReadyQ) == Q(k, ReadyQ)
  {
    hide Inv, StacksOk;
    assert HasPid(k, pid);
    BlockInv(k, k.tasks[k.current].(waitpid := pid), WaitQ, Blocked);
  }

  lemma ExitInv(k: Kernel, locks: seq<nat>)
    requires AtRest(k) && IsRunning(k)
    ensures var n := ExitCurrent(k, locks); Inv(n, -1) && StacksOk(n) && Q(k, ReadyQ) <= Q(n, ReadyQ)
  {
    hide Inv, StacksOk;
    MarkExited(k);
    FreeCurrent(SetTask(k, k.current, k.tasks[k.current].(status := Exited)), locks);
  }

  lemma SaveSpInv(k: Kernel, depth: nat)
    requires AtRest(k) && IsRunning(k) && depth < STACK_SIZE
    ensures AtRest(Step(k, SaveSp(depth)))
  {
    hide QueueOk, TaskOk, PidsDistinct, StackSlot, StackAddress;
    var c := k.tasks[k.current];
    var n := Step(k, SaveSp(depth));
    SetCurrentInv(k, c.(sp := StackAddress(StackSlot(c.sp), depth)));
    CurrentLive(k);
    forall s: nat | 1 <= s < NUM_MAX_TASK && n.stackUsed[s]
      ensures Owned(n, s)
    {
      assert Owned(k, s);
      var j: nat :| Live(k, j) && StackSlot(k.tasks[j].sp) == s;
      assert Live(n, j);
    }
  }

  lemma CurrentLive(k: Kernel)
    requires Inv(k, -1) && IsRunning(k)
    ensures Live(k, k.current)
  {
    assert TaskOk(k, k.current, -1);
  }

  lemma SpawnStepInv(k: Kernel, depth: nat)
    requires AtRest(k) && Enabled(k, DoSpawn(depth))
    ensures var n := Step(k, DoSpawn(depth)); AtRest(n) && Q(k, ReadyQ) <= Q(n, ReadyQ)
  {
    SpawnInv(k, depth);
  }

  /** Every event keeps the invariant. */
  lemma StepInv(k: Kernel, e: Event)
    requires AtRest(k) && Enabled(k, e)
    ensures AtRest(Step(k, e))
  {
    hide Inv, StacksOk, Schedule, CanSchedule, Spawn, Kill, UnblockAll, ExitCurrent, SleepCurrent, WaitCurrent;
    match e
    case DoSpawn(depth) => SpawnStepInv(k, depth);
    case DoTick(now, locks) => ScheduleInv(k, now, locks);
    case DoSleep(ticks, now) => SleepInv(k, ticks, now); ScheduleInv(SleepCurrent(k, ticks, now), now, []);
    case DoBlock(n, now) => DoBlockInv(k, n); ScheduleInv(Push(k, k.current, BlockQ(n), Blocked), now, []);
    case DoUnblockOne(n) =>
      UnblockInv(k, n, -1);
      UnblockOnlyQueued(k, n, -1);
      SameStacksOk(k, UnblockOne(k, n));
    case DoUnblockAll(n) => UnblockAllInv(k, n); SameStacksOk(k, UnblockAll(k, n));
    case DoWaitpid(pid, now) =>
      if WaitBlocks(k, pid) {
        WaitInv(k, pid);
        ScheduleInv(WaitCurrent(k, pid), now, []);
      }
    case DoKill(pid, locks) => KillInv(k, pid, locks);
    case DoExit(now, locks) => ExitInv(k, locks); ScheduleInv(ExitCurrent(k, locks), now, []);
    case SaveSp(depth) => SaveSpInv(k, depth);
  }

  // ----- whole runs -----

  /** The state in which the scheduler starts: only the boot PCB, slot 0, with its stack. */
  function Boot(tasks: seq<Task>): Kernel
  {
    Kernel(tasks, 0, map[ReadyQ := [], SleepQ := [], WaitQ := []], 1, seq(NUM_MAX_TASK, s => s == 0))
  }

  lemma BootAtRest(tasks: seq<Task>)
    requires |tasks| == NUM_MAX_TASK && forall i | 0 <= i < NUM_MAX_TASK :: tasks[i].status == NoTask && tasks[i].pid == 0
    ensures AtRest(Boot(tasks))
  {
    hide StackSlot;
    var k := Boot(tasks);
    forall d
      ensures QueueOk(k, d)
    {
      assert Q(k, d) == [];
    }
    assert forall i: nat :: !Live(k, i);
  }

  predicate RunEnabled(k: Kernel, es: seq<Event>)
    decreases |es|
  {
    es == [] || (Enabled(k, es[0]) && RunEnabled(Step(k, es[0]), es[1..]))
  }

  function Run(k: Kernel, es: seq<Event>): Kernel
    requires RunEnabled(k, es)
    decreases |es|
  {
    if es == [] then k else Run(Step(k, es[0]), es[1..])
  }

  /** In every reachable state: a task is in a queue, once, exactly when its status and in_queue say so;
      at most the current task runs; live pids are distinct; nobody waits for a pid that is gone. */
  lemma {:induction false} EveryRun(k: Kernel, es: seq<Event>)
    requires AtRest(k) && RunEnabled(k, es)
    ensures var n := Run(k, es);
            && AtRest(n)
            && (forall id: QueueId, i: nat :: i in Q(n, id) <==> i < NUM_MAX_TASK && Queued(n.tasks[i]) && n.tasks[i].inQueue == Some(id))
            && (forall id :: NoDup(Q(n, id)))
            && (forall i: nat | i < NUM_MAX_TASK && n.tasks[i].status == Running :: i == n.current)
            && (forall i: nat | i in Q(n, WaitQ) :: i < NUM_MAX_TASK && HasPid(n, n.tasks[i].waitpid))
    decreases |es|
  {
    hide Step, Enabled, StacksOk;
    if es != [] {
      StepInv(k, es[0]);
      EveryRun(Step(k, es[0]), es[1..]);
    } else {
      forall id: QueueId, i: nat
        ensures i in Q(k, id) <==> i < NUM_MAX_TASK && Queued(k.tasks[i]) && k.tasks[i].inQueue == Some(id)
      {
        assert QueueOk(k, id);
        if i < NUM_MAX_TASK {
          assert TaskOk(k, i, -1);
        }
      }
      forall id
        ensures NoDup(Q(k, id))
      {
        assert QueueOk(k, id);
      }
      forall i: nat | i < NUM_MAX_TASK
        ensures k.tasks[i].status == Running ==> i == k.current
        ensures i in Q(k, WaitQ) ==> HasPid(k, k.tasks[i].waitpid)
      {
        assert TaskOk(k, i, -1) && QueueOk(k, WaitQ);
      }
    }
  }

  // ----- bounded waiting -----

  /** Events that call the scheduler. */
  predicate CallsScheduler(k: Kernel, e: Event) {
    e.DoTick? || e.DoSleep? || e.DoBlock? || e.DoExit? || (e.DoWaitpid? && WaitBlocks(k, e.pid))
  }

  function Calls(k: Kernel, es: seq<Event>): nat
    requires RunEnabled(k, es)
    decreases |es|
  {
    if es == [] then 0 else (if CallsScheduler(k, es[0]) then 1 else 0) + Calls(Step(k, es[0]), es[1..])
  }

  predicate KillsPid(e: Event, pid: nat) {
    e.DoKill? && e.pid == pid
  }

  /** A scheduler call dispatches the head of the ready queue and moves everybody else one place up. */
  lemma DispatchAdvances(k: Kernel, m: Kernel, now: nat, locks: seq<nat>, t: nat, p: nat)
    requires Inv(m, -1) && StacksOk(m) && CanSchedule(m, now, locks)
    requires Q(k, ReadyQ) <= Q(m, ReadyQ) && p < |Q(k, ReadyQ)| && Q(k, ReadyQ)[p] == t
    ensures var n := Schedule(m, now, locks);
            if p == 0 then n.current == t else p - 1 < |Q(n, ReadyQ)| && Q(n, ReadyQ)[p - 1] == t
  {
    hide Inv, StacksOk, BeforeSwitch, Schedule, CanSchedule;
    InvSized(m, -1);
    BeforeSwitchInv(m, now, locks);
    ScheduleInv(m, now, locks);
    assert Q(BeforeSwitch(m, now, locks), ReadyQ)[p] == t;
  }

  /** do_kill of another task moves nobody back. */
  lemma KillAdvances(k: Kernel, pid: nat, locks: seq<nat>, t: nat, p: nat) returns (q: nat)
    requires AtRest(k) && IsRunning(k) && pid != 0 && p < |Q(k, ReadyQ)| && Q(k, ReadyQ)[p] == t
    requires t < NUM_MAX_TASK && k.tasks[t].pid != pid
    ensures var n := Kill(k, pid, locks); q <= p && q < |Q(n, ReadyQ)| && Q(n, ReadyQ)[q] == t
  {
    hide Inv, StacksOk, FreeProc, Drop;
    var r := FindPid(k, pid, 0);
    q := p;
    if r.Some? && k.tasks[r.value].status != Running && k.tasks[r.value].inQueue.Some? {
      var i := r.value;
      var id := k.tasks[i].inQueue.value;
      var m := Remove(SetTask(k, i, k.tasks[i].(status := Exited)), i, id);
      if id == ReadyQ {
        q := DropAdvances(Q(k, ReadyQ), {i}, p);
      }
      FreeProcAppends(m, i, locks);
    }
  }

  /** After any event that does not kill it, a ready task is dispatched or still ready, no further
      back, and one place further up if the scheduler was called. */
  lemma WaitStep(k: Kernel, e: Event, t: nat, p: nat) returns (q: nat)
    requires AtRest(k) && Enabled(k, e) && p < |Q(k, ReadyQ)| && Q(k, ReadyQ)[p] == t
    requires t < NUM_MAX_TASK && !KillsPid(e, k.tasks[t].pid)
    ensures var n := Step(k, e);
            n.current == t || (q < |Q(n, ReadyQ)| && Q(n, ReadyQ)[q] == t && (if CallsScheduler(k, e) then q + 1 <= p else q <= p))
  {
    hide Inv, StacksOk, Schedule, CanSchedule, Spawn, Kill, UnblockAll, ExitCurrent, SleepCurrent, WaitCurrent;
    q := if CallsScheduler(k, e) && p > 0 then p - 1 else p;
    match e
    case DoSpawn(depth) => SpawnStepInv(k, depth);
    case DoTick(now, locks) => DispatchAdvances(k, k, now, locks, t, p);
    case DoSleep(ticks, now) =>
      SleepInv(k, ticks, now);
      DispatchAdvances(k, SleepCurrent(k, ticks, now), now, [], t, p);
    case DoBlock(n, now) =>
      DoBlockInv(k, n);
      DispatchAdvances(k, Push(k, k.current, BlockQ(n), Blocked), now, [], t, p);
    case DoUnblockOne(n) =>
    case DoUnblockAll(n) => UnblockAllInv(k, n);
    case DoWaitpid(pid, now) =>
      if WaitBlocks(k, pid) {
        WaitInv(k, pid);
        DispatchAdvances(k, WaitCurrent(k, pid), now, [], t, p);
      }
    case DoKill(pid, locks) => q := KillAdvances(k, pid, locks, t, p);
    case DoExit(now, locks) =>
      ExitInv(k, locks);
      DispatchAdvances(k, ExitCurrent(k, locks), now, [], t, p);
    case SaveSp(depth) =>
  }

  /** No event of the run kills task `t`. */
  predicate Spared(k: Kernel, es: seq<Event>, t: nat)
    requires RunEnabled(k, es)
    decreases |es|
  {
    es == [] || (t < |k.tasks| && !KillsPid(es[0], k.tasks[t].pid) && Spared(Step(k, es[0]), es[1..], t))
  }

  /** A task at position p of the ready queue is dispatched no later than the (p+1)-th scheduler call,
      whatever else is spawned, woken, blocked or killed meanwhile. */
  lemma {:induction false} BoundedWait(k: Kernel, es: seq<Event>, t: nat, p: nat) returns (j: nat)
    requires AtRest(k) && RunEnabled(k, es) && Spared(k, es, t)
    requires t < NUM_MAX_TASK && p < |Q(k, ReadyQ)| && Q(k, ReadyQ)[p] == t && p < Calls(k, es)
    ensures j <= |es| && RunEnabled(k, es[..j])
    ensures Run(k, es[..j]).current == t && Calls(k, es[..j]) <= p + 1
    decreases |es|
  {
    hide Step, Enabled, AtRest, CallsScheduler;
    var e := es[0];
    var n := Step(k, e);
    var q := WaitStep(k, e, t, p);
    if n.current == t {
      j := 1;
      assert es[..1] == [e] && [e][1..] == [];
    } else {
      StepInv(k, e);
      var i := BoundedWait(n, es[1..], t, q);
      j := i + 1;
      assert es[..j][1..] == es[1..][..i] && es[..j][0] == e;
    }
  }
}
