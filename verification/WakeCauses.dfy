/**
 Why a task that sleeps or is blocked becomes ready (kernel/sched/sched.c:158-213,
 225-288, 290-362, 413-433): in every event of every run, a sleeper only when its
 deadline has passed, a waiter only when the process it waits for is freed, and a
 blocked task only when its queue is unblocked; until then its record does not change.
 */
module WakeCauses {
  import opened Wrappers
  import opened Partition
  import opened TaskQueue
  import opened KernelModel
  import opened KernelInvariant
  import opened KernelRuns

  /** Nothing happened to task `x`. */
  predicate Same(k: Kernel, n: Kernel, x: nat) {
    x < |k.tasks| == |n.tasks| && n.tasks[x] == k.tasks[x]
  }

  /** Task `x` was made ready, and nothing else happened to it. */
  predicate MadeReady(k: Kernel, n: Kernel, x: nat) {
    x < |k.tasks| == |n.tasks| && n.tasks[x] == k.tasks[x].(status := Ready, inQueue := Some(ReadyQ))
  }

  /** It was made ready and dispatched at once. */
  predicate Dispatched(k: Kernel, n: Kernel, x: nat) {
    x < |k.tasks| == |n.tasks| && n.current == x && n.tasks[x] == k.tasks[x].(status := Running, inQueue := None)
  }

  predicate Woken(k: Kernel, n: Kernel, x: nat) {
    MadeReady(k, n, x) || Dispatched(k, n, x)
  }

  predicate InQueue(k: Kernel, x: nat, id: QueueId) {
    x < |k.tasks| && x in Q(k, id)
  }

  /** The clock of the machine, which check_sleeping reads 32 bits of. */
  predicate Past(deadline: nat, now: nat) {
    deadline < now % 0x1_0000_0000
  }

  // ----- the building blocks -----

  /** check_sleeping wakes the sleepers whose deadline is past, and touches nobody else. */
  lemma SleepersWake(k: Kernel, now: nat, x: nat)
    requires x < |k.tasks|
    ensures if InQueue(k, x, SleepQ) && Past(k.tasks[x].sleepUntil, now) then MadeReady(k, CheckSleeping(k, now), x)
            else Same(k, CheckSleeping(k, now), x)
  {
  }

  /** Its part of the wake loop in free_proc wakes those that wait for the pid. */
  lemma WaitersWake(k: Kernel, pid: nat, x: nat)
    requires x < |k.tasks|
    ensures var n := Wake(k, WaitQ, Waiters(k, pid));
            if InQueue(k, x, WaitQ) && k.tasks[x].waitpid == pid then MadeReady(k, n, x) else Same(k, n, x)
  {
  }

  /** Releasing locks leaves everyone alone who is not blocked on one of them. */
  lemma {:induction false} ReleaseWakes(k: Kernel, locks: seq<nat>, x: nat, limbo: int)
    requires Inv(k, limbo) && x < NUM_MAX_TASK
    ensures Same(k, ReleaseLocks(k, locks), x) ||
            (MadeReady(k, ReleaseLocks(k, locks), x) && exists b :: b in locks && InQueue(k, x, BlockQ(b)))
    decreases |locks|
  {
    hide TaskOk, QueueOk, PidsDistinct;
    if locks == [] {
    } else {
      var b := locks[0];
      var q := Q(k, BlockQ(b));
      if q == [] {
        ReleaseWakes(k, locks[1..], x, limbo);
      } else {
        UnblockInv(k, b, limbo);
        var n := UnblockOne(k, b);
        ReleaseWakes(n, locks[1..], x, limbo);
        if x == q[0] {
          OnlyInReady(n, x, limbo);
        }
      }
    }
  }

  /** A ready task is in no block queue. */
  lemma OnlyInReady(k: Kernel, x: nat, limbo: int)
    requires Inv(k, limbo) && x < NUM_MAX_TASK && k.tasks[x].inQueue == Some(ReadyQ)
    ensures forall id: QueueId | InQueue(k, x, id) :: id == ReadyQ
  {
    hide TaskOk, PidsDistinct;
    forall id: QueueId | InQueue(k, x, id)
      ensures id == ReadyQ
    {
      assert QueueOk(k, id);
    }
  }

  /** A task that sleeps or is blocked is in the queue it names and in no other. */
  lemma OneQueue(k: Kernel, x: nat, limbo: int)
    requires Inv(k, limbo) && x < NUM_MAX_TASK && Queued(k.tasks[x])
    ensures k.tasks[x].inQueue.Some? && forall id: QueueId :: InQueue(k, x, id) <==> id == k.tasks[x].inQueue.value
  {
    hide PidsDistinct;
    assert TaskOk(k, x, limbo);
    forall id: QueueId | InQueue(k, x, id)
      ensures id == k.tasks[x].inQueue.value
    {
      assert QueueOk(k, id);
    }
  }

  /** free_proc wakes whoever waits for the freed pid; of the others only tasks blocked on a released lock. */
  lemma FreeProcWakes(k: Kernel, i: nat, locks: seq<nat>, x: nat, limbo: int)
    requires Inv(k, limbo) && i < NUM_MAX_TASK && x < NUM_MAX_TASK && x != i && Queued(k.tasks[x])
    ensures var n, id := FreeProc(k, i, locks), k.tasks[x].inQueue;
            if id == Some(WaitQ) then (if k.tasks[x].waitpid == k.tasks[i].pid then MadeReady(k, n, x) else Same(k, n, x))
            else Same(k, n, x) || (MadeReady(k, n, x) && exists b :: b in locks && id == Some(BlockQ(b)))
  {
    hide Inv, Wake, Waiters, ReleaseLocks;
    InvSized(k, limbo);
    var k0 := FreeStack(k, i);
    FreeStackInv(k, i, limbo);
    ReleaseKeepsSize(k0, locks);
    ReleaseInv(k0, locks, limbo);
    var k1 := ReleaseLocks(k0, locks);
    ReleaseWakes(k0, locks, x, limbo);
    OneQueue(k, x, limbo);
    OneQueue(k0, x, limbo);
    StillQueued(k0, k1, x);
    OneQueue(k1, x, limbo);
    WaitersWake(k1, k.tasks[i].pid, x);
  }

  lemma StillQueued(k: Kernel, n: Kernel, x: nat)
    requires x < NUM_MAX_TASK && Sized(k) && Queued(k.tasks[x]) && OnlyQueued(k, n)
    ensures Sized(n) && Queued(n.tasks[x])
  {
  }

  lemma FreeStackInv(k: Kernel, i: nat, limbo: int)
    requires Inv(k, limbo) && i < NUM_MAX_TASK
    ensures Inv(FreeStack(k, i), limbo) && FreeStack(k, i).tasks == k.tasks && FreeStack(k, i).queues == k.queues && Sized(k)
  {
    StackIrrelevant(k, FreeStack(k, i), limbo);
  }

  // ----- the scheduler -----

  lemma CheckedQueued(k: Kernel, now: nat, x: nat)
    requires Inv(k, -1) && x < NUM_MAX_TASK
    ensures var n := CheckSleeping(k, now); Inv(n, -1) && n.current == k.current && n.tasks[x].pid == k.tasks[x].pid
    ensures !Queued(k.tasks[x]) ==> CheckSleeping(k, now).tasks[x] == k.tasks[x]
    ensures Queued(k.tasks[x]) ==> Queued(CheckSleeping(k, now).tasks[x])
  {
    hide Inv, CheckSleeping;
    CheckSleepingInv(k, now);
  }

  lemma NotReady(k: Kernel, x: nat)
    requires Inv(k, -1) && x < NUM_MAX_TASK && Queued(k.tasks[x]) && k.tasks[x].status != Ready
    ensures var t := k.tasks[x];
            && t.inQueue.Some? && t.inQueue != Some(ReadyQ)
            && (t.inQueue == Some(SleepQ) <==> t.status == Sleeping)
  {
    hide QueueOk, PidsDistinct;
    assert TaskOk(k, x, -1);
  }

  lemma PushOther(k: Kernel, i: nat, id: QueueId, st: Status, x: nat)
    requires i < |k.tasks| && x < |k.tasks| && x != i
    ensures Same(k, Push(k, i, id, st), x)
  {
  }

  /** What the scheduler does, before its dispatch, to a task that sleeps or is blocked. */
  lemma BeforeSwitchWakes(k: Kernel, now: nat, locks: seq<nat>, x: nat)
    requires Inv(k, -1) && x < NUM_MAX_TASK && x != k.current && Queued(k.tasks[x]) && k.tasks[x].status != Ready
    ensures Sized(k)
    ensures var n, id, c := BeforeSwitch(k, now, locks), k.tasks[x].inQueue, k.tasks[k.current];
            match id
            case Some(SleepQ) => if Past(k.tasks[x].sleepUntil, now) then MadeReady(k, n, x) else Same(k, n, x)
            case Some(WaitQ) => if c.status == Exited && k.tasks[x].waitpid == c.pid then MadeReady(k, n, x) else Same(k, n, x)
            case _ => Same(k, n, x) || (MadeReady(k, n, x) && c.status == Exited && exists b :: b in locks && id == Some(BlockQ(b)))
  {
    hide Inv, FreeProc, CheckSleeping, Push;
    InvSized(k, -1);
    SleepersWake(k, now, x);
    OneQueue(k, x, -1);
    CheckedQueued(k, now, x);
    CheckedQueued(k, now, k.current);
    var k1 := CheckSleeping(k, now);
    NotReady(k, x);
    if k1.tasks[k1.current].status == Exited {
      FreeProcWakes(k1, k1.current, locks, x, -1);
    } else if k1.tasks[k1.current].pid != 0 && k1.tasks[k1.current].status == Running {
      PushOther(k1, k1.current, ReadyQ, Ready, x);
    }
  }

  lemma SwitchOther(k: Kernel, x: nat)
    requires Q(k, ReadyQ) != [] && Q(k, ReadyQ)[0] < |k.tasks| && x < |k.tasks|
    ensures Same(k, Switch(k), x) || (Q(k, ReadyQ)[0] == x && Dispatched(k, Switch(k), x))
  {
  }

  /** The same of the whole call: a task that becomes ready may be dispatched by it. */
  lemma ScheduleWakes(k: Kernel, now: nat, locks: seq<nat>, x: nat)
    requires Inv(k, -1) && StacksOk(k) && CanSchedule(k, now, locks) && x < NUM_MAX_TASK && x != k.current
    requires Queued(k.tasks[x]) && k.tasks[x].status != Ready
    ensures var n, id, c := Schedule(k, now, locks), k.tasks[x].inQueue, k.tasks[k.current];
            match id
            case Some(SleepQ) => if Past(k.tasks[x].sleepUntil, now) then Woken(k, n, x) else Same(k, n, x)
            case Some(WaitQ) => if c.status == Exited && k.tasks[x].waitpid == c.pid then Woken(k, n, x) else Same(k, n, x)
            case _ => Same(k, n, x) || (Woken(k, n, x) && c.status == Exited && exists b :: b in locks && id == Some(BlockQ(b)))
  {
    hide Inv, StacksOk, BeforeSwitch, Past;
    InvSized(k, -1);
    BeforeSwitchWakes(k, now, locks, x);
    BeforeSwitchInv(k, now, locks);
    var m := BeforeSwitch(k, now, locks);
    SwitchOther(m, x);
    NotReady(k, x);
    if Same(k, m, x) {
      HeadReady(m);
    }
  }

  lemma HeadReady(k: Kernel)
    requires Inv(k, -1) && Q(k, ReadyQ) != []
    ensures Q(k, ReadyQ)[0] < NUM_MAX_TASK && k.tasks[Q(k, ReadyQ)[0]].status == Ready
  {
    Member(k, ReadyQ, Q(k, ReadyQ)[0], -1);
    assert TaskOk(k, Q(k, ReadyQ)[0], -1);
  }

  // ----- every event -----

  /** Somebody other than the running task has the pid. */
  predicate OtherHas(k: Kernel, pid: nat) {
    exists i :: 0 <= i < |k.tasks| && i != k.current && k.tasks[i].pid == pid
  }

  /** The pid of the process that the event frees, if any. */
  function Freed(k: Kernel, e: Event): Option<nat>
    requires Sized(k)
  {
    match e
    case DoKill(pid, _) => if OtherHas(k, pid) then Some(pid) else None
    case DoExit(_, _) => Some(k.tasks[k.current].pid)
    case DoTick(_, _) => if k.tasks[k.current].status == Exited then Some(k.tasks[k.current].pid) else None
    case _ => None
  }

  /** The locks released with it. */
  function Released(e: Event): seq<nat> {
    match e
    case DoKill(_, locks) => locks
    case DoExit(_, locks) => locks
    case DoTick(_, locks) => locks
    case _ => []
  }

  /** What the scheduler called by the event reads as the time. */
  function Reading(k: Kernel, e: Event): Option<nat> {
    if !CallsScheduler(k, e) then None
    else
      match e
      case DoTick(now, _) => Some(now)
      case DoSleep(_, now) => Some(now)
      case DoBlock(_, now) => Some(now)
      case DoWaitpid(_, now) => Some(now)
      case DoExit(now, _) => Some(now)
      case _ => None
  }

  /** The reason for a task to become ready. */
  predicate Cause(k: Kernel, e: Event, x: nat)
    requires Sized(k) && x < NUM_MAX_TASK
  {
    var t := k.tasks[x];
    match t.inQueue
    case Some(SleepQ) => var now := Reading(k, e); now.Some? && Past(t.sleepUntil, now.value)
    case Some(WaitQ) => Freed(k, e) == Some(t.waitpid)
    case Some(BlockQ(b)) =>
      || e == DoUnblockAll(b) || (e == DoUnblockOne(b) && Q(k, BlockQ(b)) != [] && Q(k, BlockQ(b))[0] == x)
      || (Freed(k, e).Some? && b in Released(e))
    case _ => false
  }

  /** Lock hand-over aside, where the first waiter of a lock is made ready and the others wait on. */
  predicate MayStay(k: Kernel, e: Event, x: nat)
    requires Sized(k) && x < NUM_MAX_TASK
  {
    var id := k.tasks[x].inQueue;
    id.Some? && id.value.BlockQ? && Freed(k, e).Some? && id.value.n in Released(e)
  }

  /** A task that waits, and that the event does not kill. */
  predicate Bystander(k: Kernel, e: Event, x: nat) {
    && x < |k.tasks| && x != k.current && (k.tasks[x].status == Sleeping || k.tasks[x].status == Blocked)
    && !KillsPid(e, k.tasks[x].pid)
  }

  ghost predicate Outcome(k: Kernel, e: Event, x: nat, n: Kernel)
    requires Sized(k) && x < NUM_MAX_TASK
  {
    if Cause(k, e, x) then Woken(k, n, x) || (MayStay(k, e, x) && Same(k, n, x)) else Same(k, n, x)
  }

  /** A blocking call puts the running task into a queue and then calls the scheduler. */
  lemma BlockedCallWakes(k: Kernel, m: Kernel, now: nat, x: nat, e: Event)
    requires Sized(k) && Inv(m, -1) && StacksOk(m) && CanSchedule(m, now, []) && m.current == k.current && Same(k, m, x)
    requires Bystander(k, e, x) && m.tasks[m.current].status != Exited
    requires Reading(k, e) == Some(now) && Freed(k, e).None? && !e.DoUnblockAll? && !e.DoUnblockOne?
    ensures x < NUM_MAX_TASK && Outcome(k, e, x, Schedule(m, now, []))
  {
    hide Inv, StacksOk, Schedule, CanSchedule, Past, Reading, Freed;
    InvSized(m, -1);
    NotReady(m, x);
    ScheduleWakes(m, now, [], x);
  }

  lemma TickWakes(k: Kernel, e: Event, x: nat)
    requires AtRest(k) && Enabled(k, e) && e.DoTick? && Bystander(k, e, x)
    ensures x < NUM_MAX_TASK && Outcome(k, e, x, Step(k, e))
  {
    hide Inv, StacksOk, Schedule, CanSchedule, Past;
    InvSized(k, -1);
    NotReady(k, x);
    ScheduleWakes(k, e.now, e.locks, x);
  }

  lemma ExitWakes(k: Kernel, e: Event, x: nat)
    requires AtRest(k) && Enabled(k, e) && e.DoExit? && Bystander(k, e, x)
    ensures x < NUM_MAX_TASK && Outcome(k, e, x, Step(k, e))
  {
    hide Inv, StacksOk, Schedule, CanSchedule, Past, FreeProc;
    InvSized(k, -1);
    NotReady(k, x);
    MarkExited(k);
    var m := SetTask(k, k.current, k.tasks[k.current].(status := Exited));
    FreeProcWakes(m, k.current, e.locks, x, -1);
    ExitInv(k, e.locks);
    var n := ExitCurrent(k, e.locks);
    FreedCurrent(m, e.locks);
    if Same(k, n, x) {
      ScheduleWakes(n, e.now, [], x);
    } else {
      DispatchReady(n, e.now, [], x);
    }
  }

  lemma FreedCurrent(k: Kernel, locks: seq<nat>)
    requires Inv(k, -1) && k.tasks[k.current].status == Exited
    ensures var n := FreeProc(k, k.current, locks); Sized(n) && n.current == k.current && n.tasks[n.current].status == NoTask
  {
    hide TaskOk, QueueOk, PidsDistinct;
    FreeProcInv(k, k.current, locks, -1);
  }

  /** The scheduler changes a ready task only by dispatching it. */
  lemma DispatchReady(k: Kernel, now: nat, locks: seq<nat>, x: nat)
    requires Inv(k, -1) && StacksOk(k) && CanSchedule(k, now, locks) && x < NUM_MAX_TASK && x != k.current && k.tasks[x].status == Ready
    ensures Same(k, Schedule(k, now, locks), x) || Dispatched(k, Schedule(k, now, locks), x)
  {
    hide Inv, StacksOk, FreeProc, CheckSleeping, Push;
    InvSized(k, -1);
    BeforeSwitchInv(k, now, locks);
    SleepersWake(k, now, x);
    CheckedQueued(k, now, x);
    CheckedQueued(k, now, k.current);
    ReadyQueue(k, x);
    var k1 := CheckSleeping(k, now);
    if k1.tasks[k1.current].status == Exited {
      ReadyQueue(k1, x);
      FreeProcWakes(k1, k1.current, locks, x, -1);
    } else if k1.tasks[k1.current].pid != 0 && k1.tasks[k1.current].status == Running {
      PushOther(k1, k1.current, ReadyQ, Ready, x);
    }
    SwitchOther(BeforeSwitch(k, now, locks), x);
  }

  lemma ReadyQueue(k: Kernel, x: nat)
    requires Inv(k, -1) && x < NUM_MAX_TASK && k.tasks[x].status == Ready
    ensures k.tasks[x].inQueue == Some(ReadyQ) && !InQueue(k, x, SleepQ) && !InQueue(k, x, WaitQ)
  {
    hide PidsDistinct;
    assert TaskOk(k, x, -1) && QueueOk(k, SleepQ) && QueueOk(k, WaitQ);
  }

  lemma KillWakes(k: Kernel, e: Event, x: nat)
    requires AtRest(k) && Enabled(k, e) && e.DoKill? && Bystander(k, e, x)
    ensures x < NUM_MAX_TASK && Outcome(k, e, x, Step(k, e))
  {
    hide QueueOk, PidsDistinct, StacksOk, Past, FreeProc;
    NotReady(k, x);
    var r := FindPid(k, e.pid, 0);
    if r.Some? {
      var i := r.value;
      var t := k.tasks[i];
      assert TaskOk(k, i, -1);
      OnlyHolder(k, i);
      if t.status != Running {
        assert Queued(t) && OtherHas(k, e.pid);
        RemoveInv(k, i, t.inQueue.value);
        FreeProcWakes(Remove(SetTask(k, i, t.(status := Exited)), i, t.inQueue.value), i, e.locks, x, i);
      }
    }
  }

  lemma UnblockWakes(k: Kernel, e: Event, x: nat)
    requires AtRest(k) && Enabled(k, e) && e.DoUnblockOne? && Bystander(k, e, x)
    ensures x < NUM_MAX_TASK && Outcome(k, e, x, Step(k, e))
  {
    hide TaskOk, QueueOk, PidsDistinct, StacksOk;
    OneQueue(k, x, -1);
    NotReady(k, x);
    assert InQueue(k, x, BlockQ(e.n)) <==> k.tasks[x].inQueue == Some(BlockQ(e.n));
  }

  lemma {:induction false} UnblockAllWakes(k: Kernel, b: nat, x: nat)
    requires Inv(k, -1) && x < NUM_MAX_TASK && Queued(k.tasks[x])
    ensures if k.tasks[x].inQueue == Some(BlockQ(b)) then MadeReady(k, UnblockAll(k, b), x) else Same(k, UnblockAll(k, b), x)
    decreases |Q(k, BlockQ(b))|
  {
    hide TaskOk, QueueOk, PidsDistinct;
    OneQueue(k, x, -1);
    assert InQueue(k, x, BlockQ(b)) <==> k.tasks[x].inQueue == Some(BlockQ(b));
    if Q(k, BlockQ(b)) == [] {
    } else {
      UnblockInv(k, b, -1);
      UnblockAllWakes(UnblockOne(k, b), b, x);
    }
  }

  /** In every event a task that sleeps or is blocked becomes ready if there is a reason for it, and else its record,
      deadline and pid waited for included, stays as it was. */
  lemma WokenExactly(k: Kernel, e: Event, x: nat)
    requires AtRest(k) && Enabled(k, e) && Bystander(k, e, x)
    ensures x < NUM_MAX_TASK && Outcome(k, e, x, Step(k, e))
  {
    hide Inv, StacksOk, Schedule, CanSchedule, Past, UnblockAll;
    InvSized(k, -1);
    NotReady(k, x);
    match e
    case DoSpawn(_) =>
    case DoTick(_, _) => TickWakes(k, e, x);
    case DoSleep(ticks, now) =>
      SleepInv(k, ticks, now);
      BlockedCallWakes(k, SleepCurrent(k, ticks, now), now, x, e);
    case DoBlock(b, now) =>
      DoBlockInv(k, b);
      BlockedCallWakes(k, Push(k, k.current, BlockQ(b), Blocked), now, x, e);
    case DoUnblockOne(_) => UnblockWakes(k, e, x);
    case DoUnblockAll(b) => UnblockAllWakes(k, b, x);
    case DoWaitpid(pid, now) =>
      if WaitBlocks(k, pid) {
        WaitInv(k, pid);
        BlockedCallWakes(k, WaitCurrent(k, pid), now, x, e);
      }
    case DoKill(_, _) => KillWakes(k, e, x);
    case DoExit(_, _) => ExitWakes(k, e, x);
    case SaveSp(_) =>
  }
}
