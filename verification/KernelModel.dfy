/**
 Process control blocks, the scheduler queues and the kernel stacks
 (kernel/sched/sched.c) as a state and its operations. Queues are sequences
 of PCB slots, as TaskQueue proves of the linked form. Kernel code does not
 yield between scheduler calls, so each operation is one atomic step.
 */
module KernelModel {
  import opened Wrappers
  import opened Partition
  import opened TaskQueue

  const NUM_MAX_TASK: nat := 32
  const STACK_TOP: nat := 0xffff_ffff_a0f0_0000
  const STACK_SIZE: nat := 0x1000

  datatype QueueId = ReadyQ | SleepQ | WaitQ | BlockQ(n: nat)

  datatype Task = Task(pid: nat, status: Status, inQueue: Option<QueueId>, sleepUntil: nat, waitpid: nat, sp: nat)

  datatype Kernel = Kernel(tasks: seq<Task>, current: nat, queues: map<QueueId, seq<nat>>, nextPid: nat, stackUsed: seq<bool>)

  function Q(k: Kernel, id: QueueId): seq<nat> {
    if id in k.queues then k.queues[id] else []
  }

  predicate Sized(k: Kernel) {
    |k.tasks| == NUM_MAX_TASK && k.current < NUM_MAX_TASK && |k.stackUsed| == NUM_MAX_TASK
  }

  function SetTask(k: Kernel, i: nat, t: Task): Kernel
    requires i < |k.tasks|
  {
    k.(tasks := k.tasks[i := t])
  }

  /** Mark task `i` and push it on a queue: what do_sleep, do_block, do_waitpid and the wake-ups share. */
  function Push(k: Kernel, i: nat, id: QueueId, st: Status): Kernel
    requires i < |k.tasks|
  {
    k.(tasks := k.tasks[i := k.tasks[i].(status := st, inQueue := Some(id))], queues := k.queues[id := Q(k, id) + [i]])
  }

  /** queue_remove. */
  function Remove(k: Kernel, i: nat, id: QueueId): Kernel {
    k.(queues := k.queues[id := Drop(Q(k, id), {i})])
  }

  /** The wake loops: the slots in `due` move from queue `from` to the ready queue. */
  function Wake(k: Kernel, from: QueueId, due: set<nat>): Kernel
    requires from != ReadyQ
  {
    k.(tasks := seq(|k.tasks|, i requires 0 <= i < |k.tasks| =>
                  if i in due then k.tasks[i].(status := Ready, inQueue := Some(ReadyQ)) else k.tasks[i]),
       queues := k.queues[ReadyQ := Q(k, ReadyQ) + Pick(Q(k, from), due)][from := Drop(Q(k, from), due)])
  }

  function DueSleepers(k: Kernel, now: nat): set<nat> {
    set i | i in Q(k, SleepQ) && i < |k.tasks| && k.tasks[i].sleepUntil < now % UINT32
  }

  /** check_sleeping. */
  function CheckSleeping(k: Kernel, now: nat): Kernel {
    Wake(k, SleepQ, DueSleepers(k, now))
  }

  // ----- freeing a process -----

  /** do_unblock_one on block queue `n`, which must not be empty. */
  function UnblockOne(k: Kernel, n: nat): Kernel
    requires Q(k, BlockQ(n)) != [] && Q(k, BlockQ(n))[0] < |k.tasks|
  {
    var i := Q(k, BlockQ(n))[0];
    Push(k.(queues := k.queues[BlockQ(n) := Q(k, BlockQ(n))[1..]]), i, ReadyQ, Ready)
  }

  /** The queue effect of releasing the locks on record: each wakes its first waiter, if any. */
  function ReleaseLocks(k: Kernel, locks: seq<nat>): Kernel
    decreases |locks|
  {
    if locks == [] then k
    else
      var q := Q(k, BlockQ(locks[0]));
      ReleaseLocks(if q != [] && q[0] < |k.tasks| then UnblockOne(k, locks[0]) else k, locks[1..])
  }

  function Waiters(k: Kernel, pid: nat): set<nat> {
    set i | i in Q(k, WaitQ) && i < |k.tasks| && k.tasks[i].waitpid == pid
  }

  /** free_kernel_stack's slot number for a saved stack pointer. */
  function StackSlot(sp: nat): nat {
    if sp <= STACK_TOP then (STACK_TOP - sp) / STACK_SIZE else 0
  }

  /** The address `depth` bytes into stack slot `s`. */
  function StackAddress(s: nat, depth: nat): (sp: nat)
    ensures s < NUM_MAX_TASK && depth < STACK_SIZE ==> StackSlot(sp) == s
  {
    if s * STACK_SIZE + depth <= STACK_TOP then STACK_TOP - s * STACK_SIZE - depth else 0
  }

  function FreeStack(k: Kernel, i: nat): Kernel
    requires i < |k.tasks|
  {
    var s := StackSlot(k.tasks[i].sp);
    if s < |k.stackUsed| then k.(stackUsed := k.stackUsed[s := false]) else k
  }

  function FreePcb(k: Kernel, i: nat): Kernel
    requires i < |k.tasks|
  {
    SetTask(k, i, k.tasks[i].(status := NoTask, pid := 0))
  }

  /** free_proc, with the locks the PCB has on record. */
  function FreeProc(k: Kernel, i: nat, locks: seq<nat>): Kernel
    requires i < |k.tasks|
  {
    var k1 := ReleaseLocks(FreeStack(k, i), locks);
    ReleaseKeepsSize(FreeStack(k, i), locks);
    var k2 := Wake(k1, WaitQ, Waiters(k1, k.tasks[i].pid));
    FreePcb(k2, i)
  }

  lemma {:induction false} ReleaseKeepsSize(k: Kernel, locks: seq<nat>)
    ensures |ReleaseLocks(k, locks).tasks| == |k.tasks|
    decreases |locks|
  {
    if locks == [] {
    } else {
      var q := Q(k, BlockQ(locks[0]));
      ReleaseKeepsSize(if q != [] && q[0] < |k.tasks| then UnblockOne(k, locks[0]) else k, locks[1..]);
    }
  }

  // ----- scheduler -----

  /** scheduler up to the dequeue: sleepers wake, the running task goes to the back, an exited one is freed. */
  function BeforeSwitch(k: Kernel, now: nat, locks: seq<nat>): Kernel
    requires Sized(k)
  {
    var k1 := CheckSleeping(k, now);
    var c := k1.tasks[k1.current];
    if c.pid != 0 && c.status == Running then Push(k1, k1.current, ReadyQ, Ready)
    else if c.status == Exited then FreeProc(k1, k1.current, locks)
    else k1
  }

  /** The head of the ready queue becomes the running task. */
  function Switch(k: Kernel): Kernel
    requires Q(k, ReadyQ) != [] && Q(k, ReadyQ)[0] < |k.tasks|
  {
    var t: nat := Q(k, ReadyQ)[0];
    k.(queues := k.queues[ReadyQ := Q(k, ReadyQ)[1..]],
       tasks := k.tasks[t := k.tasks[t].(status := Running, inQueue := None)],
       current := t)
  }

  /** queue_dequeue needs a task: the scheduler must find one. */
  predicate CanSchedule(k: Kernel, now: nat, locks: seq<nat>) {
    Sized(k) && var n := BeforeSwitch(k, now, locks); Q(n, ReadyQ) != [] && Q(n, ReadyQ)[0] < |n.tasks|
  }

  /** scheduler; where no task is ready the source dereferences a null head, which no event allows. */
  function Schedule(k: Kernel, now: nat, locks: seq<nat>): Kernel {
    if CanSchedule(k, now, locks) then Switch(BeforeSwitch(k, now, locks)) else k
  }

  // ----- spawning -----

  /** alloc_pcb: the least free slot after 0. */
  function FreeSlot(k: Kernel, i: nat): (r: Option<nat>)
    ensures r.Some? ==> i <= r.value < |k.tasks| && k.tasks[r.value].status == NoTask && forall j | i <= j < r.value :: k.tasks[j].status != NoTask
    ensures r.None? ==> forall j | i <= j < |k.tasks| :: k.tasks[j].status != NoTask
    decreases |k.tasks| - i
  {
    if i >= |k.tasks| then None else if k.tasks[i].status == NoTask then Some(i) else FreeSlot(k, i + 1)
  }

  /** new_kernel_stack: the least unused slot after 0; None where the source returns NULL. */
  function FreeStackSlot(k: Kernel, s: nat): (r: Option<nat>)
    ensures r.Some? ==> s <= r.value < |k.stackUsed| && !k.stackUsed[r.value] && forall j | s <= j < r.value :: k.stackUsed[j]
    ensures r.None? ==> forall j | s <= j < |k.stackUsed| :: k.stackUsed[j]
    decreases |k.stackUsed| - s
  {
    if s >= |k.stackUsed| then None else if !k.stackUsed[s] then Some(s) else FreeStackSlot(k, s + 1)
  }

  /** do_spawn; the new stack pointer lies `depth` bytes into its slot (two contexts and the arguments). */
  function Spawn(k: Kernel, depth: nat): Option<Kernel>
    requires Sized(k) && depth < STACK_SIZE
  {
    var slot := FreeSlot(k, 1);
    if slot.None? then None
    else
      var s := FreeStackSlot(k, 1);
      if s.None? then None
      else
        var i := slot.value;
        var k1 := k.(nextPid := k.nextPid + 1, stackUsed := k.stackUsed[s.value := true],
                     tasks := k.tasks[i := k.tasks[i].(pid := k.nextPid, sp := StackAddress(s.value, depth))]);
        Some(Push(k1, i, ReadyQ, Ready))
  }

  // ----- system calls -----

  /** The loop of do_kill and do_waitpid: the first slot whose pid is `pid`. */
  function FindPid(k: Kernel, pid: nat, i: nat): (r: Option<nat>)
    ensures r.Some? ==> i <= r.value < |k.tasks| && k.tasks[r.value].pid == pid && forall j | i <= j < r.value :: k.tasks[j].pid != pid
    ensures r.None? ==> forall j | i <= j < |k.tasks| :: k.tasks[j].pid != pid
    decreases |k.tasks| - i
  {
    if i >= |k.tasks| then None else if k.tasks[i].pid == pid then Some(i) else FindPid(k, pid, i + 1)
  }

  /** do_kill: a running task is marked, any other leaves its queue and is freed. */
  function Kill(k: Kernel, pid: nat, locks: seq<nat>): Kernel {
    var r := FindPid(k, pid, 0);
    if r.None? then k
    else
      var i := r.value;
      var t := k.tasks[i];
      if t.status == Running then SetTask(k, i, t.(status := Exited))
      else if t.inQueue.None? then k
      else FreeProc(Remove(SetTask(k, i, t.(status := Exited)), i, t.inQueue.value), i, locks)
  }

  function SleepCurrent(k: Kernel, ticks: nat, now: nat): Kernel
    requires Sized(k)
  {
    Push(SetTask(k, k.current, k.tasks[k.current].(sleepUntil := (now + ticks) % UINT32)), k.current, SleepQ, Sleeping)
  }

  function WaitCurrent(k: Kernel, pid: nat): Kernel
    requires Sized(k)
  {
    Push(SetTask(k, k.current, k.tasks[k.current].(waitpid := pid)), k.current, WaitQ, Blocked)
  }

  /** do_exit up to its scheduler call. */
  function ExitCurrent(k: Kernel, locks: seq<nat>): Kernel
    requires Sized(k)
  {
    FreeProc(SetTask(k, k.current, k.tasks[k.current].(status := Exited)), k.current, locks)
  }

  /** do_unblock_all. */
  function UnblockAll(k: Kernel, n: nat): Kernel
    decreases |Q(k, BlockQ(n))|
  {
    var q := Q(k, BlockQ(n));
    if q == [] || q[0] >= |k.tasks| then k else UnblockAll(UnblockOne(k, n), n)
  }

  // ----- runs -----

  /** One stretch of kernel code between two points where another task may run. */
  datatype Event =
    | DoSpawn(depth: nat)
    | DoTick(now: nat, locks: seq<nat>)
    | DoSleep(ticks: nat, now: nat)
    | DoBlock(n: nat, now: nat)
    | DoUnblockOne(n: nat)
    | DoUnblockAll(n: nat)
    | DoWaitpid(pid: nat, now: nat)
    | DoKill(pid: nat, locks: seq<nat>)
    | DoExit(now: nat, locks: seq<nat>)
    | SaveSp(depth: nat)

  predicate IsRunning(k: Kernel) {
    Sized(k) && k.tasks[k.current].status == Running
  }

  /** do_waitpid blocks only when some PCB has the pid. */
  predicate WaitBlocks(k: Kernel, pid: nat) {
    FindPid(k, pid, 0).Some?
  }

  /** A killed task enters the kernel only to be rescheduled; do_kill(0) would follow a null in_queue. */
  predicate Enabled(k: Kernel, e: Event) {
    && Sized(k)
    && match e
       case DoSpawn(depth) => depth < STACK_SIZE && k.tasks[k.current].status != Exited
       case DoTick(now, locks) => CanSchedule(k, now, locks)
       case DoSleep(ticks, now) => IsRunning(k) && CanSchedule(SleepCurrent(k, ticks, now), now, [])
       case DoBlock(n, now) => IsRunning(k) && CanSchedule(Push(k, k.current, BlockQ(n), Blocked), now, [])
       case DoUnblockOne(n) => IsRunning(k) && Q(k, BlockQ(n)) != [] && Q(k, BlockQ(n))[0] < |k.tasks|
       case DoUnblockAll(_) => IsRunning(k)
       case DoWaitpid(pid, now) => IsRunning(k) && (WaitBlocks(k, pid) ==> CanSchedule(WaitCurrent(k, pid), now, []))
       case DoKill(pid, _) => IsRunning(k) && pid != 0
       case DoExit(now, locks) => IsRunning(k) && CanSchedule(ExitCurrent(k, locks), now, [])
       case SaveSp(depth) => IsRunning(k) && depth < STACK_SIZE
  }

  function Step(k: Kernel, e: Event): Kernel
    requires Enabled(k, e)
  {
    match e
    case DoSpawn(depth) => (match Spawn(k, depth) case Some(n) => n case None => k)
    case DoTick(now, locks) => Schedule(k, now, locks)
    case DoSleep(ticks, now) => Schedule(SleepCurrent(k, ticks, now), now, [])
    case DoBlock(n, now) => Schedule(Push(k, k.current, BlockQ(n), Blocked), now, [])
    case DoUnblockOne(n) => UnblockOne(k, n)
    case DoUnblockAll(n) => UnblockAll(k, n)
    case DoWaitpid(pid, now) => if WaitBlocks(k, pid) then Schedule(WaitCurrent(k, pid), now, []) else k
    case DoKill(pid, locks) => Kill(k, pid, locks)
    case DoExit(now, locks) => Schedule(ExitCurrent(k, locks), now, [])
    case SaveSp(depth) => SetTask(k, k.current, k.tasks[k.current].(sp := StackAddress(StackSlot(k.tasks[k.current].sp), depth)))
  }
}
