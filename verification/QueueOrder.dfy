/**
 In which order tasks stand in the kernel's queues (kernel/sched/sched.c:158-213,
 225-342, 413-433): what each scheduler call, each blocking call and each freed
 process makes of every queue, and what happens to a process that kills itself.
 */
module QueueOrder {
  import opened Wrappers
  import opened Partition
  import opened TaskQueue
  import opened KernelModel
  import opened KernelInvariant
  import opened KernelRuns
  import opened WakeCauses

  /** The sleepers whose deadline is past. */
  function PastSleepers(k: Kernel, now: nat): set<nat> {
    set i | i in Q(k, SleepQ) && i < |k.tasks| && Past(k.tasks[i].sleepUntil, now)
  }

  /** The tasks that wait for a pid. */
  function WaitFor(k: Kernel, pid: nat): set<nat> {
    set i | i in Q(k, WaitQ) && i < |k.tasks| && k.tasks[i].waitpid == pid
  }

  lemma CheckedQueues(k: Kernel, now: nat)
    ensures var n := CheckSleeping(k, now);
            && Q(n, ReadyQ) == Q(k, ReadyQ) + Pick(Q(k, SleepQ), PastSleepers(k, now))
            && Q(n, SleepQ) == Drop(Q(k, SleepQ), PastSleepers(k, now))
            && forall id | id != ReadyQ && id != SleepQ :: Q(n, id) == Q(k, id)
  {
    hide Pick, Drop;
    assert KernelModel.DueSleepers(k, now) == PastSleepers(k, now);
  }

  /** A scheduler call that the running task makes to go on later: due sleepers come before it, in the order they
      went to sleep, and the head of all runs. */
  lemma TickOrder(k: Kernel, now: nat, locks: seq<nat>)
    requires AtRest(k) && IsRunning(k) && CanSchedule(k, now, locks)
    ensures var n := Schedule(k, now, locks);
            && [n.current] + Q(n, ReadyQ) == Q(k, ReadyQ) + Pick(Q(k, SleepQ), PastSleepers(k, now)) + [k.current]
            && Q(n, SleepQ) == Drop(Q(k, SleepQ), PastSleepers(k, now))
            && forall id | id != ReadyQ && id != SleepQ :: Q(n, id) == Q(k, id)
  {
    hide Inv, StacksOk, CheckSleeping, Pick, Drop;
    InvSized(k, -1);
    CurrentLive(k);
    CheckedQueues(k, now);
    CheckedQueued(k, now, k.current);
    ScheduleInv(k, now, locks);
  }

  /** A scheduler call by a task that has just gone to sleep, blocked or been freed. */
  lemma YieldOrder(k: Kernel, now: nat, locks: seq<nat>)
    requires Inv(k, -1) && StacksOk(k) && CanSchedule(k, now, locks)
    requires k.tasks[k.current].status != Running && k.tasks[k.current].status != Exited
    ensures var n := Schedule(k, now, locks);
            && [n.current] + Q(n, ReadyQ) == Q(k, ReadyQ) + Pick(Q(k, SleepQ), PastSleepers(k, now))
            && Q(n, SleepQ) == Drop(Q(k, SleepQ), PastSleepers(k, now))
            && forall id | id != ReadyQ && id != SleepQ :: Q(n, id) == Q(k, id)
  {
    hide Inv, StacksOk, CheckSleeping, Pick, Drop;
    InvSized(k, -1);
    CheckedQueues(k, now);
    CheckedQueued(k, now, k.current);
    CheckedActive(k, now);
    ScheduleInv(k, now, locks);
  }

  lemma CheckedActive(k: Kernel, now: nat)
    requires Inv(k, -1) && k.tasks[k.current].status != Running && k.tasks[k.current].status != Exited
    ensures var c := CheckSleeping(k, now).tasks; k.current < |c| && c[k.current].status != Running && c[k.current].status != Exited
  {
    hide Inv;
    InvSized(k, -1);
    SleepersWake(k, now, k.current);
  }

  lemma YieldIs(k: Kernel, now: nat, locks: seq<nat>)
    requires Inv(k, -1) && k.tasks[k.current].status != Running && k.tasks[k.current].status != Exited
    ensures Sized(k) && BeforeSwitch(k, now, locks) == CheckSleeping(k, now)
  {
    hide Inv, CheckSleeping;
    InvSized(k, -1);
    CheckedQueued(k, now, k.current);
    CheckedActive(k, now);
  }

  /** The caller's record after a blocking call: made ready again at once, or as it was left. */
  lemma YieldRecord(k: Kernel, now: nat, locks: seq<nat>)
    requires Inv(k, -1) && StacksOk(k) && CanSchedule(k, now, locks)
    requires Queued(k.tasks[k.current]) && k.tasks[k.current].status != Ready
    ensures var n, t := Schedule(k, now, locks), k.tasks[k.current];
            if t.status == Sleeping && Past(t.sleepUntil, now) then Woken(k, n, k.current) else Same(k, n, k.current)
  {
    hide Inv, StacksOk, CheckSleeping, BeforeSwitch, Switch, Past;
    InvSized(k, -1);
    OneQueue(k, k.current, -1);
    NotReady(k, k.current);
    SleepersWake(k, now, k.current);
    YieldIs(k, now, locks);
    var m := CheckSleeping(k, now);
    CheckSleepingInv(k, now);
    HeadReady(m);
    SwitchOther(m, k.current);
  }

  // ----- the blocking calls -----

  /** do_sleep: the caller's deadline is the reading plus the ticks modulo 2^32, and it is the last of the sleepers,
      or ready again at once if that is past. */
  lemma SleepCall(k: Kernel, ticks: nat, now: nat)
    requires AtRest(k) && Enabled(k, DoSleep(ticks, now))
    ensures var n, c, until := Step(k, DoSleep(ticks, now)), k.current, (now + ticks) % 0x1_0000_0000;
            && c < |n.tasks| && n.tasks[c].sleepUntil == until && n.tasks[c].pid == k.tasks[c].pid
            && (if Past(until, now) then n.current == c || n.tasks[c].status == Ready
                else n.tasks[c].status == Sleeping && Q(n, SleepQ) != [] && Q(n, SleepQ)[|Q(n, SleepQ)| - 1] == c)
  {
    hide Inv, StacksOk, Schedule, CanSchedule, Past, Drop;
    SleepInv(k, ticks, now);
    var m := SleepCurrent(k, ticks, now);
    assert m.tasks[m.current].status == Sleeping && Q(m, SleepQ) == Q(k, SleepQ) + [k.current];
    YieldRecord(m, now, []);
    YieldOrder(m, now, []);
    if !Past(m.tasks[m.current].sleepUntil, now) {
      DropLast(Q(m, SleepQ), PastSleepers(m, now));
    }
  }

  lemma DropLast(s: seq<nat>, d: set<nat>)
    requires s != [] && s[|s| - 1] !in d
    ensures Drop(s, d) != [] && Drop(s, d)[|Drop(s, d)| - 1] == s[|s| - 1]
  {
  }

  /** do_block: the caller is the last in the queue it names, and nobody in that queue has moved. */
  lemma BlockCall(k: Kernel, b: nat, now: nat)
    requires AtRest(k) && Enabled(k, DoBlock(b, now))
    ensures var n, c := Step(k, DoBlock(b, now)), k.current;
            && c < |n.tasks| && n.tasks[c] == k.tasks[c].(status := Blocked, inQueue := Some(BlockQ(b)))
            && Q(n, BlockQ(b)) == Q(k, BlockQ(b)) + [c]
            && forall id | id != ReadyQ && id != SleepQ && id != BlockQ(b) :: Q(n, id) == Q(k, id)
  {
    hide Inv, StacksOk, Schedule, CanSchedule, Past, Pick, Drop;
    DoBlockInv(k, b);
    var m := Push(k, k.current, BlockQ(b), Blocked);
    YieldRecord(m, now, []);
    YieldOrder(m, now, []);
  }

  /** do_waitpid: with a PCB of that pid the caller waits for it, the last of those that wait; else it returns at once. */
  lemma WaitCall(k: Kernel, pid: nat, now: nat)
    requires AtRest(k) && Enabled(k, DoWaitpid(pid, now))
    ensures var n, c := Step(k, DoWaitpid(pid, now)), k.current;
            if HasPid(k, pid) then
              && c < |n.tasks| && n.tasks[c] == k.tasks[c].(status := Blocked, inQueue := Some(WaitQ), waitpid := pid)
              && Q(n, WaitQ) == Q(k, WaitQ) + [c] && forall id: QueueId | id.BlockQ? :: Q(n, id) == Q(k, id)
            else n == k
  {
    hide Inv, StacksOk, Schedule, CanSchedule, Past, Pick, Drop;
    if WaitBlocks(k, pid) {
      assert HasPid(k, pid);
      WaitInv(k, pid);
      var m := WaitCurrent(k, pid);
      YieldRecord(m, now, []);
      YieldOrder(m, now, []);
    }
  }

  // ----- freeing a process -----

  /** Who is passed on when the locks are released: for each, the first waiter that those before have left in its
      queue. */
  function Heads(k: Kernel, locks: seq<nat>): seq<nat> {
    if locks == [] then []
    else
      var rest: seq<nat>, b: nat := locks[..|locks| - 1], locks[|locks| - 1];
      var c := multiset(rest)[b];
      Heads(k, rest) + if c < |Q(k, BlockQ(b))| then [Q(k, BlockQ(b))[c]] else []
  }

  /** What is left of a queue when its lock is released `c` times. */
  function Behind(q: seq<nat>, c: nat): seq<nat> {
    if c < |q| then q[c..] else []
  }

  lemma BehindOne(q: seq<nat>, c: nat)
    ensures Behind(q, 0) == q
    ensures Behind(q, c + 1) == if Behind(q, c) == [] then [] else Behind(q, c)[1..]
    ensures Behind(q, c) != [] <==> c < |q|
    ensures c < |q| ==> Behind(q, c)[0] == q[c]
  {
  }

  lemma {:induction false} HeadsSame(k: Kernel, n: Kernel, locks: seq<nat>)
    requires forall b | b in locks :: Q(n, BlockQ(b)) == Q(k, BlockQ(b))
    ensures Heads(n, locks) == Heads(k, locks)
  {
    if locks == [] {
    } else {
      var rest: seq<nat> := locks[..|locks| - 1];
      assert forall b | b in rest :: b in locks;
      HeadsSame(k, n, rest);
      assert locks[|locks| - 1] in locks;
    }
  }

  lemma UnblockQueuesAre(k: Kernel, b: nat)
    requires Q(k, BlockQ(b)) != [] && Q(k, BlockQ(b))[0] < |k.tasks|
    ensures var n, q := UnblockOne(k, b), Q(k, BlockQ(b));
            && Q(n, ReadyQ) == Q(k, ReadyQ) + [q[0]] && Q(n, BlockQ(b)) == q[1..]
            && (forall id | id != ReadyQ && id != BlockQ(b) :: Q(n, id) == Q(k, id))
            && |n.tasks| == |k.tasks| && (forall x | 0 <= x < |k.tasks| :: n.tasks[x].waitpid == k.tasks[x].waitpid)
  {
  }

  /** The state in which the rest of the locks is released. */
  function Passed(k: Kernel, b: nat): Kernel {
    if Q(k, BlockQ(b)) != [] && Q(k, BlockQ(b))[0] < |k.tasks| then UnblockOne(k, b) else k
  }

  lemma PassedIs(k: Kernel, b: nat, limbo: int)
    requires Inv(k, limbo)
    ensures var n, q := Passed(k, b), Q(k, BlockQ(b));
            && Inv(n, limbo) && Q(n, ReadyQ) == Q(k, ReadyQ) + (if q == [] then [] else [q[0]]) && Q(n, BlockQ(b)) == (if q == [] then [] else q[1..])
            && (forall id | id != ReadyQ && id != BlockQ(b) :: Q(n, id) == Q(k, id))
            && SameWaits(k, n)
  {
    hide Inv, UnblockOne;
    if Q(k, BlockQ(b)) != [] {
      UnblockInv(k, b, limbo);
      InvSized(k, limbo);
      UnblockQueuesAre(k, b);
    }
  }

  ghost predicate SameWaits(k: Kernel, n: Kernel) {
    |n.tasks| == |k.tasks| && forall x | 0 <= x < |k.tasks| :: n.tasks[x].waitpid == k.tasks[x].waitpid
  }

  lemma ReleaseNone(k: Kernel)
    ensures ReleaseLocks(k, []) == k
  {
  }

  lemma ReleaseIs(k: Kernel, locks: seq<nat>)
    requires locks != []
    ensures ReleaseLocks(k, locks) == ReleaseLocks(Passed(k, locks[0]), locks[1..])
  {
    hide UnblockOne;
  }

  lemma {:induction false} ReleaseLast(k: Kernel, locks: seq<nat>)
    requires locks != []
    ensures ReleaseLocks(k, locks) == Passed(ReleaseLocks(k, locks[..|locks| - 1]), locks[|locks| - 1])
    decreases |locks|
  {
    hide Passed, ReleaseLocks;
    ReleaseIs(k, locks);
    if |locks| == 1 {
      assert locks[1..] == [] == locks[..0];
      ReleaseNone(k);
      ReleaseNone(Passed(k, locks[0]));
    } else {
      var rest: seq<nat> := locks[..|locks| - 1];
      ReleaseLast(Passed(k, locks[0]), locks[1..]);
      ReleaseIs(k, rest);
      assert rest[1..] == locks[1..][..|locks| - 2];
    }
  }

  lemma CountLast(locks: seq<nat>, b: nat)
    requires locks != []
    ensures multiset(locks)[b] == multiset(locks[..|locks| - 1])[b] + if b == locks[|locks| - 1] then 1 else 0
  {
    assert locks == locks[..|locks| - 1] + [locks[|locks| - 1]];
  }

  /** Each time it is released a lock passes on its first waiter. */
  lemma {:induction false} ReleaseBlocked(k: Kernel, locks: seq<nat>, limbo: int, b: nat)
    requires Inv(k, limbo)
    ensures Inv(ReleaseLocks(k, locks), limbo) && Q(ReleaseLocks(k, locks), BlockQ(b)) == Behind(Q(k, BlockQ(b)), multiset(locks)[b])
  {
    hide Inv, Passed, ReleaseLocks, Behind, Q;
    BehindOne(Q(k, BlockQ(b)), 0);
    if locks == [] {
      ReleaseNone(k);
    } else {
      var rest: seq<nat> := locks[..|locks| - 1];
      ReleaseLast(k, locks);
      CountLast(locks, b);
      ReleaseBlocked(k, rest, limbo, b);
      PassedIs(ReleaseLocks(k, rest), locks[|locks| - 1], limbo);
      BehindOne(Q(k, BlockQ(b)), multiset(rest)[b]);
    }
  }

  /** They join the ready queue in the order of the locks. */
  lemma {:induction false} ReleaseOrder(k: Kernel, locks: seq<nat>, limbo: int)
    requires Inv(k, limbo)
    ensures Q(ReleaseLocks(k, locks), ReadyQ) == Q(k, ReadyQ) + Heads(k, locks)
  {
    hide Inv, Passed, ReleaseLocks, SameWaits, Behind, Q;
    if locks == [] {
      ReleaseNone(k);
    } else {
      var rest: seq<nat>, b: nat := locks[..|locks| - 1], locks[|locks| - 1];
      ReleaseLast(k, locks);
      ReleaseOrder(k, rest, limbo);
      ReleaseBlocked(k, rest, limbo, b);
      PassedIs(ReleaseLocks(k, rest), b, limbo);
      BehindOne(Q(k, BlockQ(b)), multiset(rest)[b]);
    }
  }

  /** It touches neither sleepers nor waiters for a pid. */
  lemma {:induction false} ReleaseFrame(k: Kernel, locks: seq<nat>, limbo: int)
    requires Inv(k, limbo)
    ensures var n := ReleaseLocks(k, locks); Q(n, SleepQ) == Q(k, SleepQ) && Q(n, WaitQ) == Q(k, WaitQ) && SameWaits(k, n)
    decreases |locks|
  {
    hide Inv, Passed;
    if locks == [] {
    } else {
      PassedIs(k, locks[0], limbo);
      ReleaseIs(k, locks);
      ReleaseFrame(Passed(k, locks[0]), locks[1..], limbo);
    }
  }

  /** What freeing a process makes of the queues. */
  ghost predicate FreedQueues(k: Kernel, n: Kernel, pid: nat, locks: seq<nat>) {
    && Q(n, ReadyQ) == Q(k, ReadyQ) + Heads(k, locks) + Pick(Q(k, WaitQ), WaitFor(k, pid))
    && Q(n, WaitQ) == Drop(Q(k, WaitQ), WaitFor(k, pid)) && Q(n, SleepQ) == Q(k, SleepQ)
    && (forall b: nat :: Q(n, BlockQ(b)) == Behind(Q(k, BlockQ(b)), multiset(locks)[b]))
  }

  lemma SameWaitFor(k: Kernel, n: Kernel, pid: nat)
    requires SameWaits(k, n) && Q(n, WaitQ) == Q(k, WaitQ)
    ensures WaitFor(n, pid) == WaitFor(k, pid) && Waiters(n, pid) == WaitFor(k, pid)
  {
  }

  /** free_proc readies the first waiters of the locks and then those that wait for the pid, in order, and leaves the
      others in order. */
  lemma FreeOrder(k: Kernel, i: nat, locks: seq<nat>, limbo: int)
    requires Inv(k, limbo) && i < NUM_MAX_TASK
    ensures Sized(k) && FreedQueues(k, FreeProc(k, i, locks), k.tasks[i].pid, locks)
  {
    hide Inv, ReleaseLocks, Pick, Drop, Heads, Waiters, WaitFor, Behind;
    InvSized(k, limbo);
    var k0 := FreeStack(k, i);
    FreeStackInv(k, i, limbo);
    ReleaseKeepsSize(k0, locks);
    ReleaseOrder(k0, locks, limbo);
    ReleaseFrame(k0, locks, limbo);
    HeadsSame(k, k0, locks);
    SameWaitFor(k, ReleaseLocks(k0, locks), k.tasks[i].pid);
    forall b: nat
      ensures Q(ReleaseLocks(k0, locks), BlockQ(b)) == Behind(Q(k, BlockQ(b)), multiset(locks)[b])
    {
      ReleaseBlocked(k0, locks, limbo, b);
    }
  }

  lemma {:induction false} DropNone(s: seq<nat>, d: set<nat>)
    requires forall x | x in s :: x !in d
    ensures Drop(s, d) == s
  {
    if s == [] {
    } else {
      DropNone(s[..|s| - 1], d);
      assert s == s[..|s| - 1] + [s[|s| - 1]];
    }
  }

  lemma {:induction false} DropTwice(s: seq<nat>, a: set<nat>, b: set<nat>)
    ensures Drop(Drop(s, a), b) == Drop(s, a + b)
  {
    if s == [] {
    } else {
      var r, x := s[..|s| - 1], s[|s| - 1];
      DropTwice(r, a, b);
      if x in a {
        assert Drop(s, a) == Drop(r, a) && Drop(s, a + b) == Drop(r, a + b);
      } else {
        assert (Drop(r, a) + [x])[..|Drop(r, a)|] == Drop(r, a);
      }
    }
  }

  /** Which of two sets is dropped does not matter where they agree. */
  lemma {:induction false} DropMore(s: seq<nat>, a: set<nat>, b: set<nat>)
    requires forall x | x in s :: x in a <==> x in b
    ensures Drop(s, a) == Drop(s, b)
  {
    if s == [] {
    } else {
      assert forall x | x in s[..|s| - 1] :: x in s;
      DropMore(s[..|s| - 1], a, b);
    }
  }

  lemma QueuedOther(k: Kernel, i: nat)
    requires AtRest(k) && IsRunning(k) && i < NUM_MAX_TASK && i != k.current && k.tasks[i].pid != 0
    ensures Queued(k.tasks[i])
  {
    hide QueueOk, PidsDistinct, StacksOk;
    assert TaskOk(k, i, -1);
  }

  /** A queued task marked EXITED and taken out of its queue. */
  function Removed(k: Kernel, i: nat): Kernel
    requires i < |k.tasks| && k.tasks[i].inQueue.Some?
  {
    Remove(SetTask(k, i, k.tasks[i].(status := Exited)), i, k.tasks[i].inQueue.value)
  }

  lemma RemovedQueues(k: Kernel, i: nat)
    requires Inv(k, -1) && i < NUM_MAX_TASK && Queued(k.tasks[i])
    ensures k.tasks[i].inQueue.Some? && forall id :: Q(Removed(k, i), id) == Drop(Q(k, id), {i})
  {
    hide Inv, Drop;
    InvSized(k, -1);
    OneQueue(k, i, -1);
    forall id
      ensures Q(Removed(k, i), id) == Drop(Q(k, id), {i})
    {
      if id != k.tasks[i].inQueue.value {
        assert !InQueue(k, i, id);
        DropNone(Q(k, id), {i});
      }
    }
  }

  lemma RemovedWaiters(k: Kernel, i: nat, pid: nat)
    requires i < |k.tasks| && k.tasks[i].inQueue.Some? && Q(Removed(k, i), WaitQ) == Drop(Q(k, WaitQ), {i})
    ensures Drop(Q(Removed(k, i), WaitQ), WaitFor(Removed(k, i), pid)) == Drop(Q(k, WaitQ), {i} + WaitFor(k, pid))
  {
    hide Drop;
    var m := Removed(k, i);
    PickDropMembers(Q(k, WaitQ), {i});
    DropTwice(Q(k, WaitQ), {i}, WaitFor(m, pid));
    DropMore(Q(k, WaitQ), {i} + WaitFor(m, pid), {i} + WaitFor(k, pid));
  }

  lemma KillIs(k: Kernel, pid: nat, locks: seq<nat>, i: nat)
    requires AtRest(k) && IsRunning(k) && pid != 0 && i < NUM_MAX_TASK && i != k.current && k.tasks[i].pid == pid
    ensures Queued(k.tasks[i]) && k.tasks[i].inQueue.Some? && i in Q(k, k.tasks[i].inQueue.value)
    ensures Kill(k, pid, locks) == FreeProc(Removed(k, i), i, locks)
  {
    hide Inv, StacksOk, FreeProc;
    InvSized(k, -1);
    var j := FindPid(k, pid, 0).value;
    OnlyHolder(k, j);
    QueuedOther(k, i);
    OneQueue(k, i, -1);
    assert InQueue(k, i, k.tasks[i].inQueue.value);
  }

  /** do_kill of another task takes it out of its queue, where nobody else moves, and frees it. */
  lemma KillOrder(k: Kernel, pid: nat, locks: seq<nat>, i: nat)
    requires AtRest(k) && IsRunning(k) && pid != 0 && i < NUM_MAX_TASK && i != k.current && k.tasks[i].pid == pid
    ensures var n := Kill(k, pid, locks);
            && i < |n.tasks| && n.tasks[i].status == NoTask && n.tasks[i].pid == 0 && n.current == k.current
            && Q(n, SleepQ) == Drop(Q(k, SleepQ), {i}) && Q(n, WaitQ) == Drop(Q(k, WaitQ), {i} + WaitFor(k, pid))
            && Drop(Q(k, ReadyQ), {i}) <= Q(n, ReadyQ)
  {
    hide Inv, StacksOk, FreeProc, Pick, Drop, Heads, Kill;
    KillIs(k, pid, locks, i);
    RemoveInv(k, i, k.tasks[i].inQueue.value);
    RemovedQueues(k, i);
    RemovedWaiters(k, i, pid);
    FreeOrder(Removed(k, i), i, locks, i);
    FreeProcInv(Removed(k, i), i, locks, i);
    InvSized(Kill(k, pid, locks), -1);
    var m := Removed(k, i);
    assert m.tasks[i].pid == pid && Kill(k, pid, locks) == FreeProc(m, i, locks);
    assert Q(m, ReadyQ) <= Q(m, ReadyQ) + Heads(m, locks) + Pick(Q(m, WaitQ), WaitFor(m, pid));
  }

  // ----- a process that ends -----

  /** The pid is gone from the process table, and its slot is free. */
  predicate Gone(n: Kernel, slot: nat, pid: nat) {
    slot < |n.tasks| && n.tasks[slot].status == NoTask && !HasPid(n, pid)
  }

  lemma FreedGone(k: Kernel, locks: seq<nat>)
    requires Inv(k, -1) && k.tasks[k.current].status == Exited
    ensures Gone(FreeProc(k, k.current, locks), k.current, k.tasks[k.current].pid)
  {
    hide QueueOk, PidsDistinct, FreeProc, FreeStack;
    assert TaskOk(k, k.current, -1);
    FreeProcInv(k, k.current, locks, -1);
    OnlyHolder(k, k.current);
  }

  lemma DispatchGone(k: Kernel, slot: nat, pid: nat)
    requires Inv(k, -1) && Q(k, ReadyQ) != [] && Gone(k, slot, pid)
    ensures Q(k, ReadyQ)[0] < |k.tasks| && Gone(Switch(k), slot, pid)
  {
    hide Inv;
    InvSized(k, -1);
    HeadReady(k);
    SamePids(k, Switch(k));
  }

  /** The first scheduler call after a process was killed while it ran frees it. */
  lemma ExitedGone(k: Kernel, now: nat, locks: seq<nat>)
    requires Inv(k, -1) && StacksOk(k) && CanSchedule(k, now, locks) && k.tasks[k.current].status == Exited
    ensures Gone(Schedule(k, now, locks), k.current, k.tasks[k.current].pid)
  {
    hide Inv, StacksOk, CheckSleeping, FreeProc, Gone;
    InvSized(k, -1);
    CheckedQueued(k, now, k.current);
    var k1 := CheckSleeping(k, now);
    FreedGone(k1, locks);
    BeforeSwitchInv(k, now, locks);
    DispatchGone(BeforeSwitch(k, now, locks), k.current, k.tasks[k.current].pid);
  }

  /** A process that kills itself is marked EXITED and runs on, nothing else changes, and the next scheduler call
      frees it. */
  lemma KillSelf(k: Kernel, locks: seq<nat>, now: nat, locks2: seq<nat>)
    requires AtRest(k) && IsRunning(k)
    ensures var pid, c := k.tasks[k.current].pid, k.current;
            var n := Kill(k, pid, locks);
            && pid != 0 && n == k.(tasks := k.tasks[c := k.tasks[c].(status := Exited)])
            && (Enabled(n, DoTick(now, locks2)) ==> Gone(Step(n, DoTick(now, locks2)), c, pid))
  {
    hide Inv, StacksOk, FreeProc, Schedule, CanSchedule, Gone;
    InvSized(k, -1);
    CurrentLive(k);
    var c := k.current;
    OnlyHolder(k, c);
    assert FindPid(k, k.tasks[c].pid, 0) == Some(c);
    MarkExited(k);
    var n := Kill(k, k.tasks[c].pid, locks);
    if CanSchedule(n, now, locks2) {
      ExitedGone(n, now, locks2);
    }
  }

  /** do_exit frees the caller before it calls the scheduler. */
  lemma ExitGone(k: Kernel, now: nat, locks: seq<nat>)
    requires AtRest(k) && Enabled(k, DoExit(now, locks))
    ensures Gone(Step(k, DoExit(now, locks)), k.current, k.tasks[k.current].pid)
  {
    hide Inv, StacksOk, CheckSleeping, FreeProc, Gone;
    InvSized(k, -1);
    MarkExited(k);
    var m := SetTask(k, k.current, k.tasks[k.current].(status := Exited));
    FreedGone(m, locks);
    FreedCurrent(m, locks);
    ExitInv(k, locks);
    var n := ExitCurrent(k, locks);
    YieldIs(n, now, []);
    CheckedGone(n, now, k.current, k.tasks[k.current].pid);
    CheckSleepingInv(n, now);
    DispatchGone(CheckSleeping(n, now), k.current, k.tasks[k.current].pid);
  }

  lemma CheckedGone(k: Kernel, now: nat, slot: nat, pid: nat)
    requires Inv(k, -1) && Gone(k, slot, pid)
    ensures Gone(CheckSleeping(k, now), slot, pid)
  {
    hide Inv, CheckSleeping;
    InvSized(k, -1);
    CheckSleepingInv(k, now);
    SamePids(k, CheckSleeping(k, now));
  }

  // ----- waiting for a process, over runs -----

  /** A pid that an event frees is gone afterwards. */
  lemma FreedPidGone(k: Kernel, e: Event)
    requires AtRest(k) && Enabled(k, e) && Freed(k, e).Some? && (e.DoKill? ==> e.pid != 0)
    ensures !HasPid(Step(k, e), Freed(k, e).value)
  {
    hide Inv, StacksOk, Schedule, CanSchedule, FreeProc, Kill;
    match e
    case DoKill(pid, locks) =>
      KillInv(k, pid, locks);
      KilledOther(k, pid);
    case DoExit(now, locks) => ExitGone(k, now, locks);
    case DoTick(now, locks) => ExitedGone(k, now, locks);
    case _ =>
  }

  lemma KilledOther(k: Kernel, pid: nat)
    requires AtRest(k) && IsRunning(k) && pid != 0 && OtherHas(k, pid)
    ensures FindPid(k, pid, 0).Some? && k.tasks[FindPid(k, pid, 0).value].status != Running
  {
    hide QueueOk, StacksOk;
    var i :| 0 <= i < |k.tasks| && i != k.current && k.tasks[i].pid == pid;
    var r := FindPid(k, pid, 0);
    assert TaskOk(k, r.value, -1);
    OnlyHolder(k, i);
  }

  /** Some PCB has the pid after every event of the run. */
  predicate PidStays(k: Kernel, es: seq<Event>, pid: nat)
    requires RunEnabled(k, es)
    decreases |es|
  {
    HasPid(k, pid) && (es == [] || PidStays(Step(k, es[0]), es[1..], pid))
  }

  predicate WaitsFor(k: Kernel, x: nat, pid: nat) {
    x < |k.tasks| && k.tasks[x].status == Blocked && k.tasks[x].inQueue == Some(WaitQ) && k.tasks[x].waitpid == pid
  }

  lemma WaiterStep(k: Kernel, e: Event, x: nat, pid: nat)
    requires AtRest(k) && Enabled(k, e) && x < NUM_MAX_TASK && WaitsFor(k, x, pid) && !KillsPid(e, k.tasks[x].pid)
    ensures if Freed(k, e) == Some(pid) then Woken(k, Step(k, e), x) && !HasPid(Step(k, e), pid) else Same(k, Step(k, e), x)
  {
    hide Inv, StacksOk, Step, Freed;
    NotCurrent(k, x);
    WokenExactly(k, e, x);
    if Freed(k, e) == Some(pid) {
      FreedPidGone(k, e);
    }
  }

  lemma NotCurrent(k: Kernel, x: nat)
    requires AtRest(k) && x < |k.tasks| && k.tasks[x].status == Blocked
    ensures x != k.current && Sized(k)
  {
    hide Inv, StacksOk;
    InvSized(k, -1);
  }

  /** A task in waitpid that nobody kills waits for as long as some PCB has the pid, its record unchanged; with
      EveryRun, where nobody waits for a pid that is gone, that is exactly how long. */
  lemma {:induction false} WaitsAsLong(k: Kernel, es: seq<Event>, x: nat, pid: nat)
    requires AtRest(k) && RunEnabled(k, es) && Spared(k, es, x) && x < NUM_MAX_TASK && WaitsFor(k, x, pid) && PidStays(k, es, pid)
    ensures Same(k, Run(k, es), x)
    decreases |es|
  {
    hide Step, Enabled, AtRest, HasPid;
    if es == [] {
      InRange(k, x);
    } else {
      var n := Step(k, es[0]);
      WaiterStep(k, es[0], x, pid);
      StepInv(k, es[0]);
      assert HasPid(n, pid);
      WaitsAsLong(n, es[1..], x, pid);
    }
  }

  lemma InRange(k: Kernel, x: nat)
    requires AtRest(k) && x < NUM_MAX_TASK
    ensures x < |k.tasks|
  {
    hide StacksOk;
  }

  /** What do_spawn takes, and what it leaves alone: every other task, stack slot and queue. */
  lemma SpawnFrame(k: Kernel, depth: nat)
    requires AtRest(k) && depth < STACK_SIZE && Spawn(k, depth).Some?
    ensures var n, i, s := Spawn(k, depth).value, FreeSlot(k, 1), FreeStackSlot(k, 1);
            && i.Some? && 1 <= i.value && (forall x | 0 <= x < NUM_MAX_TASK && x != i.value :: Same(k, n, x))
            && (forall j | 1 <= j < i.value :: k.tasks[j].status != NoTask)
            && s.Some? && 1 <= s.value < NUM_MAX_TASK && !k.stackUsed[s.value] && (forall j | 1 <= j < s.value :: k.stackUsed[j])
            && n.stackUsed == k.stackUsed[s.value := true]
            && forall id | id != ReadyQ :: Q(n, id) == Q(k, id)
  {
    hide Inv, StacksOk, StackAddress, FreeSlot, FreeStackSlot;
    InvSized(k, -1);
    var n, i := Spawn(k, depth).value, FreeSlot(k, 1).value;
    assert forall x | 0 <= x < NUM_MAX_TASK && x != i :: Same(k, n, x);
    assert forall id | id != ReadyQ :: Q(n, id) == Q(k, id);
  }

  /** A switch saves a stack pointer `depth` bytes into the caller's own stack slot, and changes nothing else. */
  lemma SaveCall(k: Kernel, depth: nat)
    requires AtRest(k) && Enabled(k, SaveSp(depth))
    ensures var n, c := Step(k, SaveSp(depth)), k.current;
            && c < |n.tasks| && n == k.(tasks := k.tasks[c := k.tasks[c].(sp := n.tasks[c].sp)])
            && n.tasks[c].sp <= STACK_TOP && (STACK_TOP - n.tasks[c].sp) % STACK_SIZE == depth
            && StackSlot(n.tasks[c].sp) == StackSlot(k.tasks[c].sp)
  {
    hide Inv;
    InvSized(k, -1);
    CurrentLive(k);
  }
}
