/**
 kernel/sched/sched.c in its own form: pcb_list and kernel_stack_used are
 arrays written in place, with the source's loops. Each method is proved to
 be the step of KernelModel whose runs KernelRuns is about.
 */
module Scheduler {
  import opened Wrappers
  import opened Partition
  import opened TaskQueue
  import opened KernelModel
  import KernelRuns

  /** The queues exist and hold PCB slots. */
  ghost predicate Queues(k: Kernel) {
    && Sized(k) && ReadyQ in k.queues && SleepQ in k.queues && WaitQ in k.queues
    && forall id :: Slots(Q(k, id))
  }

  predicate Slots(q: seq<nat>) {
    forall j | 0 <= j < |q| :: q[j] < NUM_MAX_TASK
  }

  lemma PushQueues(k: Kernel, i: nat, id: QueueId, st: Status)
    requires Queues(k) && i < NUM_MAX_TASK
    ensures Queues(Push(k, i, id, st))
  {
    var n := Push(k, i, id, st);
    forall d
      ensures Slots(Q(n, d))
    {
      assert Slots(Q(k, d));
    }
  }

  lemma WakeQueues(k: Kernel, from: QueueId, due: set<nat>)
    requires Queues(k) && from != ReadyQ
    ensures Queues(Wake(k, from, due))
  {
    var q, n := Q(k, from), Wake(k, from, due);
    assert Slots(q);
    SlotsSplit(q, due);
    forall d
      ensures Slots(Q(n, d))
    {
      assert Slots(Q(k, d)) && Slots(Q(k, ReadyQ));
    }
  }

  lemma {:induction false} SlotsSplit(q: seq<nat>, due: set<nat>)
    requires Slots(q)
    ensures Slots(Pick(q, due)) && Slots(Drop(q, due))
  {
    if q == [] {
    } else {
      SlotsSplit(q[..|q| - 1], due);
    }
  }

  lemma UnblockQueues(k: Kernel, n: nat)
    requires Queues(k) && Q(k, BlockQ(n)) != []
    ensures Q(k, BlockQ(n))[0] < |k.tasks| && Queues(UnblockOne(k, n))
  {
    assert Slots(Q(k, BlockQ(n)));
    forall d
      ensures Slots(Q(UnblockOne(k, n), d))
    {
      assert Slots(Q(k, d));
    }
  }

  lemma {:induction false} ReleaseQueues(k: Kernel, locks: seq<nat>)
    requires Queues(k)
    ensures Queues(ReleaseLocks(k, locks))
    decreases |locks|
  {
    if locks == [] {
    } else if Q(k, BlockQ(locks[0])) != [] {
      UnblockQueues(k, locks[0]);
      ReleaseQueues(UnblockOne(k, locks[0]), locks[1..]);
    } else {
      ReleaseQueues(k, locks[1..]);
    }
  }

  lemma FreeProcQueues(k: Kernel, i: nat, locks: seq<nat>)
    requires Queues(k) && i < NUM_MAX_TASK
    ensures Queues(FreeStack(k, i)) && Queues(FreeProc(k, i, locks))
  {
    hide Wake, ReleaseLocks;
    var k0 := FreeStack(k, i);
    assert forall d :: Q(k0, d) == Q(k, d);
    var k1 := ReleaseLocks(k0, locks);
    ReleaseQueues(k0, locks);
    WakeQueues(k1, WaitQ, Waiters(k1, k.tasks[i].pid));
    var k2 := Wake(k1, WaitQ, Waiters(k1, k.tasks[i].pid));
    assert forall d :: Q(FreePcb(k2, i), d) == Q(k2, d);
  }

  // ----- the wake loops -----

  /** What a wake loop has done after `i` visits of a queue that was `was`. */
  function Woken(k: Kernel, from: QueueId, due: set<nat>, i: nat): Kernel
    requires from != ReadyQ && i <= |Q(k, from)|
  {
    var was := Q(k, from);
    k.(tasks := Marked(k.tasks, was[..i], due),
       queues := k.queues[ReadyQ := Q(k, ReadyQ) + Pick(was[..i], due)][from := Drop(was[..i], due) + was[i..]])
  }

  function Marked(tasks: seq<Task>, seen: seq<nat>, due: set<nat>): (r: seq<Task>)
    ensures |r| == |tasks|
  {
    seq(|tasks|, i requires 0 <= i < |tasks| =>
      if i in seen && i in due then tasks[i].(status := Ready, inQueue := Some(ReadyQ)) else tasks[i])
  }

  lemma WokenStarts(k: Kernel, from: QueueId, due: set<nat>)
    requires Queues(k) && from in k.queues && from != ReadyQ
    ensures Woken(k, from, due, 0) == k
  {
    assert Marked(k.tasks, [], due) == k.tasks;
    assert Q(k, ReadyQ) + Pick([], due) == k.queues[ReadyQ] && Drop([], due) + Q(k, from)[0..] == k.queues[from];
    assert k.queues[ReadyQ := k.queues[ReadyQ]][from := k.queues[from]] == k.queues;
  }

  lemma WokenEnds(k: Kernel, from: QueueId, due: set<nat>)
    requires from != ReadyQ && forall i | i in due :: i in Q(k, from)
    ensures Woken(k, from, due, |Q(k, from)|) == Wake(k, from, due)
  {
    var was := Q(k, from);
    assert was[..|was|] == was;
    assert Marked(k.tasks, was, due) == Wake(k, from, due).tasks;
    assert Drop(was, due) + was[|was|..] == Drop(was, due);
  }

  lemma WokenStep(k: Kernel, from: QueueId, due: set<nat>, i: nat)
    requires Queues(k) && from != ReadyQ && i < |Q(k, from)|
    ensures var x, w := Q(k, from)[i], Woken(k, from, due, i);
            && x < |w.tasks| && |Drop(Q(k, from)[..i], due)| < |Q(w, from)|
            && Woken(k, from, due, i + 1) ==
               if x in due then
                 w.(tasks := w.tasks[x := w.tasks[x].(status := Ready, inQueue := Some(ReadyQ))],
                    queues := w.queues[ReadyQ := Q(w, ReadyQ) + [x]][from := CutAt(Q(w, from), |Drop(Q(k, from)[..i], due)|)])
               else w
    ensures |Drop(Q(k, from)[..i + 1], due)| == |Drop(Q(k, from)[..i], due)| + if Q(k, from)[i] in due then 0 else 1
    ensures forall t | 0 <= t < |k.tasks| ::
              Woken(k, from, due, i).tasks[t].sleepUntil == k.tasks[t].sleepUntil && Woken(k, from, due, i).tasks[t].waitpid == k.tasks[t].waitpid
  {
    MarkedKeeps(k.tasks, Q(k, from)[..i], due);
    var was := Q(k, from);
    var x, d := was[i], |Drop(was[..i], due)|;
    assert Slots(was);
    PrefixStep(was, due, i);
    MarkedStep(k.tasks, was, due, i);
    var q := Drop(was[..i], due) + was[i..];
    hide Marked, Pick, Drop, CutAt, Queues, Slots;
    var r := Q(k, ReadyQ) + Pick(was[..i], due);
    assert Q(k, ReadyQ) + Pick(was[..i + 1], due) == r + if x in due then [x] else [];
    assert x !in due ==> r + [] == r;
    MapStep(k.queues, from, r, q, x, d);
  }

  lemma MapStep(m: map<QueueId, seq<nat>>, from: QueueId, r: seq<nat>, q: seq<nat>, x: nat, d: nat)
    requires from != ReadyQ && d < |q|
    ensures m[ReadyQ := r + [x]][from := CutAt(q, d)] == m[ReadyQ := r][from := q][ReadyQ := r + [x]][from := CutAt(q, d)]
  {
  }

  lemma PrefixStep(was: seq<nat>, due: set<nat>, i: nat)
    requires i < |was|
    ensures |Drop(was[..i + 1], due)| == |Drop(was[..i], due)| + if was[i] in due then 0 else 1
    ensures var x, d, q := was[i], Drop(was[..i], due), Drop(was[..i], due) + was[i..];
            && Pick(was[..i + 1], due) == Pick(was[..i], due) + (if x in due then [x] else [])
            && Drop(was[..i + 1], due) + was[i + 1..] == if x in due then CutAt(q, |d|) else q
  {
    hide Drop, Pick;
    LastOf(was, due, i);
    Rejoin(Drop(was[..i], due), was[i], was[i + 1..]);
    assert was[i..] == [was[i]] + was[i + 1..];
  }

  lemma LastOf(was: seq<nat>, due: set<nat>, i: nat)
    requires i < |was|
    ensures Pick(was[..i + 1], due) == Pick(was[..i], due) + (if was[i] in due then [was[i]] else [])
    ensures Drop(was[..i + 1], due) == Drop(was[..i], due) + if was[i] in due then [] else [was[i]]
  {
    var p := was[..i + 1];
    assert p[..|p| - 1] == was[..i] && p[|p| - 1] == was[i];
  }

  lemma Rejoin(d: seq<nat>, x: nat, rest: seq<nat>)
    ensures CutAt(d + ([x] + rest), |d|) == d + [] + rest && d + [x] + rest == d + ([x] + rest)
  {
  }

  lemma MarkedKeeps(tasks: seq<Task>, seen: seq<nat>, due: set<nat>)
    ensures forall t | 0 <= t < |tasks| ::
              Marked(tasks, seen, due)[t].sleepUntil == tasks[t].sleepUntil && Marked(tasks, seen, due)[t].waitpid == tasks[t].waitpid
  {
  }

  lemma MarkedStep(tasks: seq<Task>, was: seq<nat>, due: set<nat>, i: nat)
    requires i < |was| && was[i] < |tasks|
    ensures var x, m := was[i], Marked(tasks, was[..i], due);
            Marked(tasks, was[..i + 1], due) == if x in due then m[x := m[x].(status := Ready, inQueue := Some(ReadyQ))] else m
  {
    assert was[..i + 1] == was[..i] + [was[i]];
  }

  /** A queue without the element at `d`: queue_remove while walking. */
  function CutAt(q: seq<nat>, d: nat): seq<nat>
    requires d < |q|
  {
    q[..d] + q[d + 1..]
  }

  lemma SwitchQueues(k: Kernel)
    requires Queues(k) && Q(k, ReadyQ) != []
    ensures Q(k, ReadyQ)[0] < |k.tasks| && Queues(Switch(k))
  {
    assert Slots(Q(k, ReadyQ));
    forall d
      ensures Slots(Q(Switch(k), d))
    {
      assert Slots(Q(k, d));
    }
  }

  lemma RemoveQueues(k: Kernel, i: nat, id: QueueId)
    requires Queues(k) && i < NUM_MAX_TASK
    ensures Queues(Remove(SetTask(k, i, k.tasks[i].(status := Exited)), i, id))
  {
    SlotsSplit(Q(k, id), {i});
    assert Slots(Q(k, id));
    forall d
      ensures Slots(Q(Remove(SetTask(k, i, k.tasks[i].(status := Exited)), i, id), d))
    {
      assert Slots(Q(k, d));
    }
  }

  lemma UnblockShortens(k: Kernel, n: nat)
    requires Queues(k) && Q(k, BlockQ(n)) != []
    ensures Q(k, BlockQ(n))[0] < |k.tasks| && |Q(UnblockOne(k, n), BlockQ(n))| < |Q(k, BlockQ(n))|
  {
    UnblockQueues(k, n);
  }

  lemma SlotAt(k: Kernel, id: QueueId, v: nat)
    requires Queues(k) && v < |Q(k, id)|
    ensures Q(k, id)[v] < NUM_MAX_TASK
  {
    assert Slots(Q(k, id));
  }

  lemma WakeMarks(k: Kernel, pid: nat)
    ensures var n := Wake(k, WaitQ, Waiters(k, pid));
            && |n.tasks| == |k.tasks|
            && forall x | 0 <= x < |k.tasks| ::
                 n.tasks[x] == if x in Q(k, WaitQ) && k.tasks[x].waitpid == pid then k.tasks[x].(status := Ready, inQueue := Some(ReadyQ)) else k.tasks[x]
  {
  }

  class ProcessTable {
    const pcbList: array<Task>
    const stackUsed: array<bool>
    var current: nat
    var queues: map<QueueId, seq<nat>>
    var nextPid: nat

    ghost function State(): Kernel
      reads this, pcbList, stackUsed
    {
      Kernel(pcbList[..], current, queues, nextPid, stackUsed[..])
    }

    function QueueOf(id: QueueId): (q: seq<nat>)
      reads this
    {
      if id in queues then queues[id] else []
    }

    ghost predicate Ready()
      reads this, pcbList, stackUsed
    {
      Queues(State())
    }

    /** The start: empty queues, the boot PCB running on slot 0's stack. */
    constructor (boot: Task)
      ensures fresh(pcbList) && fresh(stackUsed) && Ready()
      ensures State() == KernelRuns.Boot(seq(NUM_MAX_TASK, _ => boot))
    {
      pcbList := new Task[NUM_MAX_TASK](_ => boot);
      stackUsed := new bool[NUM_MAX_TASK](s => s == 0);
      current, nextPid := 0, 1;
      queues := map[ReadyQ := [], SleepQ := [], WaitQ := []];
      new;
      assert pcbList[..] == seq(NUM_MAX_TASK, _ => boot);
      assert stackUsed[..] == seq(NUM_MAX_TASK, s => s == 0);
    }

    /** new_kernel_stack. */
    method NewKernelStack() returns (r: Option<nat>)
      requires Ready()
      modifies stackUsed
      ensures r == FreeStackSlot(old(State()), 1)
      ensures State() == if r.Some? then old(State()).(stackUsed := old(State()).stackUsed[r.value := true]) else old(State())
    {
      ghost var k := State();
      var i := 1;
      while i < NUM_MAX_TASK
        invariant 1 <= i && State() == k && FreeStackSlot(k, 1) == FreeStackSlot(k, i)
      {
        if !stackUsed[i] {
          stackUsed[i] := true;
          return Some(i);
        }
        i := i + 1;
      }
      return None;
    }

    /** alloc_pcb. */
    method AllocPcb() returns (r: Option<nat>)
      requires Ready()
      ensures r == FreeSlot(State(), 1)
    {
      var i := 1;
      while i < NUM_MAX_TASK
        invariant 1 <= i && FreeSlot(State(), 1) == FreeSlot(State(), i)
      {
        if pcbList[i].status == NoTask { return Some(i); }
        i := i + 1;
      }
      return None;
    }

    /** The search of do_kill and do_waitpid. */
    method SearchPid(pid: nat) returns (r: Option<nat>)
      requires Ready()
      ensures r == FindPid(State(), pid, 0)
    {
      var i := 0;
      while i < NUM_MAX_TASK
        invariant FindPid(State(), pid, 0) == FindPid(State(), pid, i)
      {
        if pcbList[i].pid == pid { return Some(i); }
        i := i + 1;
      }
      return None;
    }

    /** Status, queue and mark of a task that goes to the end of a queue. */
    method QueuePush(i: nat, id: QueueId, st: Status)
      requires Ready() && i < NUM_MAX_TASK
      modifies this`queues, pcbList
      ensures Ready() && State() == Push(old(State()), i, id, st)
    {
      PushQueues(State(), i, id, st);
      queues := queues[id := QueueOf(id) + [i]];
      pcbList[i] := pcbList[i].(status := st, inQueue := Some(id));
    }

    /** One task woken by a walk over queue `from`, where it stands at place `d`. */
    method WakeOne(i: nat, from: QueueId, ghost due: set<nat>, ghost k: Kernel, ghost v: nat, d: nat)
      requires Queues(k) && from != ReadyQ && v < |Q(k, from)| && State() == Woken(k, from, due, v)
      requires i == Q(k, from)[v] && i in due && d == |Drop(Q(k, from)[..v], due)|
      modifies this`queues, pcbList
      ensures State() == Woken(k, from, due, v + 1)
    {
      hide Woken, Queues;
      WokenStep(k, from, due, v);
      queues := queues[ReadyQ := QueueOf(ReadyQ) + [i]][from := CutAt(QueueOf(from), d)];
      pcbList[i] := pcbList[i].(status := TaskQueue.Ready, inQueue := Some(ReadyQ));
    }

    /** check_sleeping. */
    method WakeSleeping(now: nat)
      requires Ready()
      modifies this`queues, pcbList
      ensures Ready() && State() == CheckSleeping(old(State()), now)
    {
      ghost var k, due := State(), KernelModel.DueSleepers(State(), now);
      hide Woken, Slots, Marked, Wake;
      var walk := QueueOf(SleepQ);
      var currentTime := now % UINT32;
      var d, v := 0, 0;
      WokenStarts(k, SleepQ, due);
      WakeQueues(k, SleepQ, due);
      while v < |walk|
        invariant v <= |walk| && State() == Woken(k, SleepQ, due, v) && d == |Drop(walk[..v], due)|
      {
        var i := walk[v];
        SlotAt(k, SleepQ, v);
        WokenStep(k, SleepQ, due, v);
        assert State().tasks[i] == pcbList[i];
        if pcbList[i].sleepUntil < currentTime {
          WakeOne(i, SleepQ, due, k, v, d);
        } else {
          d := d + 1;
        }
        v := v + 1;
      }
      WokenEnds(k, SleepQ, due);
    }

    /** free_proc's loop over waitpid_queue. */
    method WakeWaiting(pid: nat)
      requires Ready()
      modifies this`queues, pcbList
      ensures Ready() && State() == Wake(old(State()), WaitQ, Waiters(old(State()), pid))
      ensures forall x | 0 <= x < NUM_MAX_TASK ::
                pcbList[x] == if x in old(QueueOf(WaitQ)) && old(pcbList[x].waitpid) == pid then old(pcbList[x]).(status := Status.Ready, inQueue := Some(ReadyQ))
                              else old(pcbList[x])
    {
      ghost var k, due := State(), Waiters(State(), pid);
      hide Woken, Slots, Marked, Wake;
      var walk := QueueOf(WaitQ);
      var d, v := 0, 0;
      WokenStarts(k, WaitQ, due);
      WakeQueues(k, WaitQ, due);
      while v < |walk|
        invariant v <= |walk| && State() == Woken(k, WaitQ, due, v) && d == |Drop(walk[..v], due)|
      {
        var i := walk[v];
        SlotAt(k, WaitQ, v);
        WokenStep(k, WaitQ, due, v);
        assert State().tasks[i] == pcbList[i];
        if pcbList[i].waitpid == pid {
          WakeOne(i, WaitQ, due, k, v, d);
        } else {
          d := d + 1;
        }
        v := v + 1;
      }
      WokenEnds(k, WaitQ, due);
      WakeMarks(k, pid);
      assert State().tasks == pcbList[..] && k.tasks == old(pcbList[..]);
    }

    /** do_unblock_one, whose queue must not be empty. */
    method DoUnblockOne(n: nat)
      requires Ready() && QueueOf(BlockQ(n)) != []
      modifies this`queues, pcbList
      ensures Q(old(State()), BlockQ(n))[0] < |old(State()).tasks|
      ensures Ready() && State() == UnblockOne(old(State()), n)
    {
      UnblockQueues(State(), n);
      var item := QueueOf(BlockQ(n))[0];
      queues := queues[BlockQ(n) := QueueOf(BlockQ(n))[1..]];
      pcbList[item] := pcbList[item].(status := TaskQueue.Ready, inQueue := Some(ReadyQ));
      queues := queues[ReadyQ := QueueOf(ReadyQ) + [item]];
    }

    /** do_unblock_all. */
    method DoUnblockAll(n: nat)
      requires Ready()
      modifies this`queues, pcbList
      ensures Ready() && State() == UnblockAll(old(State()), n)
    {
      hide Queues, UnblockOne;
      while QueueOf(BlockQ(n)) != []
        invariant Ready() && UnblockAll(old(State()), n) == UnblockAll(State(), n)
        decreases |QueueOf(BlockQ(n))|
      {
        UnblockQueues(State(), n);
        UnblockShortens(State(), n);
        DoUnblockOne(n);
      }
    }

    /** free_proc's loop over the locks on record: do_mutex_lock_release wakes the first waiter, if any. */
    method ReleaseAll(locks: seq<nat>)
      requires Ready()
      modifies this`queues, pcbList
      ensures Ready() && State() == ReleaseLocks(old(State()), locks)
    {
      hide Queues, UnblockOne;
      var j := 0;
      while j < |locks|
        invariant j <= |locks| && Ready() && ReleaseLocks(old(State()), locks) == ReleaseLocks(State(), locks[j..])
      {
        assert locks[j..][1..] == locks[j + 1..] && locks[j..][0] == locks[j];
        if QueueOf(BlockQ(locks[j])) != [] {
          UnblockQueues(State(), locks[j]);
          DoUnblockOne(locks[j]);
        }
        j := j + 1;
      }
    }

    /** free_kernel_stack: the slot number is computed from the saved stack pointer. */
    method FreeKernelStack(i: nat)
      requires Ready() && i < NUM_MAX_TASK
      modifies stackUsed
      ensures State() == FreeStack(old(State()), i)
    {
      var s := StackSlot(pcbList[i].sp);
      if s < NUM_MAX_TASK {
        stackUsed[s] := false;
      }
    }

    /** free_proc; MemoryManager has its page tables. */
    method FreeProcess(i: nat, locks: seq<nat>)
      requires Ready() && i < NUM_MAX_TASK
      modifies this`queues, pcbList, stackUsed
      ensures Ready() && State() == FreeProc(old(State()), i, locks)
    {
      assert |pcbList[..]| == NUM_MAX_TASK;
      hide Queues, FreeStack, ReleaseLocks, Wake;
      FreeProcQueues(State(), i, locks);
      var pid := pcbList[i].pid;
      FreeKernelStack(i);
      ReleaseAll(locks);
      WakeWaiting(pid);
      pcbList[i] := pcbList[i].(status := NoTask, pid := 0);
    }

    /** scheduler up to the dequeue. */
    method RequeueCurrent(now: nat, locks: seq<nat>)
      requires Ready()
      modifies this`queues, pcbList, stackUsed
      ensures Ready() && State() == BeforeSwitch(old(State()), now, locks)
    {
      hide CheckSleeping, FreeProc, Slots;
      WakeSleeping(now);
      if pcbList[current].pid != 0 && pcbList[current].status == Running {
        QueuePush(current, ReadyQ, TaskQueue.Ready);
      } else if pcbList[current].status == Exited {
        FreeProcess(current, locks);
      }
    }

    /** scheduler, which needs a ready task to take. */
    method Reschedule(now: nat, locks: seq<nat>)
      requires Ready() && CanSchedule(State(), now, locks)
      modifies this, pcbList, stackUsed
      ensures Ready() && State() == Schedule(old(State()), now, locks)
    {
      hide BeforeSwitch, Slots;
      RequeueCurrent(now, locks);
      ghost var k := State();
      assert Slots(Q(k, ReadyQ));
      SlotAt(k, ReadyQ, 0);
      var t := QueueOf(ReadyQ)[0];
      queues := queues[ReadyQ := QueueOf(ReadyQ)[1..]];
      pcbList[t] := pcbList[t].(status := Running, inQueue := None);
      current := t;
      SwitchQueues(k);
      assert State() == Switch(k);
    }

    /** do_spawn's PCB, pid and kernel stack. */
    method DoSpawn(depth: nat) returns (pid: Option<nat>)
      requires Ready() && depth < STACK_SIZE
      modifies this, pcbList, stackUsed
      ensures pid == if Spawn(old(State()), depth).Some? then Some(old(nextPid)) else None
      ensures Ready() && State() == match Spawn(old(State()), depth) case Some(n) => n case None => old(State())
    {
      hide Push;
      var slot := AllocPcb();
      if slot.None? { return None; }
      ghost var k := State();
      var s := NewKernelStack();
      if s.None? { return None; }
      var i := slot.value;
      pid := Some(nextPid);
      nextPid := nextPid + 1;
      pcbList[i] := pcbList[i].(pid := pid.value, sp := StackAddress(s.value, depth));
      assert forall d :: Q(State(), d) == Q(k, d);
      QueuePush(i, ReadyQ, TaskQueue.Ready);
    }

    /** do_block. */
    method DoBlock(n: nat, now: nat)
      requires Ready() && IsRunning(State()) && CanSchedule(Push(State(), current, BlockQ(n), Blocked), now, [])
      modifies this, pcbList, stackUsed
      ensures Ready() && State() == Step(old(State()), Event.DoBlock(n, now))
    {
      hide Push, CanSchedule, Schedule;
      QueuePush(current, BlockQ(n), Blocked);
      Reschedule(now, []);
    }

    /** do_sleep; the deadline wraps at 32 bits. */
    method DoSleep(ticks: nat, now: nat)
      requires Ready() && Enabled(State(), Event.DoSleep(ticks, now))
      modifies this, pcbList, stackUsed
      ensures Ready() && State() == Step(old(State()), Event.DoSleep(ticks, now))
    {
      hide Push, CanSchedule, Schedule;
      ghost var k := State();
      pcbList[current] := pcbList[current].(sleepUntil := (now + ticks) % UINT32);
      assert forall d :: Q(State(), d) == Q(k, d);
      assert State() == SetTask(k, current, k.tasks[current].(sleepUntil := (now + ticks) % UINT32));
      QueuePush(current, SleepQ, Sleeping);
      Reschedule(now, []);
    }

    /** do_waitpid: blocks only if some PCB has the pid. */
    method DoWaitpid(pid: nat, now: nat)
      requires Ready() && Enabled(State(), Event.DoWaitpid(pid, now))
      modifies this, pcbList, stackUsed
      ensures Ready() && State() == Step(old(State()), Event.DoWaitpid(pid, now))
    {
      hide Push, CanSchedule, Schedule;
      ghost var k := State();
      var r := SearchPid(pid);
      if r.Some? {
        pcbList[current] := pcbList[current].(waitpid := pid);
        assert forall d :: Q(State(), d) == Q(k, d);
        assert State() == SetTask(k, current, k.tasks[current].(waitpid := pid));
        QueuePush(current, WaitQ, Blocked);
        Reschedule(now, []);
      }
    }

    /** do_exit. */
    method DoExit(now: nat, locks: seq<nat>)
      requires Ready() && Enabled(State(), Event.DoExit(now, locks))
      modifies this, pcbList, stackUsed
      ensures Ready() && State() == Step(old(State()), Event.DoExit(now, locks))
    {
      hide FreeProc, CanSchedule, Schedule;
      ghost var k := State();
      pcbList[current] := pcbList[current].(status := Exited);
      assert forall d :: Q(State(), d) == Q(k, d);
      assert State() == SetTask(k, current, k.tasks[current].(status := Exited));
      FreeProcess(current, locks);
      Reschedule(now, []);
    }

    /** do_kill. */
    method DoKill(pid: nat, locks: seq<nat>) returns (r: int)
      requires Ready() && pid != 0
      modifies this`queues, pcbList, stackUsed
      ensures Ready() && State() == Kill(old(State()), pid, locks) && (r == 0 <==> FindPid(old(State()), pid, 0).Some?)
    {
      hide FreeProc;
      ghost var k := State();
      var found := SearchPid(pid);
      if found.None? { return -1; }
      var i := found.value;
      var status, queue := pcbList[i].status, pcbList[i].inQueue;
      if status == Running {
        pcbList[i] := pcbList[i].(status := Exited);
      } else if queue.Some? {
        pcbList[i] := pcbList[i].(status := Exited);
        queues := queues[queue.value := Drop(QueueOf(queue.value), {i})];
        RemoveQueues(k, i, queue.value);
        FreeProcess(i, locks);
      }
      assert forall d :: status == Running ==> Q(State(), d) == Q(k, d);
      return 0;
    }
  }
}
