/**
 What every run of the kernel keeps (kernel/sched/sched.c:126-213, 225-433):
 a task's status, the queue it names and the queue it is in agree; live pids
 are distinct; nobody waits for a dead pid; stack slots and live tasks match.
 */
module KernelInvariant {
  import opened Wrappers
  import opened Partition
  import opened TaskQueue
  import opened KernelModel

  predicate Queued(t: Task) {
    t.status == Ready || t.status == Sleeping || t.status == Blocked
  }

  /** The queues a task of a given status may be in. */
  predicate Fits(st: Status, id: QueueId) {
    match st
    case Ready => id == ReadyQ
    case Sleeping => id == SleepQ
    case Blocked => id == WaitQ || id.BlockQ?
    case _ => false
  }

  predicate HasPid(k: Kernel, pid: nat) {
    exists j | 0 <= j < |k.tasks| :: k.tasks[j].pid == pid
  }

  /** Whoever is in a queue is there once, and names that queue. */
  ghost predicate QueueOk(k: Kernel, id: QueueId)
    requires Sized(k)
  {
    NoDup(Q(k, id)) && forall i: nat | i in Q(k, id) :: i < NUM_MAX_TASK && Queued(k.tasks[i]) && k.tasks[i].inQueue == Some(id)
  }

  /** A waiting task is in the queue it names, which fits its status; only the current task runs;
      and who waits for a pid waits for one that exists.
      limbo: a task being killed, which is EXITED without being the current one; -1 for none. */
  ghost predicate TaskOk(k: Kernel, i: nat, limbo: int)
    requires Sized(k) && i < NUM_MAX_TASK
  {
    var t := k.tasks[i];
    && (t.status == NoTask <==> t.pid == 0)
    && (t.status != NoTask ==> 1 <= i && t.pid < k.nextPid)
    && (Queued(t) ==> t.inQueue.Some? && Fits(t.status, t.inQueue.value) && i in Q(k, t.inQueue.value))
    && (t.status == Blocked && t.inQueue == Some(WaitQ) ==> HasPid(k, t.waitpid))
    && (t.status == Running ==> i == k.current && t.inQueue.None?)
    && (t.status == Exited ==> i == k.current || i == limbo)
  }

  /** Live pids are distinct. */
  ghost predicate PidsDistinct(k: Kernel)
    requires Sized(k)
  {
    forall i, j | 0 <= i < j < NUM_MAX_TASK && k.tasks[i].pid == k.tasks[j].pid :: k.tasks[i].pid == 0
  }

  ghost predicate Inv(k: Kernel, limbo: int) {
    && Sized(k) && 0 < k.nextPid
    && (forall id :: QueueOk(k, id))
    && (forall i | 0 <= i < NUM_MAX_TASK :: TaskOk(k, i, limbo))
    && PidsDistinct(k)
  }

  // ----- the building blocks keep it -----

  /** Which pids there are does not depend on queues and statuses. */
  lemma SamePids(k: Kernel, n: Kernel)
    requires |k.tasks| == |n.tasks| && forall x | 0 <= x < |k.tasks| :: n.tasks[x].pid == k.tasks[x].pid
    ensures forall pid :: HasPid(n, pid) <==> HasPid(k, pid)
  {
    forall pid
      ensures HasPid(n, pid) <==> HasPid(k, pid)
    {
      if HasPid(k, pid) {
        var j :| 0 <= j < |k.tasks| && k.tasks[j].pid == pid;
        assert n.tasks[j].pid == pid;
      }
      if HasPid(n, pid) {
        var j :| 0 <= j < |n.tasks| && n.tasks[j].pid == pid;
        assert k.tasks[j].pid == pid;
      }
    }
  }

  lemma Member(k: Kernel, id: QueueId, i: nat, limbo: int)
    requires Inv(k, limbo) && i in Q(k, id)
    ensures i < NUM_MAX_TASK && Queued(k.tasks[i]) && k.tasks[i].inQueue == Some(id)
  {
    assert QueueOk(k, id);
  }

  /** Appending a task that is in no queue. */
  lemma PushInv(k: Kernel, i: nat, id: QueueId, st: Status, limbo: int)
    requires Inv(k, limbo) && i < NUM_MAX_TASK && k.tasks[i].pid != 0 && !Queued(k.tasks[i]) && Fits(st, id)
    requires id == WaitQ ==> HasPid(k, k.tasks[i].waitpid)
    ensures Inv(Push(k, i, id, st), limbo)
  {
    hide HasPid, NoDup;
    var n := Push(k, i, id, st);
    forall d
      ensures QueueOk(n, d)
    {
      assert QueueOk(k, d);
      NoDupAppend(Q(k, d), [i]);
    }
    SamePids(k, n);
    forall x | 0 <= x < NUM_MAX_TASK
      ensures TaskOk(n, x, limbo)
    {
      assert TaskOk(k, x, limbo);
    }
  }

  /** The wake loops: a stable part of one queue moves to the ready queue. */
  lemma WakeQueue(k: Kernel, from: QueueId, due: set<nat>, limbo: int, d: QueueId)
    requires Inv(k, limbo) && from != ReadyQ && forall i | i in due :: i in Q(k, from)
    ensures QueueOk(Wake(k, from, due), d)
    ensures forall i :: i in Q(Wake(k, from, due), d) <==>
              if d == ReadyQ then i in Q(k, d) || i in due else i in Q(k, d) && !(d == from && i in due)
  {
    hide NoDup, TaskOk, Pick, Drop;
    PickDropMembers(Q(k, from), due);
    assert QueueOk(k, d) && QueueOk(k, from) && QueueOk(k, ReadyQ);
    forall i | i in Pick(Q(k, from), due)
      ensures i !in Q(k, ReadyQ)
    {
      assert i in Q(k, from) && k.tasks[i].inQueue == Some(from);
    }
    if d == ReadyQ {
      NoDupAppend(Q(k, ReadyQ), Pick(Q(k, from), due));
    }
  }

  lemma WakeInv(k: Kernel, from: QueueId, due: set<nat>, limbo: int)
    requires Inv(k, limbo) && from != ReadyQ && forall i | i in due :: i in Q(k, from)
    ensures Inv(Wake(k, from, due), limbo)
    ensures forall i | i in Q(Wake(k, from, due), WaitQ) :: i in Q(k, WaitQ) && (from == WaitQ ==> i !in due)
  {
    hide NoDup, HasPid, Pick, Drop;
    var n := Wake(k, from, due);
    forall d
      ensures QueueOk(n, d)
    {
      WakeQueue(k, from, due, limbo, d);
    }
    SamePids(k, n);
    forall x | 0 <= x < NUM_MAX_TASK
      ensures TaskOk(n, x, limbo)
    {
      assert TaskOk(k, x, limbo);
      if x in due {
        Member(k, from, x, limbo);
        WakeQueue(k, from, due, limbo, ReadyQ);
      } else if Queued(k.tasks[x]) {
        WakeQueue(k, from, due, limbo, k.tasks[x].inQueue.value);
      }
    }
    WakeQueue(k, from, due, limbo, WaitQ);
  }

  /** Taking a task out of its queue, marked EXITED: the start of do_kill on a task that is not running. */
  lemma RemoveInv(k: Kernel, i: nat, id: QueueId)
    requires Inv(k, -1) && i < NUM_MAX_TASK && i in Q(k, id)
    ensures Inv(Remove(SetTask(k, i, k.tasks[i].(status := Exited)), i, id), i)
  {
    hide NoDup, HasPid, Drop;
    var n := Remove(SetTask(k, i, k.tasks[i].(status := Exited)), i, id);
    PickDropMembers(Q(k, id), {i});
    Member(k, id, i, -1);
    forall d
      ensures QueueOk(n, d)
    {
      assert QueueOk(k, d);
    }
    SamePids(k, n);
    forall x | 0 <= x < NUM_MAX_TASK
      ensures TaskOk(n, x, i)
    {
      assert TaskOk(k, x, -1);
    }
  }

  /** do_unblock_one, for any block queue. */
  lemma UnblockInv(k: Kernel, b: nat, limbo: int)
    requires Inv(k, limbo) && Q(k, BlockQ(b)) != []
    ensures Q(k, BlockQ(b))[0] < NUM_MAX_TASK && Inv(UnblockOne(k, b), limbo)
  {
    hide NoDup, HasPid;
    var i: nat := Q(k, BlockQ(b))[0];
    Member(k, BlockQ(b), i, limbo);
    var n := UnblockOne(k, b);
    assert QueueOk(k, BlockQ(b)) && QueueOk(k, ReadyQ);
    NoDupTail(Q(k, BlockQ(b)));
    forall d
      ensures QueueOk(n, d)
    {
      assert QueueOk(k, d);
      NoDupAppend(Q(k, ReadyQ), [i]);
    }
    SamePids(k, n);
    forall x | 0 <= x < NUM_MAX_TASK
      ensures TaskOk(n, x, limbo)
    {
      assert TaskOk(k, x, limbo);
    }
  }

  /** The dispatch: the head of the ready queue becomes the one RUNNING task. */
  lemma SwitchInv(k: Kernel)
    requires Inv(k, -1) && Q(k, ReadyQ) != []
    requires forall x | 0 <= x < NUM_MAX_TASK :: k.tasks[x].status != Running && k.tasks[x].status != Exited
    ensures Q(k, ReadyQ)[0] < NUM_MAX_TASK && Inv(Switch(k), -1)
    ensures var n := Switch(k); n.tasks[n.current].status == Running && n.tasks[n.current].pid != 0
  {
    hide NoDup, HasPid;
    var i: nat := Q(k, ReadyQ)[0];
    Member(k, ReadyQ, i, -1);
    assert TaskOk(k, i, -1);
    var n := Switch(k);
    assert QueueOk(k, ReadyQ);
    NoDupTail(Q(k, ReadyQ));
    forall d
      ensures QueueOk(n, d)
    {
      assert QueueOk(k, d);
    }
    SamePids(k, n);
    forall x | 0 <= x < NUM_MAX_TASK
      ensures TaskOk(n, x, -1)
    {
      assert TaskOk(k, x, -1) && TaskOk(k, i, -1);
    }
  }

  // ----- freeing -----

  /** Tasks that are in no queue are untouched, and nobody changes pid or stack. */
  ghost predicate OnlyQueued(k: Kernel, n: Kernel) {
    && Sized(k) && Sized(n) && n.current == k.current && n.nextPid == k.nextPid && n.stackUsed == k.stackUsed
    && forall x | 0 <= x < NUM_MAX_TASK ::
         && n.tasks[x].pid == k.tasks[x].pid && n.tasks[x].sp == k.tasks[x].sp
         && (!Queued(k.tasks[x]) ==> n.tasks[x] == k.tasks[x])
         && (Queued(k.tasks[x]) ==> Queued(n.tasks[x]))
  }

  lemma {:induction false} ReleaseInv(k: Kernel, locks: seq<nat>, limbo: int)
    requires Inv(k, limbo)
    ensures Inv(ReleaseLocks(k, locks), limbo) && OnlyQueued(k, ReleaseLocks(k, locks))
    decreases |locks|
  {
    hide Inv;
    if locks != [] {
      var q := Q(k, BlockQ(locks[0]));
      if q != [] {
        UnblockInv(k, locks[0], limbo);
        UnblockOnlyQueued(k, locks[0], limbo);
        ReleaseInv(UnblockOne(k, locks[0]), locks[1..], limbo);
      } else {
        ReleaseInv(k, locks[1..], limbo);
      }
    } else {
      assert OnlyQueued(k, k) by { InvSized(k, limbo); }
    }
  }

  lemma InvSized(k: Kernel, limbo: int)
    requires Inv(k, limbo)
    ensures Sized(k)
  {
  }

  lemma UnblockOnlyQueued(k: Kernel, b: nat, limbo: int)
    requires Inv(k, limbo) && Q(k, BlockQ(b)) != []
    ensures Q(k, BlockQ(b))[0] < |k.tasks| && OnlyQueued(k, UnblockOne(k, b))
  {
    Member(k, BlockQ(b), Q(k, BlockQ(b))[0], limbo);
  }

  lemma FreePcbInv(k: Kernel, i: nat, limbo: int)
    requires Inv(k, limbo) && i < NUM_MAX_TASK && k.tasks[i].status == Exited && (limbo == -1 || limbo == i)
    requires forall x: nat | x in Q(k, WaitQ) && x < NUM_MAX_TASK :: k.tasks[x].waitpid != k.tasks[i].pid
    ensures Inv(FreePcb(k, i), -1)
  {
    hide NoDup;
    var n := FreePcb(k, i);
    forall d
      ensures QueueOk(n, d)
    {
      assert QueueOk(k, d) && Q(n, d) == Q(k, d);
    }
    forall x | 0 <= x < NUM_MAX_TASK
      ensures TaskOk(n, x, -1)
    {
      assert TaskOk(k, x, limbo) && TaskOk(k, i, limbo);
      assert Q(n, WaitQ) == Q(k, WaitQ);
      if k.tasks[x].status == Blocked && k.tasks[x].inQueue == Some(WaitQ) {
        var j :| 0 <= j < |k.tasks| && k.tasks[j].pid == k.tasks[x].waitpid;
        assert n.tasks[j].pid == k.tasks[x].waitpid;
      }
    }
  }

  lemma StackIrrelevant(k: Kernel, n: Kernel, limbo: int)
    requires Inv(k, limbo) && |n.stackUsed| == |k.stackUsed| && n == k.(stackUsed := n.stackUsed)
    ensures Inv(n, limbo)
  {
    hide HasPid, NoDup;
    forall d
      ensures QueueOk(n, d)
    {
      assert QueueOk(k, d) && Q(n, d) == Q(k, d);
    }
    SamePids(k, n);
    forall x | 0 <= x < NUM_MAX_TASK
      ensures TaskOk(n, x, limbo)
    {
      assert TaskOk(k, x, limbo);
    }
  }

  /** free_proc frees the PCB and leaves nobody waiting for its pid. */
  lemma FreeProcInv(k: Kernel, i: nat, locks: seq<nat>, limbo: int)
    requires Inv(k, limbo) && i < NUM_MAX_TASK && k.tasks[i].status == Exited && (limbo == -1 || limbo == i)
    ensures var n := FreeProc(k, i, locks);
            && Inv(n, -1) && n.tasks[i].status == NoTask && n.tasks[i].pid == 0 && n.current == k.current && n.nextPid == k.nextPid
            && n.stackUsed == FreeStack(k, i).stackUsed
            && forall x | 0 <= x < NUM_MAX_TASK && x != i ::
                 && n.tasks[x].pid == k.tasks[x].pid && n.tasks[x].sp == k.tasks[x].sp
                 && (!Queued(k.tasks[x]) ==> n.tasks[x] == k.tasks[x]) && (Queued(k.tasks[x]) ==> Queued(n.tasks[x]))
  {
    hide TaskOk, QueueOk, PidsDistinct, ReleaseLocks;
    var k0 := FreeStack(k, i);
    StackIrrelevant(k, k0, limbo);
    ReleaseInv(k0, locks, limbo);
    var k1 := ReleaseLocks(k0, locks);
    var due := Waiters(k1, k.tasks[i].pid);
    WakeInv(k1, WaitQ, due, limbo);
    var k2 := Wake(k1, WaitQ, due);
    forall x: nat | x in due
      ensures Queued(k1.tasks[x])
    {
      Member(k1, WaitQ, x, limbo);
    }
    FreePcbInv(k2, i, limbo);
  }
}
