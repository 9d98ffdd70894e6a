/** The lock and its conditions in place (kernel/locking/lock.c:26-59, ipc/cond.c:6-35): each method is a step of Monitor. */
module Locks {
  import opened Wrappers
  import opened Monitor

  class MutexLock {
    var locked: bool
    var blockQueue: seq<nat>
    var conditions: map<nat, seq<nat>>
    ghost var phases: map<nat, Phase>
    ghost var owner: Option<nat>
    ghost var arrivals: seq<nat>
    ghost var grants: seq<nat>

    ghost function State(): Mon
      reads this
    {
      Mon(locked, blockQueue, conditions, phases, owner, arrivals, grants)
    }

    function Waiters(c: nat): (q: seq<nat>)
      reads this
    {
      if c in conditions then conditions[c] else []
    }

    /** do_mutex_lock_init, and do_condition_init of every condition. */
    constructor ()
      ensures State() == Init() && Inv(State())
    {
      locked, blockQueue, conditions := false, [], map[];
      phases, owner, arrivals, grants := map[], None, [], [];
      new;
      assert forall t: nat :: PhaseOf(State(), t) == Outside;
    }

    /** do_mutex_lock_acquire up to its yield or return; a woken waiter comes back through it. */
    method DoAcquire(t: nat) returns (blocks: bool)
      modifies this
      ensures State() == Acquire(old(State()), t) && (blocks <==> old(locked))
      ensures old(Inv(State()) && (PhaseOf(State(), t) == Outside || PhaseOf(State(), t) == Woken)) ==>
                Inv(State()) && (blocks || owner == Some(t))
    {
      hide Inv;
      if Inv(State()) && (PhaseOf(State(), t) == Outside || PhaseOf(State(), t) == Woken) {
        AcquireInv(State(), t);
      }
      blocks := locked;
      arrivals := arrivals + [t];
      if !locked {
        locked := true;
        owner, phases, grants := Some(t), phases[t := Holding], grants + [t];
      } else {
        blockQueue := blockQueue + [t];
        phases := phases[t := Queued];
      }
    }

    /** do_mutex_lock_release: with a waiter the lock stays LOCKED and changes hands. */
    method DoRelease(t: nat)
      modifies this
      ensures State() == Release(old(State()), t)
      ensures old(Inv(State()) && owner == Some(t)) ==> Inv(State()) && owner == (if old(blockQueue) == [] then None else Some(old(blockQueue)[0]))
    {
      hide Inv;
      if Inv(State()) && owner == Some(t) {
        ReleaseInv(State(), t);
      }
      phases := phases[t := Outside];
      if blockQueue == [] {
        locked := false;
        owner := None;
      } else {
        owner, phases, grants := Some(blockQueue[0]), phases[blockQueue[0] := Holding], grants + [blockQueue[0]];
        blockQueue := blockQueue[1..];
      }
    }

    /** do_condition_wait up to its yield. */
    method DoConditionWait(t: nat, c: nat)
      modifies this
      ensures State() == Wait(old(State()), t, c)
    {
      DoRelease(t);
      conditions := conditions[c := Waiters(c) + [t]];
      phases := phases[t := Waiting(c)];
    }

    /** do_condition_signal on a non-empty queue. */
    method DoSignal(c: nat)
      requires Waiters(c) != []
      modifies this
      ensures State() == Signal(old(State()), c)
    {
      phases := phases[Waiters(c)[0] := Woken];
      conditions := conditions[c := Waiters(c)[1..]];
    }

    /** do_condition_broadcast. */
    method DoBroadcast(c: nat)
      modifies this
      ensures State() == Broadcast(old(State()), c)
    {
      while Waiters(c) != []
        invariant Broadcast(old(State()), c) == Broadcast(State(), c)
        decreases |Waiters(c)|
      {
        DoSignal(c);
      }
    }
  }
}
