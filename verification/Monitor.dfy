/**
 The hand-off mutex and its condition variables (kernel/locking/lock.c:26-59,
 ipc/cond.c:13-35), for any number of tasks under any interleaving. Each
 function is one stretch of kernel code between two yields. The owner is
 ghost: the source keeps no reliable record of it.
 */
module Monitor {
  import opened Wrappers
  import opened Partition

  /** Where a task is with respect to the lock. */
  datatype Phase =
    | Outside
    | Queued            // in the lock's block queue
    | Holding
    | Waiting(c: nat)   // in the block queue of condition c
    | Woken             // signalled, READY, about to reacquire in do_condition_wait

  /** arrivals: tasks in the order they asked for the lock; grants: in the order they got it. */
  datatype Mon = Mon(
    locked: bool, queue: seq<nat>, conds: map<nat, seq<nat>>,
    phases: map<nat, Phase>, owner: Option<nat>, arrivals: seq<nat>, grants: seq<nat>)

  function PhaseOf(m: Mon, t: nat): Phase {
    if t in m.phases then m.phases[t] else Outside
  }

  function CondQueue(m: Mon, c: nat): seq<nat> {
    if c in m.conds then m.conds[c] else []
  }

  /** do_mutex_lock_init, with no task inside. */
  function Init(): Mon {
    Mon(false, [], map[], map[], None, [], [])
  }

  /** do_mutex_lock_acquire: takes a free lock, else joins the queue. */
  function Acquire(m: Mon, t: nat): Mon {
    if !m.locked then m.(locked := true, owner := Some(t), phases := m.phases[t := Holding],
                         arrivals := m.arrivals + [t], grants := m.grants + [t])
    else m.(queue := m.queue + [t], phases := m.phases[t := Queued], arrivals := m.arrivals + [t])
  }

  /** do_mutex_lock_release: unlocks, or hands the lock to the first waiter without unlocking. */
  function Release(m: Mon, t: nat): Mon {
    var out := m.(phases := m.phases[t := Outside]);
    if m.queue == [] then out.(locked := false, owner := None)
    else out.(queue := m.queue[1..], owner := Some(m.queue[0]), phases := out.phases[m.queue[0] := Holding],
              grants := m.grants + [m.queue[0]])
  }

  /** do_condition_wait up to its scheduler call. */
  function Wait(m: Mon, t: nat, c: nat): Mon {
    var r := Release(m, t);
    r.(conds := r.conds[c := CondQueue(r, c) + [t]], phases := r.phases[t := Waiting(c)])
  }

  /** do_condition_signal on a non-empty queue. */
  function Signal(m: Mon, c: nat): Mon
    requires CondQueue(m, c) != []
  {
    m.(conds := m.conds[c := CondQueue(m, c)[1..]], phases := m.phases[CondQueue(m, c)[0] := Woken])
  }

  /** do_condition_broadcast. */
  function Broadcast(m: Mon, c: nat): Mon
    decreases |CondQueue(m, c)|
  {
    if CondQueue(m, c) == [] then m else Broadcast(Signal(m, c), c)
  }

  // ----- invariant -----

  /** LOCKED exactly when there is an owner, one and only one task holds, queues and phases agree,
      and everyone who asked got the lock in order or is still in line. */
  ghost predicate Inv(m: Mon) {
    && (m.locked <==> m.owner.Some?)
    && (m.queue != [] ==> m.locked)
    && (forall t: nat :: PhaseOf(m, t) == Holding <==> m.owner == Some(t))
    && NoDup(m.queue) && (forall t: nat :: t in m.queue <==> PhaseOf(m, t) == Queued)
    && (forall c: nat :: NoDup(CondQueue(m, c)))
    && (forall c: nat, t: nat :: t in CondQueue(m, c) <==> PhaseOf(m, t) == Waiting(c))
    && m.arrivals == m.grants + m.queue
  }

  /** What a task may do next; only the owner releases or waits. */
  datatype Act =
    | DoAcquire(t: nat)
    | DoRelease(t: nat)
    | DoWait(t: nat, c: nat)
    | DoSignal(c: nat)
    | DoBroadcast(c: nat)
    | Resume(t: nat)     // a woken task reacquires

  predicate Enabled(m: Mon, a: Act) {
    match a
    case DoAcquire(t) => PhaseOf(m, t) == Outside
    case DoRelease(t) => m.owner == Some(t)
    case DoWait(t, c) => m.owner == Some(t)
    case DoSignal(c) => CondQueue(m, c) != []
    case DoBroadcast(c) => true
    case Resume(t) => PhaseOf(m, t) == Woken
  }

  function Step(m: Mon, a: Act): Mon
    requires Enabled(m, a)
  {
    match a
    case DoAcquire(t) => Acquire(m, t)
    case DoRelease(t) => Release(m, t)
    case DoWait(t, c) => Wait(m, t, c)
    case DoSignal(c) => Signal(m, c)
    case DoBroadcast(c) => Broadcast(m, c)
    case Resume(t) => Acquire(m, t)
  }

  lemma AcquireInv(m: Mon, t: nat)
    requires Inv(m) && (PhaseOf(m, t) == Outside || PhaseOf(m, t) == Woken)
    ensures Inv(Acquire(m, t))
  {
    var n := Acquire(m, t);
    assert forall u: nat :: u != t ==> PhaseOf(n, u) == PhaseOf(m, u);
    assert forall c: nat :: CondQueue(n, c) == CondQueue(m, c);
    assert n.arrivals == n.grants + n.queue;
  }

  lemma ReleaseInv(m: Mon, t: nat)
    requires Inv(m) && m.owner == Some(t)
    ensures Inv(Release(m, t)) && PhaseOf(Release(m, t), t) == Outside
  {
    var n := Release(m, t);
    assert forall c: nat :: CondQueue(n, c) == CondQueue(m, c);
    if m.queue != [] {
      var h := m.queue[0];
      assert m.queue == [h] + n.queue;
      assert PhaseOf(m, h) == Queued && h != t;
      forall u: nat
        ensures u in n.queue <==> PhaseOf(n, u) == Queued
      {
        assert u in n.queue <==> u in m.queue && u != h;
      }
    }
    assert forall u: nat :: u in n.queue <==> PhaseOf(n, u) == Queued;
  }

  lemma WaitInv(m: Mon, t: nat, c: nat)
    requires Inv(m) && m.owner == Some(t)
    ensures Inv(Wait(m, t, c))
  {
    ReleaseInv(m, t);
    var r := Release(m, t);
    var n := Wait(m, t, c);
    assert t !in CondQueue(r, c);
    forall d: nat
      ensures CondQueue(n, d) == if d == c then CondQueue(r, d) + [t] else CondQueue(r, d)
      ensures NoDup(CondQueue(n, d))
    {
      assert NoDup(CondQueue(r, d));
    }
    assert forall u: nat :: u != t ==> PhaseOf(n, u) == PhaseOf(r, u);
  }

  lemma SignalInv(m: Mon, c: nat)
    requires Inv(m) && CondQueue(m, c) != []
    ensures Inv(Signal(m, c)) && PhaseOf(Signal(m, c), CondQueue(m, c)[0]) == Woken
  {
    var q := CondQueue(m, c);
    var h := q[0];
    var n := Signal(m, c);
    assert NoDup(q) && q == [h] + q[1..];
    assert h in q && PhaseOf(m, h) == Waiting(c);
    forall d: nat, u: nat
      ensures u in CondQueue(n, d) <==> PhaseOf(n, u) == Waiting(d)
      ensures NoDup(CondQueue(n, d))
    {
      assert NoDup(CondQueue(m, d));
      assert u in CondQueue(m, d) <==> PhaseOf(m, u) == Waiting(d);
      assert u in CondQueue(n, d) <==> u in CondQueue(m, d) && u != h;
    }
    assert forall u: nat :: u != h ==> PhaseOf(n, u) == PhaseOf(m, u);
  }

  /** Broadcast empties one condition queue; its tasks are woken and nobody else changes phase. */
  lemma {:induction false} BroadcastInv(m: Mon, c: nat)
    requires Inv(m)
    ensures var n := Broadcast(m, c);
            && Inv(n) && CondQueue(n, c) == []
            && n.locked == m.locked && n.owner == m.owner && n.queue == m.queue && n.arrivals == m.arrivals && n.grants == m.grants
            && (forall d: nat | d != c :: CondQueue(n, d) == CondQueue(m, d))
            && (forall u: nat :: PhaseOf(n, u) == if PhaseOf(m, u) == Waiting(c) then Woken else PhaseOf(m, u))
    decreases |CondQueue(m, c)|
  {
    if CondQueue(m, c) != [] {
      SignalInv(m, c);
      var s := Signal(m, c);
      BroadcastInv(s, c);
      assert CondQueue(m, c)[0] in CondQueue(m, c);
      assert forall u: nat :: u != CondQueue(m, c)[0] ==> PhaseOf(s, u) == PhaseOf(m, u);
      assert forall d: nat :: d != c ==> CondQueue(s, d) == CondQueue(m, d);
    } else {
      assert forall u: nat :: PhaseOf(m, u) == Waiting(c) ==> u in CondQueue(m, c);
    }
  }

  lemma StepInv(m: Mon, a: Act)
    requires Inv(m) && Enabled(m, a)
    ensures Inv(Step(m, a))
  {
    hide Inv;
    match a
    case DoAcquire(t) => AcquireInv(m, t);
    case DoRelease(t) => ReleaseInv(m, t);
    case DoWait(t, c) => WaitInv(m, t, c);
    case DoSignal(c) => SignalInv(m, c);
    case DoBroadcast(c) => BroadcastInv(m, c);
    case Resume(t) => AcquireInv(m, t);
  }

  // ----- runs -----

  predicate RunEnabled(m: Mon, acts: seq<Act>)
    decreases |acts|
  {
    acts == [] || (Enabled(m, acts[0]) && RunEnabled(Step(m, acts[0]), acts[1..]))
  }

  function Run(m: Mon, acts: seq<Act>): Mon
    requires RunEnabled(m, acts)
    decreases |acts|
  {
    if acts == [] then m else Run(Step(m, acts[0]), acts[1..])
  }

  lemma {:induction false} RunInv(m: Mon, acts: seq<Act>)
    requires Inv(m) && RunEnabled(m, acts)
    ensures Inv(Run(m, acts))
    decreases |acts|
  {
    hide Inv, Step, Enabled;
    if acts == [] {
    } else {
      StepInv(m, acts[0]);
      RunInv(Step(m, acts[0]), acts[1..]);
    }
  }

  lemma InitInv()
    ensures Inv(Init())
  {
    assert forall x: nat :: PhaseOf(Init(), x) == Outside;
  }

  /** Mutual exclusion and first-come-first-served, in every state of every run: at most one task
      holds the lock, LOCKED says whether one does, and the tasks served so far are exactly the
      first of those that asked, in the order they asked. */
  lemma MutexOverRuns(acts: seq<Act>, t: nat, u: nat)
    requires RunEnabled(Init(), acts)
    ensures var m := Run(Init(), acts);
            && (PhaseOf(m, t) == Holding && PhaseOf(m, u) == Holding ==> t == u)
            && (m.locked <==> exists h: nat :: PhaseOf(m, h) == Holding)
            && m.grants <= m.arrivals && m.arrivals == m.grants + m.queue
            && (PhaseOf(m, t) == Holding <==> m.owner == Some(t))
  {
    InitInv();
    RunInv(Init(), acts);
    var m := Run(Init(), acts);
    assert m.owner.Some? ==> PhaseOf(m, m.owner.value) == Holding;
  }

  /** A waiting task leaves do_condition_wait only as the owner: to go on it must hold the lock, and
      the only ways from Waiting to Holding lead through Woken and a fresh acquisition. */
  lemma WaitReturnsOwner(m: Mon, a: Act, t: nat)
    requires Inv(m) && Enabled(m, a)
    ensures var n := Step(m, a);
            && (PhaseOf(m, t).Waiting? ==> PhaseOf(n, t) == PhaseOf(m, t) || PhaseOf(n, t) == Woken)
            && (PhaseOf(m, t) == Woken ==> PhaseOf(n, t) == Woken || PhaseOf(n, t) == Queued || n.owner == Some(t))
            && (PhaseOf(m, t) == Queued ==> PhaseOf(n, t) == Queued || n.owner == Some(t))
            && (PhaseOf(m, t) != Holding && PhaseOf(n, t) == Holding ==> n.grants == m.grants + [t])
  {
    match a
    case DoBroadcast(c) => BroadcastInv(m, c);
    case DoSignal(c) => SignalInv(m, c);
    case _ => StepInv(m, a);
  }

  // ----- the order of a condition queue -----

  /** Signal wakes the first waiter and nobody else; the others keep their order. */
  lemma SignalWakes(m: Mon, c: nat)
    requires Inv(m) && CondQueue(m, c) != []
    ensures var n, q := Signal(m, c), CondQueue(m, c);
            && CondQueue(n, c) == q[1..] && (forall d: nat | d != c :: CondQueue(n, d) == CondQueue(m, d))
            && (forall u: nat :: PhaseOf(n, u) == if u == q[0] then Woken else PhaseOf(m, u))
            && n.locked == m.locked && n.queue == m.queue && n.owner == m.owner
  {
    hide Inv;
  }

  /** What a step makes of a condition queue: a waiter joins at the end, a signal takes the head, a broadcast takes all. */
  lemma CondStep(m: Mon, a: Act, c: nat)
    requires Inv(m) && Enabled(m, a)
    ensures var q := CondQueue(m, c);
            CondQueue(Step(m, a), c) ==
            match a
            case DoWait(t, d) => if d == c then q + [t] else q
            case DoSignal(d) => if d == c then q[1..] else q
            case DoBroadcast(d) => if d == c then [] else q
            case _ => q
  {
    hide Inv;
    match a
    case DoSignal(d) => SignalWakes(m, d);
    case DoBroadcast(d) => BroadcastInv(m, d);
    case _ =>
  }

  function JoinedBy(a: Act, c: nat): seq<nat> {
    if a.DoWait? && a.c == c then [a.t] else []
  }

  /** The tasks that wait on `c`, in the order they came. */
  function Joins(acts: seq<Act>, c: nat): seq<nat>
    decreases |acts|
  {
    if acts == [] then [] else JoinedBy(acts[0], c) + Joins(acts[1..], c)
  }

  ghost predicate EndsIn(s: seq<nat>, q: seq<nat>) {
    |q| <= |s| && s[|s| - |q|..] == q
  }

  lemma EndsInMore(s: seq<nat>, q: seq<nat>, r: seq<nat>)
    requires EndsIn(s, q)
    ensures EndsIn(s + r, q + r)
  {
  }

  lemma EndsInTwice(s: seq<nat>, q: seq<nat>, r: seq<nat>)
    requires EndsIn(s, q) && EndsIn(q, r)
    ensures EndsIn(s, r)
  {
  }

  lemma EndsInSelf(q: seq<nat>)
    ensures EndsIn(q + [], q)
  {
  }

  lemma JoinedStep(m: Mon, a: Act, c: nat)
    requires Inv(m) && Enabled(m, a)
    ensures EndsIn(CondQueue(m, c) + JoinedBy(a, c), CondQueue(Step(m, a), c))
  {
    hide Inv, Step;
    CondStep(m, a, c);
  }

  lemma {:induction false} JoinedOver(m: Mon, acts: seq<Act>, c: nat)
    requires Inv(m) && RunEnabled(m, acts)
    ensures EndsIn(CondQueue(m, c) + Joins(acts, c), CondQueue(Run(m, acts), c))
    decreases |acts|
  {
    hide Inv, Step, Enabled, EndsIn, CondQueue, JoinedBy;
    var q := CondQueue(m, c);
    if acts == [] {
      EndsInSelf(q);
    } else {
      var n, rest := Step(m, acts[0]), Joins(acts[1..], c);
      StepInv(m, acts[0]);
      JoinedStep(m, acts[0], c);
      JoinedOver(n, acts[1..], c);
      EndsInMore(q + JoinedBy(acts[0], c), CondQueue(n, c), rest);
      assert q + Joins(acts, c) == q + JoinedBy(acts[0], c) + rest;
      EndsInTwice(q + Joins(acts, c), CondQueue(n, c) + rest, CondQueue(Run(m, acts), c));
    }
  }

  lemma NobodyWaits(c: nat)
    ensures CondQueue(Init(), c) == []
  {
  }

  /** Over every run the tasks still waiting on a condition are the last of those that came to it, in the order they
      came: tasks leave a condition in the order they joined it. */
  lemma ConditionFifo(acts: seq<Act>, c: nat)
    requires RunEnabled(Init(), acts)
    ensures var q, s := CondQueue(Run(Init(), acts), c), Joins(acts, c); |q| <= |s| && q == s[|s| - |q|..]
  {
    hide Inv, Init, Run, RunEnabled, Joins, CondQueue;
    InitInv();
    NobodyWaits(c);
    JoinedOver(Init(), acts, c);
    assert [] + Joins(acts, c) == Joins(acts, c);
  }
}
