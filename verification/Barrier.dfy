/**
 do_barrier_wait (ipc/barrier.c:10-22) by any number of tasks under any
 interleaving: each function is one stretch between two yields. calls and
 exits count, per task, the waits begun and the waits left.
 */
module Barrier {
  import opened Partition

  datatype Phase = Running | Blocked | Released // Released: READY inside the wait

  datatype Bar = Bar(goal: int, now: int, queue: seq<nat>, phases: seq<Phase>, calls: seq<nat>, exits: seq<nat>)

  /** do_barrier_init for `n` tasks; the source leaves block_queue to be empty already. */
  function Init(n: nat, goal: int): Bar {
    Bar(goal, 0, [], seq(n, _ => Running), seq(n, _ => 0), seq(n, _ => 0))
  }

  predicate Sized(b: Bar) {
    |b.phases| == |b.calls| == |b.exits| && forall t | t in b.queue :: t < |b.phases|
  }

  /** A call up to the point where the task blocks or returns. */
  function Call(b: Bar, t: nat): Bar
    requires Sized(b) && t < |b.phases|
  {
    var c := b.(calls := b.calls[t := b.calls[t] + 1]);
    if b.now + 1 < b.goal then c.(now := b.now + 1, queue := b.queue + [t], phases := b.phases[t := Blocked])
    else c.(now := 0, queue := [], exits := b.exits[t := b.exits[t] + 1],
            phases := seq(|b.phases|, u => if u in b.queue then Released else if 0 <= u < |b.phases| then b.phases[u] else Running))
  }

  /** An unblocked task is scheduled and leaves the wait. */
  function Leave(b: Bar, t: nat): Bar
    requires Sized(b) && t < |b.phases|
  {
    b.(phases := b.phases[t := Running], exits := b.exits[t := b.exits[t] + 1])
  }

  datatype Act = DoCall(t: nat) | DoLeave(t: nat)

  predicate Enabled(b: Bar, a: Act) {
    Sized(b) && a.t < |b.phases| && b.phases[a.t] == if a.DoCall? then Running else Released
  }

  function Step(b: Bar, a: Act): Bar
    requires Enabled(b, a)
  {
    if a.DoCall? then Call(b, a.t) else Leave(b, a.t)
  }

  predicate RunEnabled(b: Bar, acts: seq<Act>)
    decreases |acts|
  {
    acts == [] || (Enabled(b, acts[0]) && RunEnabled(Step(b, acts[0]), acts[1..]))
  }

  function Run(b: Bar, acts: seq<Act>): Bar
    requires RunEnabled(b, acts)
    decreases |acts|
  {
    if acts == [] then b else Run(Step(b, acts[0]), acts[1..])
  }

  // ----- what every run keeps -----

  /** For any goal: `now` counts the blocked tasks, each blocked task is queued once, and each wait is entered before it is left. */
  ghost predicate Counts(b: Bar) {
    && Sized(b) && b.now == |b.queue| && NoDup(b.queue) && (b.now == 0 || b.now < b.goal)
    && (forall t | 0 <= t < |b.phases| :: t in b.queue <==> b.phases[t] == Blocked)
    && (forall t | 0 <= t < |b.phases| :: b.calls[t] == b.exits[t] + if b.phases[t] == Running then 0 else 1)
  }

  /** Everyone is in round `r`: blocked tasks have begun it, the others have not. */
  ghost predicate Round(b: Bar, r: nat) {
    Counts(b) && forall t | 0 <= t < |b.phases| :: b.calls[t] == if b.phases[t] == Blocked then r + 1 else r
  }

  lemma CountsStep(b: Bar, a: Act)
    requires Counts(b) && Enabled(b, a)
    ensures Counts(Step(b, a)) && |Step(b, a).phases| == |b.phases| && Step(b, a).goal == b.goal
  {
    if a.DoCall? && b.now + 1 < b.goal {
      NoDupAppend(b.queue, [a.t]);
    }
  }

  function Members(q: seq<nat>): (m: set<nat>)
    ensures forall x :: x in m <==> x in q
  {
    if q == [] then {} else Members(q[1..]) + {q[0]}
  }

  lemma {:induction false} MembersSize(q: seq<nat>)
    requires NoDup(q)
    ensures |Members(q)| == |q|
  {
    if q == [] {
    } else {
      NoDupTail(q);
      MembersSize(q[1..]);
    }
  }

  function Below(n: nat): (m: set<nat>)
    ensures |m| == n && forall x: nat :: x in m <==> x < n
  {
    if n == 0 then {} else Below(n - 1) + {n - 1}
  }

  /** A list of distinct tasks below `n` that leaves two out is two shorter. */
  lemma QueueFills(q: seq<nat>, n: nat, t: nat, u: nat)
    requires NoDup(q) && (forall x | x in q :: x < n) && t < n && u < n && t !in q && u !in q && t != u
    ensures |q| + 2 <= n
  {
    hide NoDup, Members;
    MembersSize(q);
    var most := Below(n) - {t};
    assert |most - {u}| == n - 2;
    SubsetSize(Members(q), most - {u});
  }

  lemma {:induction false} SubsetSize(a: set<nat>, b: set<nat>)
    requires a <= b
    ensures |a| <= |b|
  {
    if a == {} {
    } else {
      var x :| x in a;
      SubsetSize(a - {x}, b - {x});
    }
  }

  /** With no more tasks than the goal, the round ends exactly when the last task arrives. */
  lemma RoundStep(b: Bar, a: Act, r: nat)
    requires Round(b, r) && Enabled(b, a) && |b.phases| <= b.goal
    ensures Round(Step(b, a), r) || Round(Step(b, a), r + 1)
  {
    CountsStep(b, a);
    if a.DoCall? && b.now + 1 >= b.goal {
      forall u | 0 <= u < |b.phases| && u != a.t
        ensures b.phases[u] == Blocked
      {
        if u !in b.queue {
          QueueFills(b.queue, |b.phases|, a.t, u);
        }
      }
    }
  }

  lemma {:induction false} RunRound(b: Bar, acts: seq<Act>, r: nat) returns (s: nat)
    requires Round(b, r) && RunEnabled(b, acts) && |b.phases| <= b.goal
    ensures Round(Run(b, acts), s) && Run(b, acts).goal == b.goal && |Run(b, acts).phases| == |b.phases|
    decreases |acts|
  {
    hide Round, Step, Enabled;
    if acts == [] {
      s := r;
    } else {
      RoundStep(b, acts[0], r);
      RoundCounts(b, r);
      CountsStep(b, acts[0]);
      var next := if Round(Step(b, acts[0]), r) then r else r + 1;
      s := RunRound(Step(b, acts[0]), acts[1..], next);
    }
  }

  lemma RoundCounts(b: Bar, r: nat)
    requires Round(b, r)
    ensures Counts(b)
  {
  }

  lemma {:induction false} RunCounts(b: Bar, acts: seq<Act>)
    requires Counts(b) && RunEnabled(b, acts)
    ensures Counts(Run(b, acts)) && Run(b, acts).goal == b.goal && |Run(b, acts).phases| == |b.phases|
    decreases |acts|
  {
    hide Counts, Step, Enabled;
    if acts == [] {
    } else {
      CountsStep(b, acts[0]);
      RunCounts(Step(b, acts[0]), acts[1..]);
    }
  }

  // ----- exactly when it is a barrier -----

  /** Nobody has left its k-th wait before everybody has begun the k-th. */
  ghost predicate Safe(b: Bar) {
    |b.calls| == |b.exits| && forall t, u | 0 <= t < |b.calls| && 0 <= u < |b.calls| :: b.exits[t] <= b.calls[u]
  }

  /** Once all have begun the same number of waits, nobody is left blocked. */
  ghost predicate NoneLeft(b: Bar) {
    |b.calls| == |b.phases| &&
    ((forall t, u | 0 <= t < |b.calls| && 0 <= u < |b.calls| :: b.calls[t] == b.calls[u]) ==>
       forall t | 0 <= t < |b.phases| :: b.phases[t] != Blocked)
  }

  ghost predicate SafeAlways(n: nat, goal: int) {
    forall acts :: RunEnabled(Init(n, goal), acts) ==> Safe(Run(Init(n, goal), acts))
  }

  ghost predicate NoneLeftAlways(n: nat, goal: int) {
    forall acts :: RunEnabled(Init(n, goal), acts) ==> NoneLeft(Run(Init(n, goal), acts))
  }

  /** Tasks 0 to k - 1 call once each. */
  function FirstCalls(k: nat): (acts: seq<Act>)
    ensures |acts| == k
  {
    seq(k, i requires 0 <= i => DoCall(i))
  }

  /** Task `from` to `k - 1` call when those before have: all but a call that reaches the goal block. */
  ghost predicate After(b: Bar, n: nat, goal: int, k: nat) {
    && Counts(b) && b.goal == goal && b.now == k && |b.phases| == n && k <= n
    && forall t | 0 <= t < n :: b.phases[t] == (if t < k then Blocked else Running) && b.calls[t] == (if t < k then 1 else 0)
  }

  lemma {:induction false} RunSnoc(b: Bar, acts: seq<Act>, a: Act)
    requires RunEnabled(b, acts) && Enabled(Run(b, acts), a)
    ensures RunEnabled(b, acts + [a]) && Run(b, acts + [a]) == Step(Run(b, acts), a)
    decreases |acts|
  {
    hide Step, Enabled;
    if acts == [] {
      assert [a][1..] == [] && acts + [a] == [a];
    } else {
      RunSnoc(Step(b, acts[0]), acts[1..], a);
      assert (acts + [a])[1..] == acts[1..] + [a];
    }
  }

  lemma {:induction false} CallsBlock(n: nat, goal: int, k: nat)
    requires k <= n && (k < goal || k == 0)
    ensures RunEnabled(Init(n, goal), FirstCalls(k)) && After(Run(Init(n, goal), FirstCalls(k)), n, goal, k)
    decreases k
  {
    if k == 0 {
    } else {
      CallsBlock(n, goal, k - 1);
      var b := Run(Init(n, goal), FirstCalls(k - 1));
      assert FirstCalls(k) == FirstCalls(k - 1) + [DoCall(k - 1)];
      RunSnoc(Init(n, goal), FirstCalls(k - 1), DoCall(k - 1));
      CountsStep(b, DoCall(k - 1));
    }
  }

  lemma InitRound(n: nat, goal: int)
    ensures Round(Init(n, goal), 0)
  {
  }

  /** The barrier holds tasks together over all runs exactly when it has at most `goal` users (or one). */
  lemma SafeExactly(n: nat, goal: int)
    ensures SafeAlways(n, goal) <==> n <= 1 || n <= goal
  {
    InitRound(n, goal);
    if n <= goal || n <= 1 {
      forall acts | RunEnabled(Init(n, goal), acts)
        ensures Safe(Run(Init(n, goal), acts))
      {
        RunCounts(Init(n, goal), acts);
        if n <= goal {
          var r := RunRound(Init(n, goal), acts, 0);
        }
      }
    } else {
      LeavesAlone(n, goal);
    }
  }

  /** With more users than the goal, a task leaves while another has not even come. */
  lemma LeavesAlone(n: nat, goal: int)
    requires n > 1 && n > goal
    ensures !SafeAlways(n, goal)
  {
    var g := if goal >= 1 then goal else 1;
    CallsBlock(n, goal, g - 1);
    var b := Run(Init(n, goal), FirstCalls(g - 1));
    RunSnoc(Init(n, goal), FirstCalls(g - 1), DoCall(g - 1));
    var c := Step(b, DoCall(g - 1));
    assert c.exits[g - 1] == 1 && c.calls[n - 1] == 0;
    assert !Safe(c);
  }

  /** It both holds them together and lets them all go exactly when it has `goal` users (or one, with a goal that never blocks). */
  lemma WorksExactly(n: nat, goal: int)
    ensures SafeAlways(n, goal) && NoneLeftAlways(n, goal) <==> n == 0 || n == goal || (n == 1 && goal <= 1)
  {
    SafeExactly(n, goal);
    InitRound(n, goal);
    if n == 0 || n == goal || (n == 1 && goal <= 1) {
      forall acts | RunEnabled(Init(n, goal), acts)
        ensures NoneLeft(Run(Init(n, goal), acts))
      {
        RunCounts(Init(n, goal), acts);
        NoneLeftHere(Run(Init(n, goal), acts), n, goal, acts);
      }
    } else if n < goal {
      CallsBlock(n, goal, n);
      var b := Run(Init(n, goal), FirstCalls(n));
      assert b.phases[0] == Blocked;
      assert !NoneLeft(b);
    }
  }

  lemma NoneLeftHere(b: Bar, n: nat, goal: int, acts: seq<Act>)
    requires RunEnabled(Init(n, goal), acts) && b == Run(Init(n, goal), acts) && Counts(b) && |b.phases| == n && b.goal == goal
    requires n == 0 || n == goal || (n == 1 && goal <= 1)
    ensures NoneLeft(b)
  {
    if t: nat, u: nat :| t < n && u < n && b.phases[t] == Blocked && b.phases[u] != Blocked && n == goal {
      InitRound(n, goal);
      var r := RunRound(Init(n, goal), acts, 0);
      assert b.calls[t] != b.calls[u];
    } else if n == goal && n > 0 && b.phases[0] == Blocked {
      assert forall t | 0 <= t < n :: b.phases[t] == Blocked && t in b.queue;
      FullQueue(b.queue, n);
    }
  }

  lemma FullQueue(q: seq<nat>, n: nat)
    requires NoDup(q) && forall t | 0 <= t < n :: t in q
    ensures |q| >= n
  {
    MembersSize(q);
    SubsetSize(Below(n), Members(q));
  }

  /** struct barrier in place, with the ready queue that do_unblock_one pushes on. */
  class BarrierLock {
    const goal: int
    var now: int
    var blockQueue: seq<nat>
    var readyQueue: seq<nat>
    ghost var phases: seq<Phase>
    ghost var calls: seq<nat>
    ghost var exits: seq<nat>

    ghost function State(): Bar
      reads this
    {
      Bar(goal, now, blockQueue, phases, calls, exits)
    }

    ghost predicate Valid()
      reads this
    {
      Counts(State())
    }

    /** do_barrier_init, for `n` tasks. */
    constructor (n: nat, barrierGoal: int)
      ensures Valid() && State() == Init(n, barrierGoal) && readyQueue == []
    {
      goal, now, blockQueue, readyQueue := barrierGoal, 0, [], [];
      phases, calls, exits := seq(n, _ => Running), seq(n, _ => 0), seq(n, _ => 0);
    }

    /** do_unblock_all. */
    method UnblockAll()
      modifies this`blockQueue, this`readyQueue
      ensures blockQueue == [] && readyQueue == old(readyQueue) + old(blockQueue)
    {
      while blockQueue != []
        invariant readyQueue + blockQueue == old(readyQueue) + old(blockQueue)
        decreases |blockQueue|
      {
        readyQueue := readyQueue + [blockQueue[0]];
        blockQueue := blockQueue[1..];
      }
    }

    /** do_barrier_wait by task `t` up to its yield or its return. */
    method Wait(t: nat) returns (blocks: bool)
      requires Valid() && t < |phases| && phases[t] == Running
      modifies this
      ensures Valid() && State() == Call(old(State()), t) && (blocks <==> phases[t] == Blocked)
      ensures readyQueue == old(readyQueue) + if blocks then [] else old(blockQueue)
    {
      CountsStep(State(), DoCall(t));
      ghost var next := Call(State(), t);
      now := now + 1;
      if now < goal {
        blockQueue := blockQueue + [t];
        blocks := true;
      } else {
        UnblockAll();
        now := 0;
        blocks := false;
      }
      phases, calls, exits := next.phases, next.calls, next.exits;
    }
  }
}
