/**
 Senders and receivers on one mailbox (libs/mailbox.c:68-109), any number of
 them, under every interleaving. A step runs one task from where it last
 yielded to where it yields next; the lock and the two conditions are those
 of Monitor.
 */
module Mailbox {
  import opened Blocks
  import opened Wrappers
  import opened Monitor
  import opened Ring

  const NOT_EMPTY: nat := 0
  const NOT_FULL: nat := 1

  /** Longer lengths would overflow the int additions of the guards. */
  const MAX_LENGTH: nat := 0x7FFF_FFFF - MAX_MBOX_LENGTH

  datatype Op = Send(msg: seq<Byte>) | Recv(len: nat)

  /** sent and received: all bytes copied in and out so far, in order. */
  datatype Box = Box(mon: Mon, ring: RingBuffer, ops: map<nat, Op>, sent: seq<Byte>, received: seq<Byte>)

  predicate Sane(op: Op) {
    match op
    case Send(msg) => |msg| <= MAX_LENGTH
    case Recv(len) => len <= MAX_LENGTH
  }

  /** The loop guards: no room for the message, or too few bytes. */
  predicate MustWait(r: RingBuffer, op: Op) {
    match op
    case Send(msg) => r.used + |msg| > MAX_MBOX_LENGTH
    case Recv(len) => r.used < len
  }

  function WaitsOn(op: Op): nat {
    if op.Send? then NOT_FULL else NOT_EMPTY
  }

  /** From a loop test to the next yield or the end of the call, with the lock held by `t`. */
  function Body(b: Box, t: nat): Box
    requires RingOk(b.ring) && t in b.ops
  {
    var op := b.ops[t];
    if MustWait(b.ring, op) then b.(mon := Wait(b.mon, t, WaitsOn(op)))
    else
      match op
      case Send(msg) =>
        b.(ring := Put(b.ring, msg), sent := b.sent + msg, mon := Release(Broadcast(b.mon, NOT_EMPTY), t))
      case Recv(len) =>
        b.(ring := Take(b.ring, len), received := b.received + Contents(b.ring)[..len], mon := Release(Broadcast(b.mon, NOT_FULL), t))
  }

  /** Which tasks can run: those outside, woken ones, and the one the lock was handed to. */
  predicate CanRun(b: Box, t: nat, op: Op) {
    var p := PhaseOf(b.mon, t);
    (p == Outside && Sane(op)) || ((p == Woken || p == Holding) && t in b.ops)
  }

  /** One step of task `t`; `op` is the call it makes if it is outside. */
  function Step(b: Box, t: nat, op: Op): Box
    requires RingOk(b.ring) && CanRun(b, t, op)
  {
    var p := PhaseOf(b.mon, t);
    if p == Holding then Body(b, t)
    else
      var c := if p == Outside then b.(ops := b.ops[t := op]) else b;
      var d := c.(mon := Acquire(c.mon, t));
      if !c.mon.locked then Body(d, t) else d
  }

  function Empty(buff: seq<Byte>): Box {
    Box(Init(), RingBuffer(buff, 0, 0, 0), map[], [], [])
  }

  /** Nothing is lost, duplicated or reordered, and whoever waits has reason to. */
  ghost predicate Good(b: Box) {
    && Monitor.Inv(b.mon) && RingOk(b.ring)
    && b.sent == b.received + Contents(b.ring)
    && (forall t: nat | PhaseOf(b.mon, t) != Outside :: t in b.ops)
    && (forall t: nat, c: nat | PhaseOf(b.mon, t) == Waiting(c) :: t in b.ops && c == WaitsOn(b.ops[t]) && MustWait(b.ring, b.ops[t]))
  }

  lemma BodyGood(b: Box, t: nat)
    requires Good(b) && b.mon.owner == Some(t) && t in b.ops
    ensures Good(Body(b, t))
  {
    hide Monitor.Inv, Contents, Put, Take, RingOk, Release, Broadcast;
    var op := b.ops[t];
    var n := Body(b, t);
    if MustWait(b.ring, op) {
      WaitInv(b.mon, t, WaitsOn(op));
      PhasesAfterRelease(b.mon, t);
    } else if op.Send? {
      PutAppends(b.ring, op.msg);
      TransferPhases(b.mon, t, NOT_EMPTY);
      assert b.sent + op.msg == b.received + (Contents(b.ring) + op.msg);
    } else {
      TakeRemoves(b.ring, op.len);
      TransferPhases(b.mon, t, NOT_FULL);
      assert b.received + Contents(b.ring) == b.received + Contents(b.ring)[..op.len] + Contents(n.ring);
    }
  }

  /** Releasing changes the phase of the releaser, and of the task the lock is handed to. */
  lemma PhasesAfterRelease(m: Mon, t: nat)
    requires Monitor.Inv(m) && m.owner == Some(t)
    ensures var n := Release(m, t);
            forall u: nat :: PhaseOf(n, u) == if u == t then Outside else if n.owner == Some(u) then Holding else PhaseOf(m, u)
    ensures Release(m, t).owner.Some? ==> PhaseOf(m, Release(m, t).owner.value) == Queued
  {
    ReleaseInv(m, t);
    if m.queue != [] {
      assert m.queue[0] in m.queue;
    }
  }

  lemma TransferPhases(m: Mon, t: nat, c: nat)
    requires Monitor.Inv(m) && m.owner == Some(t)
    ensures var n := Release(Broadcast(m, c), t);
            && Monitor.Inv(n)
            && (forall u: nat | PhaseOf(n, u) != Outside :: PhaseOf(m, u) != Outside)
            && (forall u: nat, d: nat | PhaseOf(n, u) == Waiting(d) :: PhaseOf(m, u) == Waiting(d) && d != c)
  {
    BroadcastInv(m, c);
    var s := Broadcast(m, c);
    ReleaseInv(s, t);
    PhasesAfterRelease(s, t);
  }

  /** Every step of every task keeps it. */
  lemma StepGood(b: Box, t: nat, op: Op)
    requires Good(b) && CanRun(b, t, op)
    ensures Good(Step(b, t, op))
  {
    hide Monitor.Inv, Contents;
    var p := PhaseOf(b.mon, t);
    if p == Holding {
      OwnerHolds(b.mon, t);
      BodyGood(b, t);
    } else {
      var c := if p == Outside then b.(ops := b.ops[t := op]) else b;
      var d := c.(mon := Acquire(c.mon, t));
      AcquireInv(c.mon, t);
      assert forall u: nat :: u != t ==> PhaseOf(d.mon, u) == PhaseOf(b.mon, u);
      assert Good(d);
      if !c.mon.locked {
        BodyGood(d, t);
      }
    }
  }

  lemma OwnerHolds(m: Mon, t: nat)
    requires Monitor.Inv(m) && PhaseOf(m, t) == Holding
    ensures m.owner == Some(t)
  {
  }

  // ----- what one step does -----

  /** Where the lock goes when it is given up. */
  predicate HandedTo(m: Mon, u: nat) {
    m.queue != [] && m.queue[0] == u
  }

  /** A call that has to wait changes nothing but its caller's place; one that goes on moves its bytes, wakes the
      waiters of the other condition, and is over. */
  ghost predicate Effect(b: Box, n: Box, t: nat, op: Op)
    requires RingOk(b.ring)
  {
    && (op.Send? ==> n.received == b.received &&
                     if b.ring.used + |op.msg| > 64 then n.ring == b.ring && n.sent == b.sent && PhaseOf(n.mon, t) == Waiting(NOT_FULL)
                     else n.sent == b.sent + op.msg && PhaseOf(n.mon, t) == Outside)
    && (op.Recv? ==> n.sent == b.sent &&
                     if b.ring.used < op.len then n.ring == b.ring && n.received == b.received && PhaseOf(n.mon, t) == Waiting(NOT_EMPTY)
                     else n.received == b.received + Contents(b.ring)[..op.len] && PhaseOf(n.mon, t) == Outside)
    && forall u: nat | u != t ::
         PhaseOf(n.mon, u) ==
         if HandedTo(b.mon, u) then Holding
         else if PhaseOf(n.mon, t) == Outside && PhaseOf(b.mon, u) == Waiting(if op.Send? then NOT_EMPTY else NOT_FULL) then Woken
         else PhaseOf(b.mon, u)
  }

  lemma BodyExact(b: Box, t: nat)
    requires Good(b) && b.mon.owner == Some(t) && t in b.ops
    ensures Body(b, t).ops == b.ops && Effect(b, Body(b, t), t, b.ops[t])
  {
    hide Monitor.Inv, Contents, Put, Take, RingOk, Release, Broadcast;
    var op := b.ops[t];
    if MustWait(b.ring, op) {
      ReleasePhases(b.mon, t);
    } else {
      var c := if op.Send? then NOT_EMPTY else NOT_FULL;
      BroadcastInv(b.mon, c);
      ReleasePhases(Broadcast(b.mon, c), t);
    }
  }

  lemma ReleasePhases(m: Mon, t: nat)
    requires Monitor.Inv(m) && m.owner == Some(t)
    ensures var n := Release(m, t);
            forall u: nat :: PhaseOf(n, u) == if u == t then Outside else if HandedTo(m, u) then Holding else PhaseOf(m, u)
  {
    ReleaseInv(m, t);
  }

  /** A call that finds the lock taken only joins its queue; any other step has its effect. */
  lemma StepExact(b: Box, t: nat, op: Op)
    requires Good(b) && CanRun(b, t, op)
    ensures var n, p := Step(b, t, op), PhaseOf(b.mon, t);
            && t in n.ops && n.ops[t] == (if p == Outside then op else b.ops[t])
            && if p != Holding && b.mon.locked then
                 && n.ring == b.ring && n.sent == b.sent && n.received == b.received && n.mon.queue == b.mon.queue + [t]
                 && PhaseOf(n.mon, t) == Queued && forall u: nat | u != t :: PhaseOf(n.mon, u) == PhaseOf(b.mon, u)
               else Effect(b, n, t, n.ops[t])
  {
    hide Monitor.Inv, Contents, Body, RingOk, Good, Effect, PhaseOf, Acquire;
    GoodRing(b);
    if PhaseOf(b.mon, t) == Holding {
      HolderKnown(b, t);
      BodyExact(b, t);
    } else {
      var d := Asked(b, t, op);
      AskedGood(b, t, op);
      if !b.mon.locked {
        BodyExact(d, t);
        EffectFrom(b, d, Body(d, t), t, d.ops[t]);
      }
    }
  }

  lemma GoodRing(b: Box)
    requires Good(b)
    ensures RingOk(b.ring)
  {
  }

  lemma HolderKnown(b: Box, t: nat)
    requires Good(b) && PhaseOf(b.mon, t) == Holding
    ensures b.mon.owner == Some(t) && t in b.ops
  {
    OwnerHolds(b.mon, t);
  }

  /** The state in which `t` has asked for the lock. */
  function Asked(b: Box, t: nat, op: Op): Box {
    var c := if PhaseOf(b.mon, t) == Outside then b.(ops := b.ops[t := op]) else b;
    c.(mon := Acquire(c.mon, t))
  }

  lemma AskedGood(b: Box, t: nat, op: Op)
    requires Good(b) && CanRun(b, t, op) && PhaseOf(b.mon, t) != Holding
    ensures var d := Asked(b, t, op);
            && Good(d) && d.ring == b.ring && d.sent == b.sent && d.received == b.received
            && t in d.ops && d.ops[t] == (if PhaseOf(b.mon, t) == Outside then op else b.ops[t])
            && (forall u: nat | u != t :: PhaseOf(d.mon, u) == PhaseOf(b.mon, u))
            && if b.mon.locked then d.mon.queue == b.mon.queue + [t] && PhaseOf(d.mon, t) == Queued
               else d.mon.owner == Some(t) && d.mon.queue == b.mon.queue == []
  {
    hide Monitor.Inv, Contents, RingOk;
    AcquireInv(b.mon, t);
    if !b.mon.locked {
      FreeMeansNobody(b.mon);
    }
  }

  lemma EffectFrom(b: Box, d: Box, n: Box, t: nat, op: Op)
    requires RingOk(b.ring) && d.ring == b.ring && d.sent == b.sent && d.received == b.received && d.mon.queue == b.mon.queue
    requires forall u: nat | u != t :: PhaseOf(d.mon, u) == PhaseOf(b.mon, u)
    requires Effect(d, n, t, op)
    ensures Effect(b, n, t, op)
  {
    hide RingOk, Contents;
  }

  lemma FreeMeansNobody(m: Mon)
    requires Monitor.Inv(m) && !m.locked
    ensures m.queue == []
  {
  }

  // ----- runs -----

  datatype Turn = Turn(t: nat, op: Op)

  ghost predicate RunOk(b: Box, turns: seq<Turn>)
    decreases |turns|
  {
    turns == [] || (RingOk(b.ring) && CanRun(b, turns[0].t, turns[0].op) && RunOk(Step(b, turns[0].t, turns[0].op), turns[1..]))
  }

  ghost function RunBox(b: Box, turns: seq<Turn>): Box
    requires RunOk(b, turns)
    decreases |turns|
  {
    if turns == [] then b else RunBox(Step(b, turns[0].t, turns[0].op), turns[1..])
  }

  lemma {:induction false} RunGood(b: Box, turns: seq<Turn>)
    requires Good(b) && RunOk(b, turns)
    ensures Good(RunBox(b, turns))
    decreases |turns|
  {
    hide Good, Step, CanRun;
    if turns == [] {
    } else {
      StepGood(b, turns[0].t, turns[0].op);
      RunGood(Step(b, turns[0].t, turns[0].op), turns[1..]);
    }
  }

  lemma EmptyGood(buff: seq<Byte>)
    requires |buff| == MAX_MBOX_LENGTH
    ensures Good(Empty(buff))
  {
    assert forall t: nat :: PhaseOf(Empty(buff).mon, t) == Outside;
  }

  lemma GoodMeans(b: Box)
    requires Good(b)
    ensures RingOk(b.ring) && b.sent == b.received + Contents(b.ring)
    ensures forall t: nat | t in CondQueue(b.mon, NOT_EMPTY) :: t in b.ops && b.ops[t].Recv? && b.ops[t].len > b.ring.used
    ensures forall t: nat | t in CondQueue(b.mon, NOT_FULL) :: t in b.ops && b.ops[t].Send? && |b.ops[t].msg| > MAX_MBOX_LENGTH - b.ring.used
    ensures !b.mon.locked ==> b.mon.queue == []
  {
    hide Contents, RingOk;
  }

  /** In every reachable state: the bytes sent are the bytes received followed by the bytes in the
      ring; and no wakeup is lost, since every task blocked on a condition still has to wait. */
  lemma EveryInterleaving(buff: seq<Byte>, turns: seq<Turn>)
    requires |buff| == MAX_MBOX_LENGTH && RunOk(Empty(buff), turns)
    ensures var b := RunBox(Empty(buff), turns);
            && RingOk(b.ring) && b.sent == b.received + Contents(b.ring)
            && (forall t: nat | t in CondQueue(b.mon, NOT_EMPTY) :: t in b.ops && b.ops[t].Recv? && b.ops[t].len > b.ring.used)
            && (forall t: nat | t in CondQueue(b.mon, NOT_FULL) :: t in b.ops && b.ops[t].Send? && |b.ops[t].msg| > MAX_MBOX_LENGTH - b.ring.used)
            && (!b.mon.locked ==> b.mon.queue == [])
  {
    hide Good, RunBox, RunOk, Contents, RingOk, CondQueue;
    EmptyGood(buff);
    RunGood(Empty(buff), turns);
    GoodMeans(RunBox(Empty(buff), turns));
  }
}
