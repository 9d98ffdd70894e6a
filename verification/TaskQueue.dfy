/**
 The intrusive doubly linked queue of PCBs (kernel/sched/queue.c), refined to
 a sequence, and the two loops that delete from a queue while walking it
 (kernel/sched/sched.c:189-208, 225-247).
 */
module TaskQueue {
  import opened Partition

  const UINT32: nat := 0x1_0000_0000

  datatype Status = NoTask | Sleeping | Blocked | Running | Ready | Exited

  class Pcb {
    var prev: Pcb?
    var next: Pcb?
    var inQueue: Queue?
    var status: Status
    var sleepUntil: nat
    var waitpid: nat
  }

  ghost function Elements(s: seq<Pcb>): set<Pcb> {
    set p | p in s
  }

  /** All but element `k`. */
  ghost function Cut(s: seq<Pcb>, k: nat): (r: seq<Pcb>)
    requires k < |s|
    ensures |r| == |s| - 1 && (forall i | 0 <= i < k :: r[i] == s[i]) && (forall i | k <= i < |r| :: r[i] == s[i + 1])
  {
    s[..k] + s[k + 1..]
  }

  lemma CutFacts(s: seq<Pcb>, k: nat)
    requires k < |s| && NoDup(s)
    ensures NoDup(Cut(s, k)) && Elements(Cut(s, k)) == Elements(s) - {s[k]}
  {
    var r := Cut(s, k);
    assert forall i | 0 <= i < |s| && i != k :: s[i] == r[if i < k then i else i - 1];
  }

  class Queue {
    var head: Pcb?
    var tail: Pcb?
    ghost var items: seq<Pcb>
    ghost var nodes: set<Pcb>

    /** head, tail and the links spell out `items`, forwards and backwards. */
    ghost predicate Valid()
      reads this, nodes`next, nodes`prev
    {
      && nodes == Elements(items) && NoDup(items)
      && (items == [] ==> head == null && tail == null)
      && (items != [] ==>
            && head == items[0] && tail == items[|items| - 1]
            && items[0].prev == null && items[|items| - 1].next == null
            && (forall i {:trigger items[i].next} | 0 <= i < |items| - 1 :: items[i].next == items[i + 1])
            && (forall i {:trigger items[i].prev} | 1 <= i < |items| :: items[i].prev == items[i - 1]))
    }

    ghost function Last(): set<Pcb>
      reads this
    {
      if items == [] then {} else {items[|items| - 1]}
    }

    /** queue_init. */
    constructor ()
      ensures Valid() && items == []
    {
      head, tail, items, nodes := null, null, [], {};
    }

    /** queue_is_empty. */
    method IsEmpty() returns (empty: bool)
      requires Valid()
      ensures empty <==> items == []
    {
      empty := head == null;
    }

    /** queue_push: appends; only the new and the former last node are written. */
    method Push(item: Pcb)
      requires Valid() && item !in items
      modifies this, item`next, item`prev, Last()`next
      ensures Valid() && items == old(items) + [item] && nodes == old(nodes) + {item}
    {
      if head == null {
        head, tail := item, item;
        item.next, item.prev := null, null;
      } else {
        tail.next := item;
        item.next, item.prev := null, tail;
        tail := item;
      }
      items, nodes := items + [item], nodes + {item};
    }

    /** queue_dequeue: takes the head of a non-empty queue. */
    method Dequeue() returns (item: Pcb)
      requires Valid() && items != []
      modifies this, nodes`next, nodes`prev
      ensures Valid() && item == old(items)[0] && items == old(items)[1..] && nodes == old(nodes) - {item}
      ensures item.next == null && item.prev == null
    {
      item := head;
      if item.next == null {
        head, tail := null, null;
      } else {
        head := head.next;
        head.prev := null;
      }
      item.prev, item.next := null, null;
      items, nodes := items[1..], nodes - {item};
    }

    /** queue_remove: unlinks a node anywhere in the queue and returns its successor. */
    method Remove(item: Pcb, ghost k: nat) returns (next: Pcb?)
      requires Valid() && k < |items| && items[k] == item
      modifies this, nodes`next, nodes`prev
      ensures Valid() && items == Cut(old(items), k) && nodes == old(nodes) - {item}
      ensures next == if k + 1 < |old(items)| then old(items)[k + 1] else null
      ensures item.next == null && item.prev == null
    {
      hide Cut;
      CutFacts(items, k);
      next := item.next;
      if item == head && item == tail {
        head, tail := null, null;
      } else if item == head {
        head := item.next;
        head.prev := null;
      } else if item == tail {
        tail := item.prev;
        tail.next := null;
      } else {
        item.prev.next := item.next;
        item.next.prev := item.prev;
      }
      item.prev, item.next := null, null;
      items, nodes := Cut(items, k), nodes - {item};
    }
  }

  // ----- walking a queue while deleting from it -----

  /** What a walk over `was` has left in the queue after `i` visits. */
  ghost function Left(was: seq<Pcb>, due: set<Pcb>, i: nat): seq<Pcb>
    requires i <= |was|
  {
    Drop(was[..i], due) + was[i..]
  }

  /** What the other queue holds by then. */
  ghost function After(r0: seq<Pcb>, was: seq<Pcb>, due: set<Pcb>, i: nat): seq<Pcb>
    requires i <= |was|
  {
    r0 + Pick(was[..i], due)
  }

  ghost function At(s: seq<Pcb>, i: nat): (p: Pcb?)
    ensures p == null <==> i >= |s|
  {
    if i < |s| then s[i] else null
  }

  lemma WalkStarts(was: seq<Pcb>, r0: seq<Pcb>, due: set<Pcb>)
    ensures Left(was, due, 0) == was && After(r0, was, due, 0) == r0
  {
  }

  lemma WalkEnds(was: seq<Pcb>, r0: seq<Pcb>, due: set<Pcb>)
    ensures Left(was, due, |was|) == Drop(was, due) && After(r0, was, due, |was|) == r0 + Pick(was, due)
  {
    assert was[..|was|] == was;
  }

  lemma WalkStep(was: seq<Pcb>, r0: seq<Pcb>, due: set<Pcb>, i: nat) returns (k: nat)
    requires i < |was|
    ensures var l := Left(was, due, i);
            && k < |l| && l[k] == was[i] && At(l, k + 1) == At(was, i + 1)
            && Left(was, due, i + 1) == if was[i] in due then l[..k] + l[k + 1..] else l
    ensures After(r0, was, due, i + 1) == After(r0, was, due, i) + if was[i] in due then [was[i]] else []
  {
    assert was[..i + 1][..i] == was[..i];
    assert was[i..] == [was[i]] + was[i + 1..];
    k := |Drop(was[..i], due)|;
  }

  ghost predicate Apart(a: Queue, b: Queue)
    reads a, b
  {
    a != b && a.nodes !! b.nodes
  }

  /** Every task in the queue is marked as being in it, with the status that goes with it. */
  ghost predicate Agree(q: Queue, st: Status)
    reads q, q.nodes
  {
    forall p | p in q.nodes :: p.status == st && p.inQueue == q
  }

  /** A queue of tasks of status `st` and the ready queue, both well formed, marked and apart. */
  ghost predicate Separate(a: Queue, st: Status, ready: Queue)
    reads a, ready, a.nodes, ready.nodes
  {
    a.Valid() && ready.Valid() && Apart(a, ready) && Agree(a, st) && Agree(ready, Ready)
  }

  /** A queue none of whose nodes was relinked is still the same queue. */
  twostate lemma StillValid(q: Queue)
    requires old(q.Valid()) && q.items == old(q.items) && q.nodes == old(q.nodes)
    requires q.head == old(q.head) && q.tail == old(q.tail)
    requires forall p | p in q.nodes :: p.next == old(p.next) && p.prev == old(p.prev)
    ensures q.Valid()
  {
    assert forall i | 0 <= i < |q.items| :: q.items[i] in q.nodes;
  }

  /** Moves the k-th task of `from` to the end of `to`; only links are written. */
  method Relink(from: Queue, to: Queue, item: Pcb, ghost k: nat) returns (next: Pcb?)
    requires from.Valid() && to.Valid() && Apart(from, to) && k < |from.items| && from.items[k] == item
    modifies from, to, from.nodes`next, from.nodes`prev, to.nodes`next
    ensures from.Valid() && to.Valid() && Apart(from, to)
    ensures from.items == old(from.items)[..k] + old(from.items)[k + 1..] && to.items == old(to.items) + [item]
    ensures from.nodes == old(from.nodes) - {item} && to.nodes == old(to.nodes) + {item} && item in old(from.nodes)
    ensures next == At(old(from.items), k + 1) && (next != null ==> next in from.nodes)
  {
    next := from.Remove(item, k);
    StillValid(to);
    label removed:
    to.Push(item);
    StillValid@removed(from);
  }

  /** ... and marks it READY there. */
  method MoveToReady(from: Queue, to: Queue, item: Pcb, ghost st: Status, ghost k: nat) returns (next: Pcb?)
    requires Separate(from, st, to) && k < |from.items| && from.items[k] == item
    modifies from, to, from.nodes`next, from.nodes`prev, to.nodes`next, item`status, item`inQueue
    ensures Separate(from, st, to)
    ensures from.items == old(from.items)[..k] + old(from.items)[k + 1..] && to.items == old(to.items) + [item]
    ensures from.nodes == old(from.nodes) - {item} && to.nodes == old(to.nodes) + {item}
    ensures next == At(old(from.items), k + 1) && (next != null ==> next in from.nodes)
  {
    hide Queue.Valid;
    next := Relink(from, to, item, k);
    item.status := Ready;
    item.inQueue := to;
  }

  /** Why a walk wakes tasks: their deadline has passed, or the process they wait for is gone. */
  datatype Cause = Deadline(now: nat) | Gone(pid: nat)

  predicate IsDue(p: Pcb, c: Cause)
    reads p`sleepUntil, p`waitpid
  {
    match c
    case Deadline(now) => p.sleepUntil < now
    case Gone(pid) => p.waitpid == pid
  }

  ghost function Due(q: Queue, c: Cause): (d: set<Pcb>)
    reads q, q.nodes
  {
    set p | p in q.nodes && IsDue(p, c)
  }

  /** The state of a wake loop before its i-th visit, of `item`. */
  ghost predicate Walking(from: Queue, to: Queue, st: Status, was: seq<Pcb>, r0: seq<Pcb>, due: set<Pcb>, i: nat, item: Pcb?)
    reads from, to, from.nodes, to.nodes
  {
    && Separate(from, st, to) && i <= |was| && item == At(was, i) && (item != null ==> item in from.nodes)
    && from.items == Left(was, due, i) && to.items == After(r0, was, due, i)
  }

  lemma WalkBegins(from: Queue, to: Queue, st: Status, due: set<Pcb>)
    requires Separate(from, st, to)
    ensures Walking(from, to, st, from.items, to.items, due, 0, from.head) && (from.head != null ==> from.head in from.nodes)
  {
    WalkStarts(from.items, to.items, due);
  }

  lemma VisitStands(from: Queue, to: Queue, st: Status, was: seq<Pcb>, r0: seq<Pcb>, due: set<Pcb>, i: nat, item: Pcb) returns (k: nat)
    requires Walking(from, to, st, was, r0, due, i, item)
    ensures i < |was| && k < |from.items| && from.items[k] == item == was[i]
    ensures item.next == At(was, i + 1) && At(from.items, k + 1) == At(was, i + 1) && (item.next != null ==> item.next in from.nodes)
    ensures Left(was, due, i + 1) == if item in due then from.items[..k] + from.items[k + 1..] else from.items
    ensures After(r0, was, due, i + 1) == to.items + if item in due then [item] else []
  {
    hide Agree, Apart, Left, After, Pick, Drop, NoDup;
    k := WalkStep(was, r0, due, i);
    assert k + 1 < |from.items| ==> from.items[k + 1] in from.nodes;
  }

  /** One iteration of a wake loop: the task goes or stays, and the walk moves on. */
  method Visit(from: Queue, to: Queue, item: Pcb, wake: bool, ghost st: Status, ghost was: seq<Pcb>, ghost r0: seq<Pcb>, ghost due: set<Pcb>, ghost i: nat)
    returns (next: Pcb?)
    requires Walking(from, to, st, was, r0, due, i, item) && (wake <==> item in due)
    modifies from, to, from.nodes`next, from.nodes`prev, to.nodes`next, item`status, item`inQueue
    ensures Walking(from, to, st, was, r0, due, i + 1, next)
    ensures from.nodes <= old(from.nodes) && to.nodes <= old(to.nodes) + {item}
  {
    ghost var k := VisitStands(from, to, st, was, r0, due, i, item);
    hide Left, After, Queue.Valid, Separate, NoDup;
    if wake {
      next := MoveToReady(from, to, item, st, k);
    } else {
      next := item.next;
    }
  }

  /** The loop that check_sleeping and free_proc share. */
  method WakeLoop(from: Queue, ready: Queue, c: Cause, ghost st: Status, ghost was: seq<Pcb>, ghost r0: seq<Pcb>, ghost due: set<Pcb>)
    requires Walking(from, ready, st, was, r0, due, 0, from.head) && due == Due(from, c)
    modifies from, ready, from.nodes`next, from.nodes`prev, from.nodes`status, from.nodes`inQueue, ready.nodes`next
    ensures Walking(from, ready, st, was, r0, due, |was|, null)
  {
    hide Walking, Separate;
    ghost var all, more := from.nodes, from.nodes + ready.nodes;
    ghost var i := 0;
    var item := from.head;
    while item != null
      invariant Walking(from, ready, st, was, r0, due, i, item)
      invariant from.nodes <= all && ready.nodes <= more
      decreases |was| - i
    {
      AtVisit(from, ready, st, was, r0, due, i, item);
      item := Visit(from, ready, item, IsDue(item, c), st, was, r0, due, i);
      i := i + 1;
    }
    AtEnd(from, ready, st, was, r0, due, i);
  }

  lemma AtVisit(from: Queue, to: Queue, st: Status, was: seq<Pcb>, r0: seq<Pcb>, due: set<Pcb>, i: nat, item: Pcb)
    requires Walking(from, to, st, was, r0, due, i, item)
    ensures i < |was| && item in from.nodes
  {
    hide Separate, Left, After;
  }

  lemma AtEnd(from: Queue, to: Queue, st: Status, was: seq<Pcb>, r0: seq<Pcb>, due: set<Pcb>, i: nat)
    requires Walking(from, to, st, was, r0, due, i, null)
    ensures i == |was|
  {
    hide Separate, Left, After;
  }

  /** It wakes exactly the tasks that are due, in order. */
  method WakeAll(from: Queue, ready: Queue, c: Cause, ghost st: Status)
    requires Separate(from, st, ready)
    modifies from, ready, from.nodes`next, from.nodes`prev, from.nodes`status, from.nodes`inQueue, ready.nodes`next
    ensures Separate(from, st, ready)
    ensures ready.items == old(ready.items) + Pick(old(from.items), old(Due(from, c)))
    ensures from.items == Drop(old(from.items), old(Due(from, c)))
  {
    hide Separate;
    WalkBegins(from, ready, st, Due(from, c));
    WalkEnds(from.items, ready.items, Due(from, c));
    WakeLoop(from, ready, c, st, from.items, ready.items, Due(from, c));
  }

  /** check_sleeping, which keeps the low 32 bits of the timer. */
  method WakeSleepers(sleep: Queue, ready: Queue, timer: nat)
    requires Separate(sleep, Sleeping, ready)
    modifies sleep, ready, sleep.nodes`next, sleep.nodes`prev, sleep.nodes`status, sleep.nodes`inQueue, ready.nodes`next
    ensures Separate(sleep, Sleeping, ready)
    ensures ready.items == old(ready.items) + Pick(old(sleep.items), old(Due(sleep, Deadline(timer % UINT32))))
    ensures sleep.items == Drop(old(sleep.items), old(Due(sleep, Deadline(timer % UINT32))))
  {
    hide Separate;
    var now := timer % UINT32;
    WakeAll(sleep, ready, Deadline(now), Sleeping);
  }

  /** The loop in free_proc. */
  method WakeWaiters(waiting: Queue, ready: Queue, pid: nat)
    requires Separate(waiting, Blocked, ready)
    modifies waiting, ready, waiting.nodes`next, waiting.nodes`prev, waiting.nodes`status, waiting.nodes`inQueue, ready.nodes`next
    ensures Separate(waiting, Blocked, ready)
    ensures ready.items == old(ready.items) + Pick(old(waiting.items), old(Due(waiting, Gone(pid))))
    ensures waiting.items == Drop(old(waiting.items), old(Due(waiting, Gone(pid))))
  {
    hide Separate;
    WakeAll(waiting, ready, Gone(pid), Blocked);
  }
}
