/**
 open and close (fs/fs.c:797-846, 986-1001): a process's descriptors name
 slots of the global table, and a slot holds its own copy of the inode from
 open to close. FileSystem works on the inode each open file sees.
 */
module FileTable {
  import opened Wrappers
  import opened FileMap
  import opened Partition

  const GLOBAL_MAX_FILES: nat := 64
  const MAX_FILES: nat := 32

  datatype Slot = Unused | Using(inode: nat, copy: Inode, offset: nat)

  datatype Table = Table(disk: seq<Inode>, slots: seq<Slot>, fds: seq<Option<nat>>)

  /** Descriptors name slots in use, each at most one; a slot in use names an inode. */
  ghost predicate Valid(t: Table) {
    && |t.slots| == GLOBAL_MAX_FILES && |t.fds| == MAX_FILES
    && (forall s | 0 <= s < |t.slots| && t.slots[s].Using? :: t.slots[s].inode < |t.disk|)
    && (forall d | 0 <= d < |t.fds| && t.fds[d].Some? :: t.fds[d].value < |t.slots| && t.slots[t.fds[d].value].Using?)
    && (forall d, e | 0 <= d < |t.fds| && 0 <= e < |t.fds| && d != e && t.fds[d].Some? :: t.fds[d] != t.fds[e])
  }

  /** No inode is open twice. */
  predicate Single(t: Table) {
    forall s, r | 0 <= s < |t.slots| && 0 <= r < |t.slots| && s != r && t.slots[s].Using? && t.slots[r].Using? :: t.slots[s].inode != t.slots[r].inode
  }

  predicate IsOpen(t: Table, i: nat) {
    exists s | 0 <= s < |t.slots| :: t.slots[s].Using? && t.slots[s].inode == i
  }

  function FreeSlot(t: Table, s: nat): (r: Option<nat>)
    ensures r.Some? ==> s <= r.value < |t.slots| && t.slots[r.value].Unused? && forall k | s <= k < r.value :: t.slots[k].Using?
    ensures r.None? ==> forall k | s <= k < |t.slots| :: t.slots[k].Using?
    decreases |t.slots| - s
  {
    if s >= |t.slots| then None else if t.slots[s].Unused? then Some(s) else FreeSlot(t, s + 1)
  }

  function FreeFd(t: Table, d: nat): (r: Option<nat>)
    ensures r.Some? ==> d <= r.value < |t.fds| && t.fds[r.value].None? && forall k | d <= k < r.value :: t.fds[k].Some?
    ensures r.None? ==> forall k | d <= k < |t.fds| :: t.fds[k].Some?
    decreases |t.fds| - d
  {
    if d >= |t.fds| then None else if t.fds[d].None? then Some(d) else FreeFd(t, d + 1)
  }

  /** open of a path that do_find has resolved to `found`; None stands for -1. */
  function Open(t: Table, found: Option<nat>): (r: (Table, Option<nat>))
    requires found.Some? ==> found.value < |t.disk|
  {
    var s, d := FreeSlot(t, 0), FreeFd(t, 0);
    if s.None? || d.None? || found.None? then (t, None)
    else (t.(slots := t.slots[s.value := Using(found.value, t.disk[found.value], 0)], fds := t.fds[d.value := s]), d)
  }

  /** What close does to a slot in use, whichever process has it open: the copy goes back to the disk. */
  function CloseSlot(t: Table, s: nat): Table {
    if s < |t.slots| && t.slots[s].Using? && t.slots[s].inode < |t.disk| then
      t.(disk := t.disk[t.slots[s].inode := t.slots[s].copy], slots := t.slots[s := Unused])
    else t
  }

  /** close. */
  function Close(t: Table, d: nat): Table
    requires Valid(t) && d < MAX_FILES && t.fds[d].Some?
  {
    CloseSlot(t, t.fds[d].value).(fds := t.fds[d := None])
  }

  predicate LeastFree(t: Table, s: nat, d: nat) {
    && s < |t.slots| && t.slots[s].Unused? && (forall r | 0 <= r < s :: t.slots[r].Using?)
    && d < |t.fds| && t.fds[d].None? && (forall e | 0 <= e < d :: t.fds[e].Some?)
  }

  /** open fails, and changes nothing, exactly where the path leads nowhere or a slot or a descriptor is missing; else
      the least free descriptor names the least free slot, and nothing else changes. */
  lemma OpenExact(t: Table, found: Option<nat>)
    requires Valid(t) && (found.Some? ==> found.value < |t.disk|)
    ensures var (n, fd) := Open(t, found);
            && (fd.Some? <==> found.Some? && (exists s :: 0 <= s < |t.slots| && t.slots[s].Unused?) && exists d :: 0 <= d < |t.fds| && t.fds[d].None?)
            && (fd.None? ==> n == t)
            && n.disk == t.disk && |n.slots| == |t.slots| && |n.fds| == |t.fds|
            && (forall s: nat, d: nat | found.Some? && LeastFree(t, s, d) ::
                 && fd == Some(d) && n.fds[d] == Some(s) && n.slots[s] == Using(found.value, t.disk[found.value], 0)
                 && (forall r: nat | r < |t.slots| && r != s :: n.slots[r] == t.slots[r]) && (forall e: nat | e < |t.fds| && e != d :: n.fds[e] == t.fds[e]))
  {
    hide FreeSlot, FreeFd;
    var s0, d0 := FreeSlot(t, 0), FreeFd(t, 0);
    assert s0.Some? <==> exists s :: 0 <= s < |t.slots| && t.slots[s].Unused?;
    assert d0.Some? <==> exists d :: 0 <= d < |t.fds| && t.fds[d].None?;
    forall s: nat, d: nat | found.Some? && LeastFree(t, s, d)
      ensures s0 == Some(s) && d0 == Some(d)
    {
      OnlyLeast(t, s, d);
    }
  }

  lemma OnlyLeast(t: Table, s: nat, d: nat)
    requires LeastFree(t, s, d)
    ensures FreeSlot(t, 0) == Some(s) && FreeFd(t, 0) == Some(d)
  {
    hide FreeSlot, FreeFd;
    var a, b := FreeSlot(t, 0), FreeFd(t, 0);
    assert a.Some? && !(a.value < s) && !(s < a.value);
    assert b.Some? && !(b.value < d) && !(d < b.value);
  }

  /** close frees the descriptor and its slot and puts the copy back, and changes nothing else. */
  lemma CloseExact(t: Table, d: nat)
    requires Valid(t) && d < MAX_FILES && t.fds[d].Some?
    ensures var n, s := Close(t, d), t.fds[d].value;
            && |n.disk| == |t.disk| && |n.slots| == |t.slots| && |n.fds| == |t.fds|
            && n.fds[d].None? && (forall e: nat | e < |t.fds| && e != d :: n.fds[e] == t.fds[e])
            && n.slots[s].Unused? && (forall r: nat | r < |t.slots| && r != s :: n.slots[r] == t.slots[r])
            && (forall i: nat | i < |t.disk| :: n.disk[i] == if i == t.slots[s].inode then t.slots[s].copy else t.disk[i])
  {
  }

  /** Slots closed one after the other. */
  function CloseSlots(t: Table, rest: seq<nat>): Table
    decreases |rest|
  {
    if rest == [] then t else CloseSlots(CloseSlot(t, rest[0]), rest[1..])
  }

  /** What read and write do to an open file's copy and offset. */
  function Update(t: Table, s: nat, copy: Inode, offset: nat): Table
    requires s < |t.slots| && t.slots[s].Using?
  {
    t.(slots := t.slots[s := t.slots[s].(copy := copy, offset := offset)])
  }

  /** An inode as its user sees it: the open copy, if there is one. */
  ghost function View(t: Table, i: nat): Inode
    requires i < |t.disk|
  {
    if IsOpen(t, i) then
      var s: nat :| s < |t.slots| && t.slots[s].Using? && t.slots[s].inode == i;
      t.slots[s].copy
    else t.disk[i]
  }

  lemma ViewOfSlot(t: Table, s: nat)
    requires Valid(t) && Single(t) && s < |t.slots| && t.slots[s].Using?
    ensures View(t, t.slots[s].inode) == t.slots[s].copy
  {
    var i := t.slots[s].inode;
    assert IsOpen(t, i);
  }

  /** The view of an inode that slot `s` has nothing to do with. */
  lemma ViewKept(t: Table, n: Table, s: nat, j: nat)
    requires Valid(t) && Single(t) && Valid(n) && Single(n) && j < |t.disk| && j < |n.disk| && n.disk[j] == t.disk[j]
    requires forall r | 0 <= r < GLOBAL_MAX_FILES && r != s :: n.slots[r] == t.slots[r]
    requires s < GLOBAL_MAX_FILES && (t.slots[s].Using? ==> t.slots[s].inode != j) && (n.slots[s].Using? ==> n.slots[s].inode != j)
    ensures View(n, j) == View(t, j)
  {
    if IsOpen(t, j) {
      var r: nat :| r < |t.slots| && t.slots[r].Using? && t.slots[r].inode == j;
      assert n.slots[r] == t.slots[r];
      ViewOfSlot(t, r);
      ViewOfSlot(n, r);
    } else {
      assert !IsOpen(n, j);
    }
  }

  /** Reading and writing through one open file changes only how its own inode is seen. */
  lemma UpdateView(t: Table, s: nat, copy: Inode, offset: nat)
    requires Valid(t) && Single(t) && s < GLOBAL_MAX_FILES && t.slots[s].Using?
    ensures var n := Update(t, s, copy, offset);
            && Valid(n) && Single(n) && n.disk == t.disk && n.fds == t.fds
            && forall j: nat | j < |t.disk| :: View(n, j) == if j == t.slots[s].inode then copy else View(t, j)
  {
    var n := Update(t, s, copy, offset);
    ViewOfSlot(n, s);
    forall j: nat | j < |t.disk| && j != t.slots[s].inode
      ensures View(n, j) == View(t, j)
    {
      ViewKept(t, n, s, j);
    }
  }

  lemma NotSeen(t: Table, i: nat)
    requires i < |t.disk| && !IsOpen(t, i)
    ensures View(t, i) == t.disk[i]
  {
  }

  lemma OpenValid(t: Table, i: nat)
    requires Valid(t) && Single(t) && i < |t.disk| && !IsOpen(t, i)
    ensures var n := Open(t, Some(i)).0; Valid(n) && Single(n) && |n.disk| == |t.disk|
  {
    hide FreeSlot, FreeFd;
  }

  /** Opening an inode that is not open changes nobody's view and gives the new file the inode as it stands. */
  lemma OpenKeepsViews(t: Table, i: nat)
    requires Valid(t) && Single(t) && i < |t.disk| && !IsOpen(t, i)
    ensures var (n, fd) := Open(t, Some(i));
            && Valid(n) && Single(n) && |n.disk| == |t.disk|
            && (forall j: nat | j < |t.disk| :: View(n, j) == View(t, j))
            && (fd.Some? ==> fd.value < MAX_FILES && n.fds[fd.value].Some? && n.slots[n.fds[fd.value].value] == Using(i, View(t, i), 0))
  {
    hide Single, IsOpen, FreeSlot, FreeFd, View;
    var (n, fd) := Open(t, Some(i));
    OpenValid(t, i);
    NotSeen(t, i);
    if fd.Some? {
      var s := n.fds[fd.value].value;
      assert forall r | 0 <= r < |t.slots| && r != s :: n.slots[r] == t.slots[r];
      forall j: nat | j < |t.disk|
        ensures View(n, j) == View(t, j)
      {
        if j == i {
          ViewOfSlot(n, s);
        } else {
          ViewKept(t, n, s, j);
        }
      }
    }
  }

  /** Closing a file whose inode is open once changes nobody's view: what was done to the copy is on disk. */
  lemma CloseKeepsViews(t: Table, d: nat)
    requires Valid(t) && Single(t) && d < MAX_FILES && t.fds[d].Some?
    ensures var n, s := Close(t, d), t.fds[d].value;
            && Valid(n) && Single(n) && |n.disk| == |t.disk|
            && (forall j: nat | j < |t.disk| :: View(n, j) == View(t, j))
            && n.disk[t.slots[s].inode] == t.slots[s].copy && !IsOpen(n, t.slots[s].inode)
  {
    var n, s := Close(t, d), t.fds[d].value;
    var i := t.slots[s].inode;
    assert forall r | 0 <= r < |t.slots| && r != s :: n.slots[r] == t.slots[r];
    assert !IsOpen(n, i);
    ViewOfSlot(t, s);
    forall j: nat | j < |t.disk| && j != i
      ensures View(n, j) == View(t, j)
    {
      ViewKept(t, n, s, j);
    }
  }

  /** Close and open again: the file comes back as it was left, at offset 0. */
  lemma ReopenSeesAll(t: Table, d: nat)
    requires Valid(t) && Single(t) && d < MAX_FILES && t.fds[d].Some?
    ensures var s := t.fds[d].value;
            var (n, fd) := Open(Close(t, d), Some(t.slots[s].inode));
            fd.Some? && fd.value < MAX_FILES && n.fds[fd.value].Some? && n.slots[n.fds[fd.value].value] == Using(t.slots[s].inode, t.slots[s].copy, 0)
  {
    CloseKeepsViews(t, d);
    var c, s := Close(t, d), t.fds[d].value;
    OpenKeepsViews(c, t.slots[s].inode);
    assert c.slots[s].Unused? && c.fds[d].None?;
  }

  // ----- an inode open twice -----

  /** Of the slots in the list that hold inode `i`, the copy of the last. */
  function Landing(slots: seq<Slot>, rest: seq<nat>, i: nat): Option<Inode>
    decreases |rest|
  {
    if rest == [] then None
    else
      var later := Landing(slots, rest[1..], i);
      if later.Some? then later
      else if rest[0] < |slots| && slots[rest[0]].Using? && slots[rest[0]].inode == i then Some(slots[rest[0]].copy)
      else None
  }

  lemma {:induction false} LandingSame(a: seq<Slot>, b: seq<Slot>, rest: seq<nat>, i: nat)
    requires |a| == |b| && forall r | r in rest && r < |a| :: a[r] == b[r]
    ensures Landing(a, rest, i) == Landing(b, rest, i)
    decreases |rest|
  {
    if rest == [] {
    } else {
      assert forall r | r in rest[1..] :: r in rest;
      LandingSame(a, b, rest[1..], i);
      assert rest[0] in rest;
    }
  }

  /** Closing the slots of a list leaves inode `i` as the last of them has it. */
  lemma {:induction false} CloseSlotsLands(t: Table, rest: seq<nat>, i: nat)
    requires i < |t.disk| && NoDup(rest)
    ensures |CloseSlots(t, rest).disk| == |t.disk|
    ensures var l := Landing(t.slots, rest, i); CloseSlots(t, rest).disk[i] == if l.Some? then l.value else t.disk[i]
    decreases |rest|
  {
    if rest == [] {
    } else {
      NoDupTail(rest);
      var c := CloseSlot(t, rest[0]);
      CloseSlotsLands(c, rest[1..], i);
      LandingSame(t.slots, c.slots, rest[1..], i);
    }
  }

  lemma {:induction false} LandingFound(slots: seq<Slot>, rest: seq<nat>, i: nat)
    ensures Landing(slots, rest, i).Some? <==> exists r :: r in rest && r < |slots| && slots[r].Using? && slots[r].inode == i
    decreases |rest|
  {
    if rest == [] {
    } else {
      LandingFound(slots, rest[1..], i);
      assert forall r :: r in rest <==> r == rest[0] || r in rest[1..];
    }
  }

  /** No slot but `s` holds the inode that `s` holds. */
  predicate Sole(t: Table, s: nat) {
    s < |t.slots| && t.slots[s].Using? &&
    forall r | 0 <= r < |t.slots| && r != s && t.slots[r].Using? :: t.slots[r].inode != t.slots[s].inode
  }

  /** Whatever is done through slot `s` survives its close and the close of all other files, in any order
      `rest`, exactly when no other slot holds the inode. */
  lemma LastCloseWins(t: Table, s: nat, rest: seq<nat>)
    requires Valid(t) && s < GLOBAL_MAX_FILES && t.slots[s].Using? && s !in rest && NoDup(rest)
    requires forall r | 0 <= r < GLOBAL_MAX_FILES && r != s && t.slots[r].Using? :: r in rest
    ensures (forall copy: Inode, offset: nat :: Survives(t, s, rest, copy, offset)) <==> Sole(t, s)
  {
    var i := t.slots[s].inode;
    LandingFound(t.slots, rest, i);
    forall copy: Inode, offset: nat
      ensures Survives(t, s, rest, copy, offset) <==> Landing(t.slots, rest, i).None? || Landing(t.slots, rest, i) == Some(copy)
    {
      var c := CloseSlot(Update(t, s, copy, offset), s);
      CloseSlotsLands(c, rest, i);
      LandingSame(t.slots, c.slots, rest, i);
    }
    if Landing(t.slots, rest, i).Some? {
      var other := Landing(t.slots, rest, i).value;
      assert !Survives(t, s, rest, other.(size := other.size + 1), 0);
    }
  }

  /** After `copy` is put in slot `s`, which is closed, and then the rest, the disk has `copy`. */
  ghost predicate Survives(t: Table, s: nat, rest: seq<nat>, copy: Inode, offset: nat)
    requires Valid(t) && s < GLOBAL_MAX_FILES && t.slots[s].Using?
  {
    var i, n := t.slots[s].inode, CloseSlots(CloseSlot(Update(t, s, copy, offset), s), rest);
    i < |n.disk| && n.disk[i] == copy
  }

  /** What a caller can check: an open keeps every slot the only one of its inode exactly when the inode was not open. */
  lemma OpenKeepsSole(t: Table, i: nat)
    requires Valid(t) && Single(t) && i < |t.disk| && Open(t, Some(i)).1.Some?
    ensures var (n, fd) := Open(t, Some(i));
            && Valid(n) && fd.value < MAX_FILES && n.fds[fd.value].Some?
            && (Sole(n, n.fds[fd.value].value) <==> !IsOpen(t, i)) && (Single(n) <==> !IsOpen(t, i))
  {
    var (n, fd) := Open(t, Some(i));
    var s := n.fds[fd.value].value;
    assert forall r | 0 <= r < |t.slots| && r != s :: n.slots[r] == t.slots[r];
    assert n.slots[s].Using? && n.slots[s].inode == i;
    if IsOpen(t, i) {
      var r: nat :| r < |t.slots| && t.slots[r].Using? && t.slots[r].inode == i;
      assert n.slots[r] == t.slots[r];
    } else {
      OpenKeepsViews(t, i);
    }
  }

  /** The write that is lost: a process opens a file twice, allocates through the first descriptor, and closes
      that, then the other: the inode is on disk as it was before. */
  lemma TwoOpensLoseWrite(disk: seq<Inode>, copy: Inode)
    requires 0 < |disk| && copy != disk[0]
    ensures var t0 := Table(disk, seq(GLOBAL_MAX_FILES, _ => Unused), seq(MAX_FILES, _ => None));
            var (t1, d) := Open(t0, Some(0));
            var (t2, e) := Open(t1, Some(0));
            && d == Some(0) && e == Some(1) && Valid(t2) && t2.fds[0] == Some(0) && t2.slots[0].Using?
            && var t3 := Update(t2, 0, copy, 0);
               && Valid(t3)
               && Valid(Close(t3, 0)) && Close(t3, 0).disk[0] == copy && Close(t3, 0).fds[1].Some?
               && Close(Close(t3, 0), 1).disk == disk
  {
    var t0 := Table(disk, seq(GLOBAL_MAX_FILES, _ => Unused), seq(MAX_FILES, _ => None));
    var (t1, d) := Open(t0, Some(0));
    assert FreeSlot(t1, 0) == FreeSlot(t1, 1) == Some(1) && FreeFd(t1, 0) == FreeFd(t1, 1) == Some(1);
    var (t2, e) := Open(t1, Some(0));
    var t4 := Close(Update(t2, 0, copy, 0), 0);
    assert t4.slots[1] == Using(0, disk[0], 0);
    assert disk[0 := copy][0 := disk[0]] == disk;
  }

  // ----- in place -----

  class Files {
    var disk: seq<Inode>
    var slots: seq<Slot>
    var fds: seq<Option<nat>>

    ghost function State(): Table
      reads this
    {
      Table(disk, slots, fds)
    }

    /** open, with its two searches and their order. */
    method DoOpen(found: Option<nat>) returns (fd: int)
      requires Valid(State()) && (found.Some? ==> found.value < |disk|)
      modifies this
      ensures State() == Open(old(State()), found).0
      ensures fd == match Open(old(State()), found).1 case Some(d) => d as int case None => -1
    {
      var s := 0;
      while s < GLOBAL_MAX_FILES && slots[s].Using?
        invariant s <= GLOBAL_MAX_FILES && FreeSlot(State(), 0) == FreeSlot(State(), s)
      {
        s := s + 1;
      }
      if s == GLOBAL_MAX_FILES { return -1; }
      var d := 0;
      while d < MAX_FILES && fds[d].Some?
        invariant d <= MAX_FILES && FreeFd(State(), 0) == FreeFd(State(), d)
      {
        d := d + 1;
      }
      if d == MAX_FILES || found.None? { return -1; }
      slots := slots[s := Using(found.value, disk[found.value], 0)];
      fds := fds[d := Some(s)];
      fd := d;
    }

    /** close. */
    method DoClose(d: nat)
      requires Valid(State()) && d < MAX_FILES && fds[d].Some?
      modifies this
      ensures State() == Close(old(State()), d)
    {
      var s := fds[d].value;
      disk := disk[slots[s].inode := slots[s].copy];
      fds := fds[d := None];
      slots := slots[s := Unused];
    }
  }
}
