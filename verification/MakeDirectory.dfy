/** do_mkdir (fs/fs.c:361-412): what it adds, what it leaves alone, and when it spoils its parent. */
module MakeDirectory {
  import opened Wrappers
  import opened FileGrowth
  import opened Directory

  /** Names come first and empty entries after them. */
  predicate Compact(b: seq<Entry>) {
    forall k, l | 0 <= k < l < |b| :: b[k].name == "" ==> b[l].name == ""
  }

  ghost predicate AllCompact(t: Tree)
    requires WellFormed(t)
  {
    forall i | i in t.used && t.inodes[i].kind == Dir :: Compact(t.blocks[t.inodes[i].addr0])
  }

  function Block(t: Tree, d: nat): (b: seq<Entry>)
    requires WellFormed(t) && d in t.used && t.inodes[d].kind == Dir
    ensures |b| == DENTRY_PER_BLOCK
  {
    t.blocks[t.inodes[d].addr0]
  }

  /** The block of a new directory. */
  function NewDir(i: nat, fa: nat): (b: seq<Entry>)
    ensures |b| == DENTRY_PER_BLOCK && Compact(b)
  {
    [Entry(".", i), Entry("..", fa)] + seq(DENTRY_PER_BLOCK - 2, _ => Entry("", 0))
  }

  /** The writes of do_mkdir once entry `k`, inode `i` and block `a` are chosen. */
  function Added(t: Tree, fa: nat, k: nat, name: string, i: nat, a: nat): Tree
    requires WellFormed(t) && fa in t.used && t.inodes[fa].kind == Dir && k < DENTRY_PER_BLOCK && i < |t.inodes|
  {
    Tree(t.inodes[i := Node(Dir, 1, 1, a)], t.used + {i},
         t.blocks[t.inodes[fa].addr0 := Block(t, fa)[k := Entry(name, i)]][a := NewDir(i, fa)],
         t.usedBlocks + {a}, t.dataStart, t.size)
  }

  /** do_mkdir under a directory. None where the source goes wrong: it writes past a full parent's block,
      or uses an unset id when no inode or no block is free. */
  function Mkdir(t: Tree, fa: nat, name: string): Option<Tree>
    requires WellFormed(t) && fa in t.used && t.inodes[fa].kind == Dir && |name| < NAME_LEN
  {
    match ScanDir(Block(t, fa), name, 0)
    case Found(_) => Some(t)
    case Full => None
    case Empty(k) =>
      if name == "" then Some(t)
      else
        match NextFree(t.used, 0, |t.inodes|)
        case None => None
        case Some(i) =>
          match NextFree(t.usedBlocks, t.dataStart, t.size)
          case None => None
          case Some(a) => Some(Added(t, fa, k, name, i, a))
  }

  /** A name that is new in a parent with room, and the entry, inode and block it gets. */
  ghost predicate Fresh(t: Tree, fa: nat, k: nat, name: string, i: nat, a: nat) {
    && WellFormed(t) && AllCompact(t) && fa in t.used && t.inodes[fa].kind == Dir && name != ""
    && ScanDir(Block(t, fa), name, 0) == Empty(k) && i < |t.inodes| && i !in t.used && a !in t.usedBlocks
  }

  lemma MkdirFresh(t: Tree, fa: nat, name: string)
    requires WellFormed(t) && AllCompact(t) && fa in t.used && t.inodes[fa].kind == Dir && 0 < |name| < NAME_LEN
    requires ScanDir(Block(t, fa), name, 0).Empty? && Mkdir(t, fa, name).Some?
    ensures var k, i, a := ScanDir(Block(t, fa), name, 0).k, NextFree(t.used, 0, |t.inodes|), NextFree(t.usedBlocks, t.dataStart, t.size);
            i.Some? && a.Some? && Fresh(t, fa, k, name, i.value, a.value) && Mkdir(t, fa, name) == Some(Added(t, fa, k, name, i.value, a.value))
  {
  }

  lemma AddedBlocks(t: Tree, fa: nat, k: nat, name: string, i: nat, a: nat)
    requires Fresh(t, fa, k, name, i, a) && WellFormed(Added(t, fa, k, name, i, a))
    ensures var n := Added(t, fa, k, name, i, a);
            && (forall j | j in t.used :: n.inodes[j] == t.inodes[j])
            && (forall j | j in t.used && j != fa && t.inodes[j].kind == Dir :: Block(n, j) == Block(t, j))
            && Block(n, fa) == Block(t, fa)[k := Entry(name, i)] && Block(n, i) == NewDir(i, fa) && n.used == t.used + {i}
  {
    hide Compact, ScanDir;
  }

  lemma StillCompact(b: seq<Entry>, name: string, k: nat, i: nat)
    requires Compact(b) && name != "" && |b| == DENTRY_PER_BLOCK && ScanDir(b, name, 0) == Empty(k)
    ensures Compact(b[k := Entry(name, i)])
  {
  }

  lemma AddedTree(t: Tree, fa: nat, k: nat, name: string, i: nat, a: nat)
    requires Fresh(t, fa, k, name, i, a)
    ensures WellFormed(Added(t, fa, k, name, i, a))
  {
    hide Compact, ScanDir;
    var n := Added(t, fa, k, name, i, a);
    assert forall j | j in t.used :: n.inodes[j] == t.inodes[j];
    assert forall j | j in t.used && j != fa && t.inodes[j].kind == Dir :: n.blocks[t.inodes[j].addr0] == t.blocks[t.inodes[j].addr0];
    assert n.blocks[n.inodes[fa].addr0] == Block(t, fa)[k := Entry(name, i)];
    assert n.blocks[n.inodes[i].addr0] == NewDir(i, fa);
  }

  lemma AddedWellFormed(t: Tree, fa: nat, k: nat, name: string, i: nat, a: nat)
    requires Fresh(t, fa, k, name, i, a)
    ensures var n := Added(t, fa, k, name, i, a); WellFormed(n) && AllCompact(n)
  {
    hide WellFormed, Compact, ScanDir;
    AddedTree(t, fa, k, name, i, a);
    AddedBlocks(t, fa, k, name, i, a);
    StillCompact(Block(t, fa), name, k, i);
  }

  // ----- when it does what -----

  /** mkdir of a name that is there succeeds and changes nothing. */
  lemma MkdirExisting(t: Tree, fa: nat, k: nat, name: string)
    requires WellFormed(t) && fa in t.used && t.inodes[fa].kind == Dir && |name| < NAME_LEN
    requires FirstHit(Block(t, fa), name, k) && Block(t, fa)[k].name == name
    ensures Mkdir(t, fa, name) == Some(t)
  {
    hide WellFormed, ScanDir, NextFree, Added;
    FirstHitUnique(Block(t, fa), name, k);
  }

  predicate LeastOutside(used: set<nat>, lo: nat, hi: nat, r: nat) {
    lo <= r < hi && r !in used && forall j | lo <= j < r :: j in used
  }

  /** Inode `i` and block `a` are now the directory `name` in entry `k` of `fa`, and nothing else differs. */
  ghost predicate OnlyAdds(t: Tree, n: Tree, fa: nat, k: nat, name: string, i: nat, a: nat)
    requires fa < |t.inodes| && t.inodes[fa].addr0 in t.blocks
  {
    var f := t.inodes[fa].addr0;
    && |n.inodes| == |t.inodes| && i < |n.inodes| && n.inodes[i] == Node(Dir, 1, 1, a)
    && (forall j | 0 <= j < |t.inodes| && j != i :: n.inodes[j] == t.inodes[j])
    && n.used == t.used + {i} && n.usedBlocks == t.usedBlocks + {a} && n.dataStart == t.dataStart && n.size == t.size
    && n.blocks.Keys == t.blocks.Keys + {a} && f != a
    && (forall b | b in t.blocks && b != f && b != a :: n.blocks[b] == t.blocks[b])
    && |n.blocks[f]| == |t.blocks[f]| && k < |n.blocks[f]| && n.blocks[f][k] == Entry(name, i)
    && (forall l | 0 <= l < |t.blocks[f]| && l != k :: n.blocks[f][l] == t.blocks[f][l])
    && |n.blocks[a]| == 64 && n.blocks[a][0] == Entry(".", i) && n.blocks[a][1] == Entry("..", fa)
    && (forall l | 2 <= l < 64 :: n.blocks[a][l] == Entry("", 0))
  }

  /** mkdir of a new name takes the first empty entry, the least free inode and the least free data block, and fails
      exactly where one of the three is missing. */
  lemma MkdirNew(t: Tree, fa: nat, name: string)
    requires WellFormed(t) && fa in t.used && t.inodes[fa].kind == Dir && 0 < |name| < NAME_LEN
    requires forall k: nat | FirstHit(Block(t, fa), name, k) :: Block(t, fa)[k].name == ""
    ensures Mkdir(t, fa, name).Some? <==>
              && (exists k: nat :: FirstHit(Block(t, fa), name, k))
              && (exists i :: 0 <= i < |t.inodes| && i !in t.used) && exists a: nat :: t.dataStart <= a < t.size && a !in t.usedBlocks
    ensures forall k: nat, i: nat, a: nat | && FirstHit(Block(t, fa), name, k) && LeastOutside(t.used, 0, |t.inodes|, i)
                             && LeastOutside(t.usedBlocks, t.dataStart, t.size, a) ::
              Mkdir(t, fa, name).Some? && OnlyAdds(t, Mkdir(t, fa, name).value, fa, k, name, i, a)
  {
    hide WellFormed, ScanDir, NextFree, Added, OnlyAdds;
    DirHas(t, fa);
    var b := Block(t, fa);
    var s := ScanDir(b, name, 0);
    assert !s.Full? ==> FirstHit(b, name, s.k);
    forall k: nat | FirstHit(b, name, k)
      ensures s == Empty(k)
    {
      FirstHitUnique(b, name, k);
    }
    forall k: nat, i: nat, a: nat | FirstHit(b, name, k) && LeastOutside(t.used, 0, |t.inodes|, i) && LeastOutside(t.usedBlocks, t.dataStart, t.size, a)
      ensures Mkdir(t, fa, name).Some? && OnlyAdds(t, Mkdir(t, fa, name).value, fa, k, name, i, a)
    {
      LeastUnique(t.used, 0, |t.inodes|, i);
      LeastUnique(t.usedBlocks, t.dataStart, t.size, a);
      AddsOnly(t, fa, k, name, i, a);
    }
  }

  lemma DirHas(t: Tree, fa: nat)
    requires WellFormed(t) && fa in t.used && t.inodes[fa].kind == Dir
    ensures fa < |t.inodes| && t.inodes[fa].addr0 in t.blocks
  {
  }

  lemma LeastUnique(used: set<nat>, lo: nat, hi: nat, r: nat)
    requires LeastOutside(used, lo, hi, r)
    ensures NextFree(used, lo, hi) == Some(r)
  {
    hide NextFree;
  }

  lemma AddsOnly(t: Tree, fa: nat, k: nat, name: string, i: nat, a: nat)
    requires WellFormed(t) && fa in t.used && t.inodes[fa].kind == Dir && k < DENTRY_PER_BLOCK && i < |t.inodes| && a !in t.usedBlocks
    ensures OnlyAdds(t, Added(t, fa, k, name, i, a), fa, k, name, i, a)
  {
  }

  // ----- lookups afterwards -----

  /** A scan stops at the first entry that is empty or has the name. */
  lemma {:induction false} ScanStops(b: seq<Entry>, name: string, from: nat, k: nat)
    requires from <= k < |b| && (b[k].name == "" || b[k].name == name) && forall j | from <= j < k :: b[j].name != "" && b[j].name != name
    ensures ScanDir(b, name, from) == if b[k].name == "" then Empty(k) else Found(k)
    decreases k - from
  {
    if from == k {
    } else {
      ScanStops(b, name, from + 1, k);
    }
  }

  lemma {:induction false} ScanEnds(b: seq<Entry>, name: string, from: nat)
    requires forall j | from <= j < |b| :: b[j].name != "" && b[j].name != name
    ensures ScanDir(b, name, from) == Full
    decreases |b| - from
  {
    if from >= |b| {
    } else {
      ScanEnds(b, name, from + 1);
    }
  }

  /** Naming the first empty entry of a compact block: the new name is found there, the others where
      they were, and a missing name still meets an empty entry unless `k` was the last. */
  lemma ScanAfterAdd(b: seq<Entry>, name: string, k: nat, i: nat, m: string)
    requires |b| == DENTRY_PER_BLOCK && Compact(b) && name != "" && ScanDir(b, name, 0) == Empty(k)
    ensures var c, s := b[k := Entry(name, i)], ScanDir(b, m, 0);
            ScanDir(c, m, 0) ==
            if m == name then Found(k) else if s.Found? then s else if k + 1 < DENTRY_PER_BLOCK then Empty(k + 1) else Full
    ensures !ScanDir(b, m, 0).Full?
  {
    hide ScanDir;
    var c, s := b[k := Entry(name, i)], ScanDir(b, m, 0);
    assert b[k].name == "";
    if m == name {
      ScanStops(c, m, 0, k);
    } else if s.Found? {
      assert s.k < k;
      ScanStops(c, m, 0, s.k);
    } else {
      assert s.k <= k && !(s.k < k);
      if k + 1 < DENTRY_PER_BLOCK {
        ScanStops(c, m, 0, k + 1);
      } else {
        ScanEnds(c, m, 0);
      }
    }
  }

  /** The new name leads to the new inode, whose "." and ".." are itself and its parent. */
  lemma NewLookups(t: Tree, fa: nat, k: nat, name: string, i: nat, a: nat)
    requires Fresh(t, fa, k, name, i, a)
    ensures var n := Added(t, fa, k, name, i, a);
            && WellFormed(n) && i !in t.used
            && Lookup(n, fa, name) == Some(i) && Lookup(n, i, ".") == Some(i) && Lookup(n, i, "..") == Some(fa)
  {
    hide WellFormed, AllCompact, ScanDir;
    AddedWellFormed(t, fa, k, name, i, a);
    var n := Added(t, fa, k, name, i, a);
    BlocksAfter(t, fa, k, name, i, a, fa);
    ScanAfterAdd(Block(t, fa), name, k, i, name);
    ScanStops(NewDir(i, fa), ".", 0, 0);
    ScanStops(NewDir(i, fa), "..", 0, 1);
    assert n.blocks[n.inodes[i].addr0] == NewDir(i, fa);
  }

  /** What the directories hold afterwards. */
  lemma BlocksAfter(t: Tree, fa: nat, k: nat, name: string, i: nat, a: nat, d: nat)
    requires Fresh(t, fa, k, name, i, a) && d in t.used
    ensures var n := Added(t, fa, k, name, i, a);
            && WellFormed(n) && d in n.used && n.inodes[d] == t.inodes[d]
            && (t.inodes[d].kind == Dir ==> Compact(Block(t, d)) && Block(n, d) == if d == fa then Block(t, fa)[k := Entry(name, i)] else Block(t, d))
  {
    AddedWellFormed(t, fa, k, name, i, a);
  }

  /** Any other lookup in a directory there before gives what it gave, but that a parent whose last empty entry
      was taken now answers every missing name with itself. */
  lemma OtherLookup(t: Tree, fa: nat, k: nat, name: string, i: nat, a: nat, d: nat, m: string)
    requires Fresh(t, fa, k, name, i, a) && d in t.used && (d != fa || m != name)
    ensures var n := Added(t, fa, k, name, i, a);
            && WellFormed(n)
            && Lookup(n, d, m) == if d == fa && k + 1 == DENTRY_PER_BLOCK && Lookup(t, d, m).None? then Some(fa) else Lookup(t, d, m)
  {
    hide AllCompact, ScanDir, Added;
    var n := Added(t, fa, k, name, i, a);
    BlocksAfter(t, fa, k, name, i, a, d);
    if t.inodes[d].kind == Dir && d == fa {
      var b := Block(t, fa);
      ScanAfterAdd(b, name, k, i, m);
      assert ScanDir(b, m, 0).Found? ==> b[k].name == "" != m;
      assert Block(n, fa) == b[k := Entry(name, i)];
    }
  }

  ghost predicate SameOtherLookups(t: Tree, n: Tree, fa: nat, name: string) {
    WellFormed(t) && WellFormed(n) && t.used <= n.used &&
    forall d, m: string | d in t.used && (d != fa || m != name) :: Lookup(n, d, m) == Lookup(t, d, m)
  }

  predicate RoomIn(b: seq<Entry>) {
    exists k | 0 <= k < |b| :: b[k].name == ""
  }

  ghost predicate HasRoom(t: Tree, d: nat) {
    WellFormed(t) && d in t.used && t.inodes[d].kind == Dir && RoomIn(Block(t, d))
  }

  /** mkdir leaves every other lookup alone, and leaves its parent an empty entry, exactly when the entry
      it takes is not the last. */
  lemma MkdirExact(t: Tree, fa: nat, k: nat, name: string, i: nat, a: nat)
    requires Fresh(t, fa, k, name, i, a)
    ensures var n := Added(t, fa, k, name, i, a);
            && (SameOtherLookups(t, n, fa, name) <==> k + 1 < DENTRY_PER_BLOCK)
            && (HasRoom(n, fa) <==> k + 1 < DENTRY_PER_BLOCK)
            && forall d | d in t.used && d != fa :: HasRoom(n, d) == HasRoom(t, d)
  {
    hide AllCompact, ScanDir, Added, Lookup;
    var n := Added(t, fa, k, name, i, a);
    UsedAfter(t, fa, k, name, i, a);
    AddedWellFormed(t, fa, k, name, i, a);
    forall d | d in t.used
      ensures d != fa ==> HasRoom(n, d) == HasRoom(t, d)
    {
      BlocksAfter(t, fa, k, name, i, a, d);
      assert n.inodes[d].kind == Dir && d != fa ==> Block(n, d) == Block(t, d);
    }
    forall d, m: string | d in t.used && (d != fa || m != name)
      ensures WellFormed(n) && (k + 1 < DENTRY_PER_BLOCK ==> Lookup(n, d, m) == Lookup(t, d, m))
    {
      OtherLookup(t, fa, k, name, i, a, d, m);
    }
    BlocksAfter(t, fa, k, name, i, a, fa);
    RoomAfter(Block(t, fa), name, k, i);
    OtherLookup(t, fa, k, name, i, a, fa, "");
    NoEmptyName(t, fa);
  }

  lemma UsedAfter(t: Tree, fa: nat, k: nat, name: string, i: nat, a: nat)
    requires Fresh(t, fa, k, name, i, a)
    ensures t.used <= Added(t, fa, k, name, i, a).used
  {
    hide WellFormed, AllCompact, ScanDir;
  }

  lemma RoomAfter(b: seq<Entry>, name: string, k: nat, i: nat)
    requires |b| == DENTRY_PER_BLOCK && Compact(b) && name != "" && ScanDir(b, name, 0) == Empty(k)
    ensures RoomIn(b[k := Entry(name, i)]) <==> k + 1 < DENTRY_PER_BLOCK
  {
    var c := b[k := Entry(name, i)];
    if k + 1 < DENTRY_PER_BLOCK {
      assert c[k + 1].name == "";
    }
  }

  lemma NoEmptyName(t: Tree, d: nat)
    requires WellFormed(t) && d in t.used
    ensures Lookup(t, d, "").None? || Lookup(t, d, "") == Some(d)
    ensures t.inodes[d].kind == Dir && HasRoom(t, d) ==> Lookup(t, d, "").None?
  {
  }

  // ----- paths afterwards -----

  lemma LookupKept(t: Tree, fa: nat, k: nat, name: string, i: nat, a: nat, d: nat, m: string)
    requires Fresh(t, fa, k, name, i, a) && d in t.used && Lookup(t, d, m).Some?
    ensures var n := Added(t, fa, k, name, i, a); WellFormed(n) && d in n.used && Lookup(n, d, m) == Lookup(t, d, m)
  {
    hide ScanDir, AllCompact;
    AddedWellFormed(t, fa, k, name, i, a);
    if d != fa || m != name {
      OtherLookup(t, fa, k, name, i, a, d, m);
    }
  }

  lemma {:induction false} WalkKept(t: Tree, fa: nat, k: nat, name: string, i: nat, a: nat, d: nat, names: seq<string>)
    requires Fresh(t, fa, k, name, i, a) && d in t.used && Walk(t, d, names).Some?
    ensures var n := Added(t, fa, k, name, i, a); WellFormed(n) && d in n.used && Walk(n, d, names) == Walk(t, d, names)
    decreases |names|
  {
    hide AllCompact, ScanDir, Lookup, Added;
    UsedKept(t, fa, k, name, i, a, d);
    if names == [] {
    } else {
      LookupKept(t, fa, k, name, i, a, d, names[0]);
      WalkKept(t, fa, k, name, i, a, Lookup(t, d, names[0]).value, names[1..]);
    }
  }

  lemma UsedKept(t: Tree, fa: nat, k: nat, name: string, i: nat, a: nat, d: nat)
    requires Fresh(t, fa, k, name, i, a) && d in t.used
    ensures WellFormed(Added(t, fa, k, name, i, a)) && d in Added(t, fa, k, name, i, a).used
  {
    AddedWellFormed(t, fa, k, name, i, a);
  }

  /** Every path that led somewhere before still leads there. */
  lemma FindKept(t: Tree, fa: nat, k: nat, name: string, i: nat, a: nat, cur: nat, path: string)
    requires Fresh(t, fa, k, name, i, a) && cur in t.used && Find(t, cur, path).Some?
    ensures var n := Added(t, fa, k, name, i, a); WellFormed(n) && cur in n.used && Find(n, cur, path) == Find(t, cur, path)
  {
    hide AllCompact, ScanDir, Walk, Components, Added;
    UsedKept(t, fa, k, name, i, a, cur);
    RootUsed(t);
    if path != "" && path[0] == '/' {
      WalkKept(t, fa, k, name, i, a, ROOT, Components(path[1..]));
    } else {
      WalkKept(t, fa, k, name, i, a, cur, Components(path));
    }
  }

  lemma RootUsed(t: Tree)
    requires WellFormed(t)
    ensures ROOT in t.used
  {
  }

  lemma {:induction false} WalkConcat(t: Tree, d: nat, a: seq<string>, b: seq<string>)
    requires WellFormed(t) && d in t.used && Walk(t, d, a).Some?
    ensures Walk(t, d, a + b) == Walk(t, Walk(t, d, a).value, b)
    decreases |a|
  {
    hide WellFormed, Lookup;
    if a == [] {
      assert a + b == b;
    } else {
      assert (a + b)[1..] == a[1..] + b;
      WalkConcat(t, Lookup(t, d, a[0]).value, a[1..], b);
    }
  }

  /** A path that does not end in a slash, a slash and a name: one more component. */
  lemma {:induction false} ComponentsSnoc(p: string, name: string)
    requires p != "" && p[|p| - 1] != '/' && name != "" && '/' !in name
    ensures Components(p + "/" + name) == Components(p) + [name]
    decreases |p|
  {
    hide FirstAt, Components;
    var s, j := p + "/" + name, FirstAt(p, '/');
    SplitAt(p, j);
    if j == |p| {
      SplitAt(s, |p|);
      assert s[|p| + 1..] == name && s[..|p|] == p == p[..j];
      SplitAt(name, |name|);
      assert name[..|name|] == name;
    } else {
      SplitAt(s, j);
      assert s[j + 1..] == p[j + 1..] + "/" + name && s[..j] == p[..j];
      ComponentsSnoc(p[j + 1..], name);
    }
  }

  /** After mkdir the new path leads to the new inode. */
  lemma FindNew(t: Tree, fa: nat, k: nat, name: string, i: nat, a: nat, cur: nat, dir: string)
    requires Fresh(t, fa, k, name, i, a) && cur in t.used && Find(t, cur, dir) == Some(fa)
    requires dir != "" && dir[|dir| - 1] != '/' && '/' !in name
    ensures var n := Added(t, fa, k, name, i, a); WellFormed(n) && cur in n.used && Find(n, cur, dir + "/" + name) == Some(i)
  {
    hide WellFormed, AllCompact, ScanDir, Components, Lookup;
    UsedKept(t, fa, k, name, i, a, cur);
    FindKept(t, fa, k, name, i, a, cur, dir);
    NewLookups(t, fa, k, name, i, a);
    RootUsed(t);
    UsedKept(t, fa, k, name, i, a, ROOT);
    var n := Added(t, fa, k, name, i, a);
    var start, rest := if dir[0] == '/' then ROOT else cur, if dir[0] == '/' then dir[1..] else dir;
    assert (dir + "/" + name)[0] == dir[0];
    assert (if dir[0] == '/' then (dir + "/" + name)[1..] else dir + "/" + name) == rest + "/" + name;
    ComponentsSnoc(rest, name);
    WalkConcat(n, start, Components(rest), [name]);
    assert [name][1..] == [];
  }

  // ----- runs -----

  /** init_file_system's root directory: inode 0, whose "." and ".." are itself. */
  function Formatted(inodes: nat, dataStart: nat, size: nat): Tree
    requires 0 < inodes
  {
    Tree([Node(Dir, 1, 1, dataStart)] + seq(inodes - 1, _ => Node(NoKind, 0, 0, 0)), {ROOT},
         map[dataStart := NewDir(ROOT, ROOT)], {dataStart}, dataStart, size)
  }

  lemma FormattedWellFormed(inodes: nat, dataStart: nat, size: nat)
    requires 0 < inodes
    ensures WellFormed(Formatted(inodes, dataStart, size)) && AllCompact(Formatted(inodes, dataStart, size))
  {
  }

  datatype Request = Request(fa: nat, name: string)

  /** A run of mkdirs, each under a directory; None once one of them goes wrong. */
  ghost function Mkdirs(t: Tree, rs: seq<Request>): Option<Tree>
    decreases |rs|
  {
    if rs == [] then Some(t)
    else if WellFormed(t) && rs[0].fa in t.used && t.inodes[rs[0].fa].kind == Dir && |rs[0].name| < NAME_LEN then
      match Mkdir(t, rs[0].fa, rs[0].name)
      case None => None
      case Some(n) => Mkdirs(n, rs[1..])
    else None
  }

  lemma MkdirKeeps(t: Tree, fa: nat, name: string, cur: nat, path: string)
    requires WellFormed(t) && AllCompact(t) && fa in t.used && t.inodes[fa].kind == Dir && |name| < NAME_LEN
    requires Mkdir(t, fa, name).Some? && cur in t.used && Find(t, cur, path).Some?
    ensures var n := Mkdir(t, fa, name).value;
            WellFormed(n) && AllCompact(n) && cur in n.used && Find(n, cur, path) == Find(t, cur, path)
  {
    hide Find, ScanDir, Added, NextFree;
    var s := ScanDir(Block(t, fa), name, 0);
    if s.Empty? && name != "" {
      MkdirFresh(t, fa, name);
      var i, a := NextFree(t.used, 0, |t.inodes|).value, NextFree(t.usedBlocks, t.dataStart, t.size).value;
      AddedWellFormed(t, fa, s.k, name, i, a);
      FindKept(t, fa, s.k, name, i, a, cur, path);
    }
  }

  /** Over every run of mkdirs the tree stays well formed, and a path once found is found for good. */
  lemma {:induction false} PathsStay(t: Tree, rs: seq<Request>, cur: nat, path: string)
    requires WellFormed(t) && AllCompact(t) && Mkdirs(t, rs).Some? && cur in t.used && Find(t, cur, path).Some?
    ensures var n := Mkdirs(t, rs).value;
            WellFormed(n) && AllCompact(n) && cur in n.used && Find(n, cur, path) == Find(t, cur, path)
    decreases |rs|
  {
    hide Find, Mkdir, AllCompact;
    if rs == [] {
    } else {
      MkdirKeeps(t, rs[0].fa, rs[0].name, cur, path);
      PathsStay(Mkdir(t, rs[0].fa, rs[0].name).value, rs[1..], cur, path);
    }
  }

  // ----- the writes in order -----

  method LeastFree(used: set<nat>, lo: nat, hi: nat) returns (r: Option<nat>)
    ensures r == NextFree(used, lo, hi)
  {
    var i := lo;
    while i < hi
      invariant NextFree(used, lo, hi) == NextFree(used, i, hi)
    {
      if i !in used { return Some(i); }
      i := i + 1;
    }
    return None;
  }

  /** The directory blocks and bitmaps do_mkdir updates. */
  class Volume {
    var inodes: seq<Node>
    var used: set<nat>
    var blocks: map<nat, seq<Entry>>
    var usedBlocks: set<nat>
    const dataStart: nat
    const size: nat

    ghost function State(): Tree
      reads this
    {
      Tree(inodes, used, blocks, usedBlocks, dataStart, size)
    }

    /** do_mkdir, write by write. */
    method DoMkdir(fa: nat, name: string) returns (ok: bool)
      requires WellFormed(State()) && fa in used && inodes[fa].kind == Dir && |name| < NAME_LEN
      modifies this
      ensures ok <==> Mkdir(old(State()), fa, name).Some?
      ensures ok ==> State() == Mkdir(old(State()), fa, name).value
    {
      var faBlock := inodes[fa].addr0;
      var s := ScanLoop(blocks[faBlock], name);
      if s.Full? { return false; }
      if s.Found? || name == "" { return true; }
      var inode := LeastFree(used, 0, |inodes|);
      if inode.None? { return false; }
      used := used + {inode.value};
      blocks := blocks[faBlock := blocks[faBlock][s.k := Entry(name, inode.value)]];
      var block := LeastFree(usedBlocks, dataStart, size);
      if block.None? { return false; }
      usedBlocks := usedBlocks + {block.value};
      inodes := inodes[inode.value := Node(Dir, 1, 1, block.value)];
      blocks := blocks[block.value := NewDir(inode.value, fa)];
      return true;
    }
  }
}
