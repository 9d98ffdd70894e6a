/** Filling the root of a new file system until its last entry is taken (fs/fs.c:361-412). */
module FullDirectory {
  import opened Wrappers
  import opened Partition
  import opened FileGrowth
  import opened Directory
  import opened MakeDirectory

  /** Names mkdir can enter beside "." and "..". */
  predicate Usable(names: seq<string>) {
    NoDup(names) && forall n | n in names :: 0 < |n| < NAME_LEN && n != "." && n != ".."
  }

  /** What entry `k` of the root is named after mkdirs of `names`. */
  function EntryName(names: seq<string>, k: nat): string {
    if k == 0 then "." else if k == 1 then ".." else if k < |names| + 2 then names[k - 2] else ""
  }

  /** The root holds exactly "." and ".." and then `names`, and each has an inode and a block. */
  ghost predicate Holding(t: Tree, names: seq<string>, inodes: nat, dataStart: nat, size: nat) {
    && WellFormed(t) && AllCompact(t) && |t.inodes| == inodes && t.dataStart == dataStart && t.size == size
    && t.inodes[ROOT].kind == Dir && |names| + 2 <= DENTRY_PER_BLOCK
    && (forall k: nat | k < DENTRY_PER_BLOCK :: Block(t, ROOT)[k].name == EntryName(names, k))
    && (forall i: nat :: i in t.used <==> i <= |names|)
    && (forall b: nat | dataStart <= b :: b in t.usedBlocks <==> b <= dataStart + |names|)
  }

  lemma StartHolds(inodes: nat, dataStart: nat, size: nat)
    requires 0 < inodes
    ensures Holding(Formatted(inodes, dataStart, size), [], inodes, dataStart, size)
  {
    FormattedWellFormed(inodes, dataStart, size);
  }

  /** A name that is not there meets the first empty entry, if there is one. */
  lemma ScanMissing(b: seq<Entry>, names: seq<string>, m: string)
    requires |b| == DENTRY_PER_BLOCK && |names| + 2 <= DENTRY_PER_BLOCK && forall k: nat | k < DENTRY_PER_BLOCK :: b[k].name == EntryName(names, k)
    requires Usable(names) && m !in names && m != "." && m != ".."
    ensures ScanDir(b, m, 0) == if |names| + 2 < DENTRY_PER_BLOCK then Empty(|names| + 2) else Full
  {
    hide ScanDir;
    forall k | 0 <= k < |names| + 2
      ensures b[k].name != "" && b[k].name != m
    {
      assert k >= 2 ==> names[k - 2] in names;
    }
    if |names| + 2 < DENTRY_PER_BLOCK {
      ScanStops(b, m, 0, |names| + 2);
    } else {
      ScanEnds(b, m, 0);
    }
  }

  lemma OneMoreFresh(t: Tree, names: seq<string>, name: string, inodes: nat, dataStart: nat, size: nat)
    requires Holding(t, names, inodes, dataStart, size) && Usable(names + [name]) && |names| + 2 < DENTRY_PER_BLOCK
    requires |names| + 1 < inodes && dataStart + |names| + 1 < size
    ensures var k, i, a := |names| + 2, |names| + 1, dataStart + |names| + 1;
            Fresh(t, ROOT, k, name, i, a) && Mkdir(t, ROOT, name) == Some(Added(t, ROOT, k, name, i, a))
  {
    hide ScanDir, Added, EntryName, NextFree;
    UsablePrefix(names, name);
    ScanMissing(Block(t, ROOT), names, name);
    assert |names| + 1 !in t.used && dataStart + |names| + 1 !in t.usedBlocks;
    var i, a := NextFree(t.used, 0, inodes), NextFree(t.usedBlocks, dataStart, size);
    assert i == Some(|names| + 1) && a == Some(dataStart + |names| + 1);
  }

  /** One more mkdir. */
  lemma OneMore(t: Tree, names: seq<string>, name: string, inodes: nat, dataStart: nat, size: nat)
    requires Holding(t, names, inodes, dataStart, size) && Usable(names + [name]) && |names| + 2 < DENTRY_PER_BLOCK
    requires |names| + 1 < inodes && dataStart + |names| + 1 < size
    ensures var k, i, a := |names| + 2, |names| + 1, dataStart + |names| + 1;
            && Fresh(t, ROOT, k, name, i, a) && Mkdir(t, ROOT, name) == Some(Added(t, ROOT, k, name, i, a))
            && Holding(Added(t, ROOT, k, name, i, a), names + [name], inodes, dataStart, size)
  {
    hide ScanDir, Mkdir, AllCompact, Usable, NewDir, EntryName;
    var k, i, a := |names| + 2, |names| + 1, dataStart + |names| + 1;
    OneMoreFresh(t, names, name, inodes, dataStart, size);
    AddedWellFormed(t, ROOT, k, name, i, a);
    BlocksAfter(t, ROOT, k, name, i, a, ROOT);
    NameAdded(Block(t, ROOT), names, name, i);
    hide WellFormed;
  }

  lemma NameAdded(b: seq<Entry>, names: seq<string>, name: string, i: nat)
    requires |b| == DENTRY_PER_BLOCK && |names| + 2 < DENTRY_PER_BLOCK && forall k: nat | k < DENTRY_PER_BLOCK :: b[k].name == EntryName(names, k)
    ensures forall k: nat | k < DENTRY_PER_BLOCK :: b[|names| + 2 := Entry(name, i)][k].name == EntryName(names + [name], k)
  {
  }

  lemma UsablePrefix(names: seq<string>, name: string)
    requires Usable(names + [name])
    ensures Usable(names) && name !in names && 0 < |name| < NAME_LEN && name != "." && name != ".."
  {
    assert name in names + [name] && forall n | n in names :: n in names + [name];
    assert forall j | 0 <= j < |names| :: (names + [name])[j] == names[j];
    assert (names + [name])[|names|] == name;
  }

  function Requests(names: seq<string>): seq<Request> {
    seq(|names|, i requires 0 <= i < |names| => Request(ROOT, names[i]))
  }

  lemma {:induction false} AllMore(t: Tree, names: seq<string>, more: seq<string>, inodes: nat, dataStart: nat, size: nat)
    requires Holding(t, names, inodes, dataStart, size) && Usable(names + more) && |names + more| + 2 <= DENTRY_PER_BLOCK
    requires |names + more| < inodes && dataStart + |names + more| < size
    ensures Mkdirs(t, Requests(more)).Some? && Holding(Mkdirs(t, Requests(more)).value, names + more, inodes, dataStart, size)
    decreases |more|
  {
    hide Holding, Mkdir, WellFormed, Added;
    if more == [] {
      assert names + more == names;
    } else {
      var name := more[0];
      assert names + more == names + [name] + more[1..];
      UsablePart(names + [name], more[1..]);
      OneMore(t, names, name, inodes, dataStart, size);
      HoldingRoot(t, names, inodes, dataStart, size);
      UsablePrefix(names, name);
      assert Requests(more)[1..] == Requests(more[1..]) && Requests(more)[0] == Request(ROOT, name);
      AllMore(Mkdir(t, ROOT, name).value, names + [name], more[1..], inodes, dataStart, size);
    }
  }

  lemma UsablePart(a: seq<string>, b: seq<string>)
    requires Usable(a + b)
    ensures Usable(a)
  {
    assert forall n | n in a :: n in a + b;
    assert forall j | 0 <= j < |a| :: (a + b)[j] == a[j];
  }

  lemma HoldingRoot(t: Tree, names: seq<string>, inodes: nat, dataStart: nat, size: nat)
    requires Holding(t, names, inodes, dataStart, size)
    ensures WellFormed(t) && ROOT in t.used && t.inodes[ROOT].kind == Dir
  {
  }

  /** On a partition with room, 62 mkdirs of different names in the root all succeed. While one entry is left a
      missing name is reported as missing; when the 62nd has taken it, the root is found under every missing name,
      and the next mkdir writes past the block. */
  lemma RootFills(inodes: nat, dataStart: nat, size: nat, names: seq<string>, last: string, m: string)
    requires |names| == DENTRY_PER_BLOCK - 3 && Usable(names + [last]) && inodes > |names| + 1 && size > dataStart + |names| + 1
    requires m !in names && m != last && m != "." && m != ".."
    ensures var o := Mkdirs(Formatted(inodes, dataStart, size), Requests(names));
            && o.Some? && Fresh(o.value, ROOT, DENTRY_PER_BLOCK - 1, last, |names| + 1, dataStart + |names| + 1)
            && Lookup(o.value, ROOT, m).None?
            && var p := Mkdir(o.value, ROOT, last);
               && p.Some? && WellFormed(p.value) && ROOT in p.value.used && p.value.inodes[ROOT].kind == Dir
               && Lookup(p.value, ROOT, m) == Some(ROOT) && (|m| < NAME_LEN ==> Mkdir(p.value, ROOT, m).None?)
  {
    hide Mkdirs, WellFormed, Added, ScanDir;
    StartHolds(inodes, dataStart, size);
    UsablePrefix(names, last);
    assert [] + names == names;
    AllMore(Formatted(inodes, dataStart, size), [], names, inodes, dataStart, size);
    var t := Mkdirs(Formatted(inodes, dataStart, size), Requests(names)).value;
    HoldingRoot(t, names, inodes, dataStart, size);
    ScanMissing(Block(t, ROOT), names, m);
    OneMore(t, names, last, inodes, dataStart, size);
    var n := Mkdir(t, ROOT, last).value;
    HoldingRoot(n, names + [last], inodes, dataStart, size);
    ScanMissing(Block(n, ROOT), names + [last], m);
  }

  /** There are such names. */
  function OneLetterNames(n: nat): (names: seq<string>)
    requires n <= DENTRY_PER_BLOCK
    ensures |names| == n && Usable(names)
  {
    var names: seq<string> := seq(n, i requires 0 <= i < n => ['0' + i as char]);
    assert forall i | 0 <= i < n :: |names[i]| == 1 && names[i][0] == '0' + i as char;
    names
  }

  /** After the mkdirs `rs`, a mkdir of `name` takes the last entry and changes other lookups. */
  ghost predicate SpoilsRoot(rs: seq<Request>, name: string, inodes: nat, dataStart: nat, size: nat)
    requires 0 < inodes
  {
    var o := Mkdirs(Formatted(inodes, dataStart, size), rs);
    && o.Some? && Fresh(o.value, ROOT, DENTRY_PER_BLOCK - 1, name, DENTRY_PER_BLOCK - 2, dataStart + DENTRY_PER_BLOCK - 2)
    && !SameOtherLookups(o.value, Added(o.value, ROOT, DENTRY_PER_BLOCK - 1, name, DENTRY_PER_BLOCK - 2, dataStart + DENTRY_PER_BLOCK - 2), ROOT, name)
  }

  /** So the failing case of MkdirExact is met by a run from a new file system. */
  lemma LastEntryReached(inodes: nat, dataStart: nat, size: nat)
    requires inodes > DENTRY_PER_BLOCK && size > dataStart + DENTRY_PER_BLOCK
    ensures exists rs: seq<Request>, name: string :: SpoilsRoot(rs, name, inodes, dataStart, size)
  {
    hide Mkdirs, WellFormed, Added, Mkdir, SameOtherLookups;
    var all := OneLetterNames(DENTRY_PER_BLOCK - 2);
    var names, last := all[..DENTRY_PER_BLOCK - 3], all[DENTRY_PER_BLOCK - 3];
    assert names + [last] == all;
    assert "" !in all;
    UsablePrefix(names, last);
    RootFills(inodes, dataStart, size, names, last, "");
    var t := Mkdirs(Formatted(inodes, dataStart, size), Requests(names)).value;
    MkdirExact(t, ROOT, DENTRY_PER_BLOCK - 1, last, |names| + 1, dataStart + |names| + 1);
    assert SpoilsRoot(Requests(names), last, inodes, dataStart, size);
  }
}
