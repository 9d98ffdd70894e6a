/**
 Directories and path walking: do_find and do_mkdir (fs/fs.c:361-489). A
 directory is one block of 64 entries in order; names end at their NUL.
 */
module Directory {
  import opened Wrappers

  const DENTRY_PER_BLOCK: nat := 64
  const NAME_LEN: nat := 60
  const PATH_LEN: nat := 100
  const ROOT: nat := 0

  datatype Kind = NoKind | File | Dir

  datatype Node = Node(kind: Kind, links: nat, size: nat, addr0: nat)

  datatype Entry = Entry(name: string, inode: nat)

  /** blocks: the directory blocks; used and usedBlocks: the two bitmaps. */
  datatype Tree = Tree(inodes: seq<Node>, used: set<nat>, blocks: map<nat, seq<Entry>>, usedBlocks: set<nat>, dataStart: nat, size: nat)

  /** Every inode in use is on disk; each directory has its own block, and its entries lead to inodes in use. */
  ghost predicate WellFormed(t: Tree) {
    && ROOT in t.used
    && (forall i | i in t.used :: i < |t.inodes|)
    && (forall i | i in t.used && t.inodes[i].kind == Dir ::
          t.inodes[i].addr0 in t.usedBlocks && t.inodes[i].addr0 in t.blocks && |t.blocks[t.inodes[i].addr0]| == DENTRY_PER_BLOCK)
    && (forall i, j | i in t.used && j in t.used && i != j && t.inodes[i].kind == Dir && t.inodes[j].kind == Dir ::
          t.inodes[i].addr0 != t.inodes[j].addr0)
    && (forall i, k | i in t.used && t.inodes[i].kind == Dir && 0 <= k < DENTRY_PER_BLOCK ::
          t.blocks[t.inodes[i].addr0][k].name != "" ==> t.blocks[t.inodes[i].addr0][k].inode in t.used)
  }

  // ----- one directory -----

  datatype Scan = Found(k: nat) | Empty(k: nat) | Full

  /** The loop of do_find and do_mkdir over a block, from entry `k`: the first entry that has the
      name or is empty. */
  function ScanDir(b: seq<Entry>, name: string, k: nat): (r: Scan)
    ensures r.Found? ==> k <= r.k < |b| && b[r.k].name == name != ""
    ensures r.Empty? ==> k <= r.k < |b| && b[r.k].name == ""
    ensures r.Full? ==> forall j | k <= j < |b| :: b[j].name != "" && b[j].name != name
    ensures !r.Full? ==> forall j | k <= j < r.k :: b[j].name != "" && b[j].name != name
    decreases |b| - k
  {
    if k >= |b| then Full
    else if b[k].name == "" then Empty(k)
    else if b[k].name == name then Found(k)
    else ScanDir(b, name, k + 1)
  }

  /** One step of do_find: None where it reports an error. A full directory without the name leaves
      the walk where it is. */
  function Lookup(t: Tree, i: nat, name: string): (r: Option<nat>)
    requires WellFormed(t) && i in t.used
    ensures r.Some? ==> r.value in t.used
  {
    if t.inodes[i].kind != Dir then None
    else
      var b := t.blocks[t.inodes[i].addr0];
      match ScanDir(b, name, 0)
      case Found(k) => Some(b[k].inode)
      case Empty(_) => None
      case Full => Some(i)
  }

  // ----- paths -----

  function FirstAt(s: string, c: char): (i: nat)
    ensures i <= |s| && (i < |s| ==> s[i] == c) && forall k | 0 <= k < i :: s[k] != c
  {
    if s == [] || s[0] == c then 0 else 1 + FirstAt(s[1..], c)
  }

  /** The slash-separated components; nothing follows a trailing slash. */
  function Components(s: string): seq<string>
    decreases |s|
  {
    if s == [] then []
    else
      var i := FirstAt(s, '/');
      if i == |s| then [s] else [s[..i]] + Components(s[i + 1..])
  }

  /** Looking the components up one after the other. */
  function Walk(t: Tree, i: nat, names: seq<string>): (r: Option<nat>)
    requires WellFormed(t) && i in t.used
    ensures r.Some? ==> r.value in t.used
    decreases |names|
  {
    if names == [] then Some(i)
    else
      match Lookup(t, i, names[0])
      case None => None
      case Some(n) => Walk(t, n, names[1..])
  }

  /** The meaning of a path, from the root or the current directory; None stands for -1. */
  function Find(t: Tree, cur: nat, path: string): (r: Option<nat>)
    requires WellFormed(t) && cur in t.used
  {
    if path != "" && path[0] == '/' then Walk(t, ROOT, Components(path[1..])) else Walk(t, cur, Components(path))
  }

  // ----- what a lookup and a path mean -----

  /** Entry `k` is the first that is empty or has the name. */
  predicate FirstHit(b: seq<Entry>, name: string, k: nat) {
    && k < |b| && (b[k].name == "" || b[k].name == name)
    && forall l | 0 <= l < k :: b[l].name != "" && b[l].name != name
  }

  /** A lookup fails in an inode that is no directory and at an empty entry; else it leads where the first entry of
      the name leads, or, in a full directory without the name, nowhere else. */
  lemma LookupExact(t: Tree, i: nat, name: string)
    requires WellFormed(t) && i in t.used
    ensures t.inodes[i].kind != Dir ==> Lookup(t, i, name) == None
    ensures t.inodes[i].kind == Dir ==>
              var b := t.blocks[t.inodes[i].addr0];
              && (forall k: nat | FirstHit(b, name, k) :: Lookup(t, i, name) == if b[k].name == "" then None else Some(b[k].inode))
              && ((forall k | 0 <= k < |b| :: b[k].name != "" && b[k].name != name) ==> Lookup(t, i, name) == Some(i))
  {
    hide ScanDir;
    if t.inodes[i].kind == Dir {
      var b := t.blocks[t.inodes[i].addr0];
      forall k: nat | FirstHit(b, name, k)
        ensures ScanDir(b, name, 0) == if b[k].name == "" then Empty(k) else Found(k)
      {
        FirstHitUnique(b, name, k);
      }
    }
  }

  lemma FirstHitUnique(b: seq<Entry>, name: string, k: nat)
    requires FirstHit(b, name, k)
    ensures ScanDir(b, name, 0) == if b[k].name == "" then Empty(k) else Found(k)
  {
    hide ScanDir;
    var s := ScanDir(b, name, 0);
    assert !s.Full? && !(s.k < k) && !(k < s.k);
  }

  /** An absolute path starts at inode 0, wherever the caller is; any other at the current directory. */
  lemma WhereItStarts(t: Tree, c: nat, d: nat, p: string)
    requires WellFormed(t) && c in t.used && d in t.used
    ensures Find(t, c, "/" + p) == Find(t, d, "/" + p) && 0 in t.used
    ensures (p == "" || p[0] != '/') ==> Find(t, c, "/" + p) == Find(t, 0, p)
    ensures Find(t, c, "/") == Some(0) && Find(t, c, "") == Some(c)
  {
    hide Lookup, FirstAt;
    assert ("/" + p)[1..] == p;
    assert "/"[1..] == "";
  }

  lemma Absolute(t: Tree, c: nat, path: string)
    requires WellFormed(t) && c in t.used
    ensures path != "" && path[0] == '/' ==> forall d | d in t.used :: Find(t, d, path) == Find(t, c, path)
  {
    hide WellFormed, Find;
    if path != "" && path[0] == '/' {
      assert path == "/" + path[1..];
      forall d | d in t.used
        ensures Find(t, d, path) == Find(t, c, path)
      {
        WhereItStarts(t, c, d, path[1..]);
      }
    }
  }

  /** One name is looked up where the path starts. */
  lemma FindName(t: Tree, c: nat, name: string)
    requires WellFormed(t) && c in t.used && name != "" && '/' !in name
    ensures Find(t, c, name) == Lookup(t, c, name) && 0 in t.used && Find(t, c, "/" + name) == Lookup(t, 0, name)
  {
    hide WellFormed, Lookup, Components, Walk, FirstAt;
    WhereItStarts(t, c, c, name);
    FromHere(t, c, name);
    FromHere(t, 0, name);
    WalkName(t, c, name);
    WalkName(t, 0, name);
  }

  lemma FromHere(t: Tree, c: nat, p: string)
    requires WellFormed(t) && c in t.used && (p == "" || p[0] != '/')
    ensures Find(t, c, p) == Walk(t, c, Components(p))
  {
    hide WellFormed, Components, Walk;
  }

  lemma WalkName(t: Tree, c: nat, name: string)
    requires WellFormed(t) && c in t.used && name != "" && '/' !in name
    ensures Walk(t, c, Components(name)) == Lookup(t, c, name)
  {
    hide WellFormed, Lookup, Components, Walk, FirstAt;
    WalkFirst(t, c, name, 0, |name|);
    assert name[0..] == name && name[0..|name|] == name;
  }

  /** A name, a slash and a rest: the rest is found from where the name leads. */
  lemma FindFrom(t: Tree, c: nat, name: string, p: string)
    requires WellFormed(t) && c in t.used && name != "" && '/' !in name && (p == "" || p[0] != '/')
    ensures Find(t, c, name + "/" + p) ==
            match Lookup(t, c, name)
            case None => None
            case Some(n) => Find(t, n, p)
  {
    hide WellFormed, Lookup, Components, Walk, FirstAt;
    var s := name + "/" + p;
    FromHere(t, c, s);
    WalkFirst(t, c, s, 0, |name|);
    assert s[0..] == s && s[0..|name|] == name && s[|name| + 1..] == p;
    match Lookup(t, c, name)
    case None =>
    case Some(n) => FromHere(t, n, p);
  }

  /** strcmp, of which only zero or not matters. */
  method StrCmp(a: string, b: string) returns (r: int)
    ensures r == 0 <==> a == b
  {
    var i := 0;
    while i < |a| || i < |b|
      invariant i <= |a| && i <= |b| && a[..i] == b[..i]
      decreases |a| - i
    {
      if i == |b| || (i < |a| && a[i] > b[i]) {
        return 1;
      } else if i == |a| || a[i] < b[i] {
        return -1;
      }
      i := i + 1;
    }
    return 0;
  }

  /** The scan of do_find's and do_mkdir's inner loop. */
  method ScanLoop(b: seq<Entry>, name: string) returns (r: Scan)
    ensures r == ScanDir(b, name, 0)
  {
    var k := 0;
    while k < |b|
      invariant k <= |b| && ScanDir(b, name, 0) == ScanDir(b, name, k)
    {
      if b[k].name == "" { return Empty(k); }
      var c := StrCmp(b[k].name, name);
      if c == 0 { return Found(k); }
      k := k + 1;
    }
    return Full;
  }

  /** What is left of the path from `p` is still in the buffer. */
  predicate Rest(fileName: array<char>, path: string, p: nat)
    reads fileName
  {
    && p <= |path| < fileName.Length && '\0' !in path && fileName[|path|] == '\0'
    && forall k | p <= k < |path| :: fileName[k] == path[k]
  }

  /** The scan for the next slash or the end. */
  method NameEnd(fileName: array<char>, path: string, p: nat) returns (q: nat)
    requires Rest(fileName, path, p)
    ensures p <= q <= |path| && (q < |path| ==> path[q] == '/') && forall k | p <= k < q :: path[k] != '/'
  {
    q := p;
    while fileName[q] != '\0' && fileName[q] != '/'
      invariant p <= q <= |path| && forall k | p <= k < q :: path[k] != '/'
      decreases |path| - q
    {
      q := q + 1;
    }
    assert q < |path| ==> path[q] in path;
  }

  lemma IndexUnique(s: string, c: char, i: nat)
    requires i <= |s| && (i < |s| ==> s[i] == c) && forall k | 0 <= k < i :: s[k] != c
    ensures FirstAt(s, c) == i
  {
    hide FirstAt;
    var j := FirstAt(s, c);
    assert !(j < i) && !(i < j);
  }

  lemma SplitAt(s: string, i: nat)
    requires s != [] && i <= |s| && (i < |s| ==> s[i] == '/') && forall k | 0 <= k < i :: s[k] != '/'
    ensures Components(s) == if i == |s| then [s[..i]] else [s[..i]] + Components(s[i + 1..])
  {
    hide FirstAt;
    IndexUnique(s, '/', i);
    assert i == |s| ==> s[..i] == s;
  }

  lemma WalkEnd(t: Tree, i: nat, path: string, p: nat)
    requires WellFormed(t) && i in t.used && p == |path|
    ensures Walk(t, i, Components(path[p..])) == Some(i)
  {
  }

  /** One component of the walk, by positions in the path. */
  lemma WalkFirst(t: Tree, i: nat, path: string, p: nat, q: nat)
    requires WellFormed(t) && i in t.used
    requires p < |path| && p <= q <= |path| && (q < |path| ==> path[q] == '/') && forall k | p <= k < q :: path[k] != '/'
    ensures Walk(t, i, Components(path[p..])) ==
            match Lookup(t, i, path[p..q])
            case None => None
            case Some(n) => if q == |path| then Some(n) else Walk(t, n, Components(path[q + 1..]))
  {
    hide Components, Lookup, FirstAt;
    var s := path[p..];
    SplitAt(s, q - p);
    var name := path[p..q];
    assert s[..q - p] == name;
    if q == |path| {
      assert [name][1..] == [];
    } else {
      var more := Components(path[q + 1..]);
      assert s[q - p + 1..] == path[q + 1..];
      assert ([name] + more)[1..] == more;
    }
  }

  /** The body of do_find's loop: the inode must be a directory, then its block is scanned. */
  method LookupLoop(t: Tree, i: nat, name: string) returns (r: Option<nat>)
    requires WellFormed(t) && i in t.used
    ensures r == Lookup(t, i, name)
  {
    if t.inodes[i].kind != Dir { return None; }
    var b := t.blocks[t.inodes[i].addr0];
    var s := ScanLoop(b, name);
    match s
    case Found(k) => return Some(b[k].inode);
    case Empty(_) => return None;
    case Full => return Some(i);
  }

  /** do_find on its copy of the path: each component is cut off by a NUL written over its slash.
      It computes the meaning of the path. */
  method DoFind(t: Tree, cur: nat, fileName: array<char>, path: string) returns (r: Option<nat>)
    requires WellFormed(t) && cur in t.used
    requires '\0' !in path && |path| < fileName.Length == PATH_LEN
    modifies fileName
    ensures r == Find(t, cur, path)
    ensures path != "" && path[0] == '/' ==> forall d | d in t.used :: r == Find(t, d, path)
  {
    hide Lookup, Walk, Components;
    Absolute(t, cur, path);
    for i := 0 to |path|
      invariant forall k | 0 <= k < i :: fileName[k] == path[k]
    {
      fileName[i] := path[i];
    }
    fileName[|path|] := '\0';
    var inode, p := cur, 0;
    if fileName[0] == '/' {
      inode, p := ROOT, 1;
    }
    assert path[0..] == path;
    while fileName[p] != '\0'
      invariant Rest(fileName, path, p) && inode in t.used
      invariant Find(t, cur, path) == Walk(t, inode, Components(path[p..]))
      decreases |path| - p
    {
      var q := NameEnd(fileName, path, p);
      WalkFirst(t, inode, path, p, q);
      var last := fileName[q] == '\0';
      fileName[q] := '\0';
      var name := fileName[p..q];
      assert name == path[p..q];
      var found := LookupLoop(t, inode, name);
      if found.None? { return None; }
      inode := found.value;
      if last {
        return Some(inode);
      }
      p := q + 1;
    }
    WalkEnd(t, inode, path, p);
    return Some(inode);
  }
}
