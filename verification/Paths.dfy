/**
 Path names (fs.c): skipelem takes one element off a path, namex looks elements up one after
 the other, in the directories on the disk and through the table of in-memory inodes.  A path
 is the string before its NUL.
 */
module Paths {
  import opened Params
  import opened FsDisk
  import opened FsBlocks
  import opened FsContent
  import opened FileSystem
  import opened InodeCache
  import opened Names
  import D = Directory

  const SLASH: Byte := 47
  const ROOTINO := 1

  /** The nonempty slash-separated elements of cur followed by path. */
  ghost function Elements(cur: seq<Byte>, path: seq<Byte>): seq<seq<Byte>>
    decreases |path|
  {
    if path == [] then Closed(cur)
    else if path[0] == SLASH then Closed(cur) + Elements([], path[1..])
    else Elements(cur + [path[0]], path[1..])
  }

  ghost function Closed(cur: seq<Byte>): seq<seq<Byte>> {
    if cur == [] then [] else [cur]
  }

  /** As much of an element as a directory entry can hold. */
  function Trunc(e: seq<Byte>): (r: seq<Byte>)
    ensures |r| <= DIRSIZ
  {
    if |e| <= DIRSIZ then e else e[..DIRSIZ]
  }

  /** An element read off the front. */
  lemma {:induction false} ElementFirst(cur: seq<Byte>, e: seq<Byte>, rest: seq<Byte>)
    requires SLASH !in e && cur + e != [] && (rest == [] || rest[0] == SLASH)
    ensures Elements(cur, e + rest) == [cur + e] + Elements([], rest)
    decreases |e|
  {
    if e == [] {
      assert e + rest == rest && cur + e == cur;
    } else {
      assert (e + rest)[1..] == e[1..] + rest;
      assert cur + [e[0]] + e[1..] == cur + e;
      ElementFirst(cur + [e[0]], e[1..], rest);
    }
  }

  /** No characters, no elements; and a slash in front adds none. */
  lemma ElementSlash(path: seq<Byte>)
    ensures Elements([], []) == [] && Elements([], [47] + path) == Elements([], path)
  {
    assert ([47] + path)[1..] == path;
  }

  /** Step over slashes. */
  method SkipSlashes(path: seq<Byte>, start: nat) returns (i: nat)
    requires start <= |path|
    ensures start <= i <= |path| && Elements([], path[i..]) == Elements([], path[start..]) && (i < |path| ==> path[i] != SLASH)
  {
    i := start;
    while i < |path| && path[i] == SLASH
      invariant start <= i <= |path| && Elements([], path[i..]) == Elements([], path[start..])
    {
      assert path[i..][1..] == path[i + 1..];
      i := i + 1;
    }
  }

  /** Step over an element, up to a slash or the end of the path. */
  method SkipName(path: seq<Byte>, start: nat) returns (i: nat)
    requires start < |path| && path[start] != SLASH
    ensures start < i <= |path| && Elements([], path[start..]) == [path[start..i]] + Elements([], path[i..])
  {
    i := start;
    while i < |path| && path[i] != SLASH
      invariant start <= i <= |path| && SLASH !in path[start..i]
    {
      assert path[start..i + 1] == path[start..i] + [path[i]];
      i := i + 1;
    }
    var e := path[start..i];
    assert [] + e == e && e + path[i..] == path[start..];
    ElementFirst([], e, path[i..]);
  }

  /**
   Copy the next element of path into name and return what follows it, without leading slashes;
   found is false if there is no element.
   */
  method Skipelem(path: seq<Byte>, name: array<Byte>) returns (found: bool, rest: seq<Byte>)
    requires 0 !in path && name.Length == DIRSIZ
    modifies name
    ensures 0 !in rest && (found <==> Elements([], path) != [])
    ensures found ==>
      && Key(name[..]) == Trunc(Elements([], path)[0]) && Elements([], rest) == Elements([], path)[1..]
      && (var e := Elements([], path)[0]; Key(name[..]) == if |e| <= 14 then e else e[..14])
      && (rest == [] <==> |Elements([], path)| == 1)
    ensures found && rest != [] ==> rest[0] != 47 && |rest| < |path| && rest == path[|path| - |rest|..]
    ensures !found ==> name[..] == old(name[..])
  {
    var s := SkipSlashes(path, 0);
    assert path[0..] == path;
    if s == |path| {
      return false, [];
    }
    var t := SkipName(path, s);
    CopyName(path[s..t], name);
    var u := SkipSlashes(path, t);
    rest := path[u..];
    found := true;
    if rest != [] {
      NotEmpty([], rest);
    }
  }

  /** A path that does not start with a slash has an element. */
  lemma {:induction false} NotEmpty(cur: seq<Byte>, path: seq<Byte>)
    requires cur != [] || (path != [] && path[0] != SLASH)
    ensures Elements(cur, path) != []
    decreases |path|
  {
    if path != [] && path[0] != SLASH {
      NotEmpty(cur + [path[0]], path[1..]);
    }
  }

  /** memmove of the element, cut off or terminated. */
  method CopyName(e: seq<Byte>, name: array<Byte>)
    requires 0 !in e && name.Length == DIRSIZ
    modifies name
    ensures Key(name[..]) == Trunc(e)
  {
    var len := if |e| >= DIRSIZ then DIRSIZ else |e|;
    var i := 0;
    while i < len
      invariant 0 <= i <= len && name[..i] == e[..i]
    {
      name[i] := e[i];
      i := i + 1;
    }
    if len < DIRSIZ {
      name[len] := 0;
    }
    CopiedKey(name[..], e, len);
  }

  lemma CopiedKey(s: seq<Byte>, e: seq<Byte>, len: nat)
    requires |s| == DIRSIZ && 0 !in e && len == (if |e| >= DIRSIZ then DIRSIZ else |e|) && s[..len] == e[..len] && (len < DIRSIZ ==> s[len] == 0)
    ensures Key(s) == Trunc(e)
  {
    forall j | 0 <= j < len ensures s[j] != 0 {
      assert s[..len][j] == s[j] && e[..len][j] == e[j];
    }
    assert |Key(s)| == len;
  }

  // ---------------------------------------------------------------- lookup

  datatype Node = DirNode(entries: map<seq<Byte>, nat>) | FileNode

  /** Inode numbers with what they are; every entry leads to an inode. */
  type Tree = map<nat, Node>

  ghost predicate WellFormed(tree: Tree) {
    && 0 !in tree && ROOTINO in tree
    && forall i, k :: i in tree && tree[i].DirNode? && k in tree[i].entries ==> tree[i].entries[k] in tree
  }

  /** One element looked up from ip, 0 on failure. */
  ghost function Enter(tree: Tree, ip: nat, e: seq<Byte>): nat {
    if ip in tree && tree[ip].DirNode? && Trunc(e) in tree[ip].entries then tree[ip].entries[Trunc(e)] else 0
  }

  /** Elements looked up one after the other, 0 on failure. */
  ghost function Walk(tree: Tree, ip: nat, es: seq<seq<Byte>>): nat {
    if es == [] then ip else Enter(tree, Walk(tree, ip, es[..|es| - 1]), es[|es| - 1])
  }

  lemma {:induction false} WalkFails(tree: Tree, ip: nat, es: seq<seq<Byte>>, k: nat)
    requires 0 !in tree && k <= |es| && Walk(tree, ip, es[..k]) == 0
    ensures Walk(tree, ip, es) == 0
    decreases |es| - k
  {
    if k < |es| {
      assert es[..k + 1][..k] == es[..k];
      WalkFails(tree, ip, es, k + 1);
    } else {
      assert es[..k] == es;
    }
  }

  /** The directory that nameiparent asks for: all elements but the last looked up, ending in a directory. */
  ghost function ParentDir(tree: Tree, ip: nat, es: seq<seq<Byte>>): nat {
    if es == [] then 0
    else
      var d := Walk(tree, ip, es[..|es| - 1]);
      if d in tree && tree[d].DirNode? then d else 0
  }

  /** ns are the inodes passed when the elements es are looked up one after the other. */
  ghost predicate Chain(tree: Tree, ns: seq<nat>, es: seq<seq<Byte>>) {
    |ns| == |es| + 1 && forall i {:trigger Link(tree, ns, es, i)} :: 0 <= i < |es| ==> Link(tree, ns, es, i)
  }

  /** ns[i] is a directory that binds the first 14 bytes of es[i] to ns[i + 1]. */
  ghost predicate Link(tree: Tree, ns: seq<nat>, es: seq<seq<Byte>>, i: nat)
    requires i < |es| < |ns|
  {
    var e := if |es[i]| <= 14 then es[i] else es[i][..14];
    ns[i] in tree && tree[ns[i]].DirNode? && e in tree[ns[i]].entries && tree[ns[i]].entries[e] == ns[i + 1]
  }

  ghost predicate Reaches(tree: Tree, ip: nat, es: seq<seq<Byte>>, w: nat) {
    exists ns :: Chain(tree, ns, es) && ns[0] == ip && ns[|es|] == w
  }

  lemma ChainLast(tree: Tree, ns: seq<nat>, es: seq<seq<Byte>>, m: nat)
    requires Chain(tree, ns, es) && |es| == m + 1
    ensures Chain(tree, ns[..m + 1], es[..m]) && Link(tree, ns, es, m)
  {
    var ns', es' := ns[..m + 1], es[..m];
    forall i | 0 <= i < m ensures Link(tree, ns', es', i) {
      assert Link(tree, ns, es, i);
    }
    assert Link(tree, ns, es, m);
  }

  lemma ChainMore(tree: Tree, ns: seq<nat>, es: seq<seq<Byte>>, m: nat, w: nat)
    requires |es| == m + 1 && Chain(tree, ns, es[..m]) && ns[m] in tree && tree[ns[m]].DirNode?
    requires Trunc(es[m]) in tree[ns[m]].entries && tree[ns[m]].entries[Trunc(es[m])] == w
    ensures Chain(tree, ns + [w], es)
  {
    var ns' := ns + [w];
    forall i | 0 <= i < |es| ensures Link(tree, ns', es, i) {
      if i < m {
        assert Link(tree, ns, es[..m], i);
      }
    }
  }

  /** Walk ends at w exactly if the elements lead from ip to w, directory by directory. */
  lemma {:induction false} WalkReaches(tree: Tree, ip: nat, es: seq<seq<Byte>>, w: nat)
    requires WellFormed(tree) && w != 0
    ensures Walk(tree, ip, es) == w <==> Reaches(tree, ip, es, w)
    decreases |es|
  {
    if es == [] {
      assert Chain(tree, [ip], es);
    } else {
      var m := |es| - 1;
      if Walk(tree, ip, es) == w {
        var d := Walk(tree, ip, es[..m]);
        WalkReaches(tree, ip, es[..m], d);
        var ns :| Chain(tree, ns, es[..m]) && ns[0] == ip && ns[m] == d;
        ChainMore(tree, ns, es, m, w);
        assert (ns + [w])[0] == ip && (ns + [w])[|es|] == w;
      }
      if Reaches(tree, ip, es, w) {
        var ns :| Chain(tree, ns, es) && ns[0] == ip && ns[|es|] == w;
        ChainLast(tree, ns, es, m);
        WalkReaches(tree, ip, es[..m], ns[m]);
        assert Chain(tree, ns[..m + 1], es[..m]) && ns[..m + 1][0] == ip && ns[..m + 1][m] == ns[m];
      }
    }
  }

  /** nameiparent's answer is the directory that all elements but the last lead to. */
  lemma ParentReaches(tree: Tree, ip: nat, es: seq<seq<Byte>>, w: nat)
    requires WellFormed(tree) && w != 0
    ensures ParentDir(tree, ip, es) == w <==> es != [] && w in tree && tree[w].DirNode? && Reaches(tree, ip, es[..|es| - 1], w)
  {
    if es != [] {
      WalkReaches(tree, ip, es[..|es| - 1], w);
    }
  }

  /** A path with a slash in front has one answer, whatever the current directory. */
  lemma AbsoluteAnywhere(tree: Tree, path: seq<Byte>, cwd: nat, cwd': nat, nameiparent: bool)
    requires path != [] && path[0] == 47
    ensures var es := Elements([], path);
      Want(tree, Start(path, cwd), es, nameiparent) == Want(tree, Start(path, cwd'), es, nameiparent) == Want(tree, 1, es, nameiparent)
  {
  }

  /** Where a path starts. */
  function Start(path: seq<Byte>, cwd: nat): (ip: nat)
    ensures path != [] && path[0] == 47 ==> ip == 1
    ensures !(path != [] && path[0] == 47) ==> ip == cwd
  {
    if path != [] && path[0] == SLASH then ROOTINO else cwd
  }

  // ---------------------------------------------------------------- the tree on the disk

  ghost function NodeOf(d: Disk, x: Dinode): Node
    requires x.Valid() && x.size <= MAXBYTES
  {
    if x.typ == D.T_DIR then DirNode(D.Bindings(D.Entries(Content(d, x)))) else FileNode
  }

  /** The inodes in use, each with what its contents say. */
  ghost function TreeOf(sb: Super, d: Disk): Tree
    requires sb.Fits(d) && AllWhole(d, Inodes(sb, d))
  {
    map i: nat | 0 < i < sb.ninodes && Inodes(sb, d)[i].typ != 0 :: NodeOf(d, Inodes(sb, d)[i])
  }

  ghost predicate WholeDir(d: Disk, x: Dinode)
    requires x.Valid() && x.size <= MAXBYTES
  {
    x.typ == D.T_DIR ==> D.DirOk(Content(d, x))
  }

  ghost predicate WholeDirs(sb: Super, d: Disk)
    requires sb.Fits(d) && AllWhole(d, Inodes(sb, d))
  {
    forall i {:trigger Inodes(sb, d)[i]} :: 0 < i < sb.ninodes ==> WholeDir(d, Inodes(sb, d)[i])
  }

  /** Directories hold whole entries, and every entry leads to an inode in use. */
  ghost predicate TreeOk(sb: Super, d: Disk, owner: map<nat, Place>) {
    Sound(sb, d, owner) && WholeDirs(sb, d) && WellFormed(TreeOf(sb, d))
  }

  /** An inode that is linked, or that somebody else refers to, is not freed when a lookup lets go of it. */
  ghost predicate Safe(sb: Super, d: Disk, s: seq<Slot>, i: nat)
    requires sb.Fits(d)
  {
    i < sb.ninodes && (Inodes(sb, d)[i].nlink != 0 || Refs(s, i) > 0)
  }

  /** The root, and all that directories name, is safe. */
  ghost predicate Anchored(sb: Super, d: Disk, s: seq<Slot>)
    requires sb.Fits(d) && AllWhole(d, Inodes(sb, d))
  {
    var tree := TreeOf(sb, d);
    && Safe(sb, d, s, ROOTINO)
    && forall i, e :: i in tree && tree[i].DirNode? && e in tree[i].entries ==> Safe(sb, d, s, tree[i].entries[e])
  }

  // ---------------------------------------------------------------- references

  /** The table has the references of s and those in xs. */
  ghost predicate Extra(s: seq<Slot>, t: seq<Slot>, xs: multiset<nat>) {
    forall i: nat {:trigger Refs(t, i)} :: Refs(t, i) == Refs(s, i) + xs[i]
  }

  ghost predicate Refd(ic: Icache, s: seq<Slot>, xs: multiset<nat>)
    reads ic.slots
  {
    ic.Valid() && |s| == NINODE && Unique(s) && Extra(s, ic.slots[..], xs) && Kept(s, ic.slots[..])
  }

  lemma KeptTrans(s: seq<Slot>, t: seq<Slot>, u: seq<Slot>)
    requires Kept(s, t) && Kept(t, u)
    ensures Kept(s, u)
  {
    forall k | 0 <= k < |s| && s[k].ref > 0 ensures u[k].inum == s[k].inum && u[k].ref >= s[k].ref {
      assert t[k].ref > 0;
    }
  }

  /** Dropping a reference that s does not have leaves the references of s. */
  lemma PutKept(s: seq<Slot>, t: seq<Slot>, u: seq<Slot>, k: nat, xs: multiset<nat>)
    requires Unique(s) && Unique(t) && Kept(s, t) && k < |t| == |u| && t[k].ref > 0
    requires Extra(s, t, xs + multiset{t[k].inum}) && u[k].inum == t[k].inum && u[k].ref + 1 == t[k].ref
    requires forall j :: 0 <= j < |t| && j != k ==> u[j] == t[j]
    ensures Kept(s, u)
  {
    if s[k].ref > 0 {
      SlotHasAll(s, k);
      SlotHasAll(t, k);
      assert Refs(t, t[k].inum) >= Refs(s, t[k].inum) + 1;
    }
  }

  /** The file system is as it was. */
  ghost predicate Still(fs: Fs, d: Disk, owner: map<nat, Place>, logged: set<nat>)
    reads fs
  {
    fs.disk == d && fs.owner == owner && fs.held == {} && fs.logged == logged
  }

  /** iunlockput of a slot whose inode is safe: one reference goes, nothing else happens. */
  method Drop(fs: Fs, ic: Icache, k: nat, ghost s: seq<Slot>, ghost xs: multiset<nat>)
    requires ic.Valid() && k < NINODE && Refd(ic, s, xs + multiset{ic.slots[k].inum}) && ic.slots[k].ref > 0
    requires Sound(fs.sb, fs.disk, fs.owner) && fs.held == {} && Safe(fs.sb, fs.disk, s, ic.slots[k].inum)
    modifies ic.slots, fs`disk, fs`owner, fs`held, fs`logged
    ensures Refd(ic, s, xs) && Still(fs, old(fs.disk), old(fs.owner), old(fs.logged))
    ensures forall j :: 0 <= j < NINODE && j != k ==> ic.slots[j] == old(ic.slots[j])
    ensures ic.slots[k].inum == old(ic.slots[k].inum) && ic.slots[k].ref == old(ic.slots[k].ref) - 1
  {
    ghost var t := ic.slots[..];
    SlotHasAll(t, k);
    assert Refs(t, t[k].inum) >= Refs(s, t[k].inum) + 1;
    ic.Iput(fs, k);
    ghost var u := ic.slots[..];
    assert Extra(s, u, xs) by {
      forall i: nat ensures Refs(u, i) == Refs(s, i) + xs[i] {
        assert Refs(t, i) == Refs(s, i) + (xs + multiset{t[k].inum})[i];
      }
    }
    PutKept(s, t, u, k, xs);
  }

  /** iget with the references in xs already taken. */
  method Take(ic: Icache, inum: nat, ghost s: seq<Slot>, ghost xs: multiset<nat>) returns (k: nat, panicked: bool)
    requires Refd(ic, s, xs)
    modifies ic.slots
    ensures panicked <==> Vacant(old(ic.slots[..])) == {} && inum !in InUse(old(ic.slots[..]))
    ensures !panicked ==> k < NINODE && Refd(ic, s, xs + multiset{inum}) && Holds(ic.slots[..], k, inum) && Kept(old(ic.slots[..]), ic.slots[..])
  {
    ghost var t := ic.slots[..];
    k, panicked := ic.Iget(inum);
    if !panicked {
      KeptTrans(s, t, ic.slots[..]);
      ExtraMore(s, t, ic.slots[..], xs, inum);
    }
  }

  /** With a reference to i in hand there is a slot for j: the slots in use are those of s, and i's. */
  ghost predicate Room(s: seq<Slot>, i: nat, j: nat) {
    (if i in InUse(s) then 0 else 1) + (if j == i || j in InUse(s) then 0 else 1) <= |Vacant(s)|
  }

  lemma InUseMore(s: seq<Slot>, t: seq<Slot>, i: nat)
    requires Extra(s, t, multiset{i})
    ensures InUse(t) == InUse(s) + {i}
  {
    forall x: nat ensures x in InUse(t) <==> x in InUse(s) || x == i {
      InUseIsRefs(t, x);
      InUseIsRefs(s, x);
      assert Refs(t, x) == Refs(s, x) + multiset{i}[x];
    }
  }

  /** iget(j) in the middle of a lookup panics exactly when there is no room. */
  lemma NoRoom(s: seq<Slot>, t: seq<Slot>, i: nat, j: nat)
    requires Unique(s) && Unique(t) && |s| == |t| && Extra(s, t, multiset{i})
    ensures Vacant(t) == {} && j !in InUse(t) <==> !Room(s, i, j)
  {
    InUseMore(s, t, i);
    SlotCount(s);
    SlotCount(t);
    assert i in InUse(s) ==> InUse(t) == InUse(s);
    assert |InUse(t)| == |InUse(s)| + if i in InUse(s) then 0 else 1;
  }

  lemma ExtraMore(s: seq<Slot>, t: seq<Slot>, u: seq<Slot>, xs: multiset<nat>, inum: nat)
    requires Extra(s, t, xs) && OneRefMore(t, u, inum)
    ensures Extra(s, u, xs + multiset{inum})
  {
    forall i: nat ensures Refs(u, i) == Refs(s, i) + (xs + multiset{inum})[i] {
      assert Refs(t, i) == Refs(s, i) + xs[i];
    }
  }

  // ---------------------------------------------------------------- namex

  /** A lookup in progress: the file system untouched, one reference held, through slot k, to inode inum. */
  ghost predicate Walking(fs: Fs, ic: Icache, d: Disk, owner: map<nat, Place>, logged: set<nat>, s: seq<Slot>, k: nat, inum: nat)
    reads fs, ic.slots
  {
    && Still(fs, d, owner, logged) && TreeOk(fs.sb, d, owner)
    && k < NINODE && Refd(ic, s, multiset{inum}) && Holds(ic.slots[..], k, inum)
    && inum in TreeOf(fs.sb, d) && Safe(fs.sb, d, s, inum)
  }

  /** A lookup that has ended without a result. */
  ghost predicate Ended(fs: Fs, ic: Icache, d: Disk, owner: map<nat, Place>, logged: set<nat>, s: seq<Slot>)
    reads fs, ic.slots
  {
    Still(fs, d, owner, logged) && Refd(ic, s, multiset{})
  }

  /** ilock of the slot a lookup has come to: the inode has a type, so it cannot panic. */
  method Load(fs: Fs, ic: Icache, k: nat, ghost inum: nat, ghost d: Disk, ghost owner: map<nat, Place>, ghost logged: set<nat>, ghost s: seq<Slot>)
    returns (dp: Inode)
    requires Walking(fs, ic, d, owner, logged, s, k, inum)
    modifies ic.slots
    ensures Walking(fs, ic, d, owner, logged, s, k, inum)
    ensures fresh(dp) && dp.inum == inum && fs.Ready(dp) && dp.Rec() == Inodes(fs.sb, d)[inum]
  {
    ghost var t := ic.slots[..];
    var panicked;
    dp, panicked := ic.Ilock(fs, k);
    KeptTrans(s, t, ic.slots[..]);
    assert forall i: nat :: Refs(ic.slots[..], i) == Refs(t, i);
    assert Extra(s, ic.slots[..], multiset{inum});
  }

  method GiveUp(fs: Fs, ic: Icache, k: nat, ghost inum: nat, ghost d: Disk, ghost owner: map<nat, Place>, ghost logged: set<nat>, ghost s: seq<Slot>)
    requires Walking(fs, ic, d, owner, logged, s, k, inum)
    modifies ic.slots, fs`disk, fs`owner, fs`held, fs`logged
    ensures Ended(fs, ic, d, owner, logged, s)
  {
    assert multiset{} + multiset{inum} == multiset{inum};
    Drop(fs, ic, k, s, multiset{});
  }

  /** dirlookup in directory dp, then iunlockput of it: the reference moves to the entry found, or is dropped. */
  method Descend(fs: Fs, ic: Icache, k: nat, dp: Inode, name: array<Byte>, ghost e: seq<Byte>, ghost d: Disk, ghost owner: map<nat, Place>,
      ghost logged: set<nat>, ghost s: seq<Slot>) returns (next: nat, j: nat, panicked: bool)
    requires Walking(fs, ic, d, owner, logged, s, k, dp.inum) && Anchored(fs.sb, d, s)
    requires fs.Ready(dp) && dp.Rec() == Inodes(fs.sb, d)[dp.inum] && dp.typ == D.T_DIR
    requires name.Length == DIRSIZ && Key(name[..]) == Trunc(e)
    modifies ic.slots, fs`disk, fs`owner, fs`held, fs`logged, dp`addrs
    ensures panicked ==> Still(fs, d, owner, logged)
    ensures next == Enter(TreeOf(fs.sb, d), dp.inum, e) && (panicked <==> next != 0 && !Room(s, dp.inum, next))
    ensures !panicked && next == 0 ==> Ended(fs, ic, d, owner, logged, s)
    ensures !panicked && next != 0 ==> Walking(fs, ic, d, owner, logged, s, j, next)
  {
    ghost var inum, tree := dp.inum, TreeOf(fs.sb, d);
    assert tree[inum] == NodeOf(d, dp.Rec()) && D.DirOk(fs.FileOf(dp));
    var inode, _, bad, _ := D.Dirlookup(fs, dp, name[..]);
    next, j, panicked := inode, 0, bad;
    if next == 0 {
      GiveUp(fs, ic, k, inum, d, owner, logged, s);
      return;
    }
    assert Trunc(e) in tree[inum].entries && tree[inum].entries[Trunc(e)] == next;
    j, panicked := Move(fs, ic, k, inum, next, d, owner, logged, s);
  }

  /** iget of the entry found and iput of the directory it was found in. */
  method Move(fs: Fs, ic: Icache, k: nat, ghost inum: nat, next: nat, ghost d: Disk, ghost owner: map<nat, Place>, ghost logged: set<nat>,
      ghost s: seq<Slot>) returns (j: nat, panicked: bool)
    requires Walking(fs, ic, d, owner, logged, s, k, inum) && next in TreeOf(fs.sb, d) && Safe(fs.sb, d, s, next)
    modifies ic.slots, fs`disk, fs`owner, fs`held, fs`logged
    ensures panicked <==> !Room(s, inum, next)
    ensures panicked ==> Still(fs, d, owner, logged)
    ensures !panicked ==> Walking(fs, ic, d, owner, logged, s, j, next)
  {
    ghost var t := ic.slots[..];
    NoRoom(s, t, inum, next);
    j, panicked := Take(ic, next, s, multiset{inum});
    if panicked {
      return;
    }
    assert t[k].ref > 0;
    assert ic.slots[..][k].inum == inum;
    assert multiset{inum} + multiset{next} == multiset{next} + multiset{inum};
    ghost var u := ic.slots[..];
    if j == k {
      SlotHasAll(u, k);
      assert Refs(u, inum) == Refs(s, inum) + (multiset{next} + multiset{inum})[inum];
    }
    Drop(fs, ic, k, s, multiset{next});
    assert Holds(ic.slots[..], j, next);
  }

  lemma CwdTaken(s: seq<Slot>, t: seq<Slot>, cwd: nat)
    requires cwd < |s| == |t| && Unique(s) && s[cwd].ref > 0 && OneRefMore(s, t, s[cwd].inum)
    ensures Extra(s, t, multiset{s[cwd].inum}) && Refs(s, s[cwd].inum) > 0
  {
    SlotHasAll(s, cwd);
  }

  /** The inode a lookup starts from: the root, or the current directory. */
  method Begin(fs: Fs, ic: Icache, absolute: bool, cwd: nat, ghost s: seq<Slot>, ghost inum: nat) returns (ip: nat, panicked: bool)
    requires TreeOk(fs.sb, fs.disk, fs.owner) && fs.held == {}
    requires ic.Valid() && cwd < NINODE && ic.slots[cwd].ref > 0 && ic.slots[cwd].inum in TreeOf(fs.sb, fs.disk)
    requires Anchored(fs.sb, fs.disk, ic.slots[..]) && s == ic.slots[..] && inum == if absolute then ROOTINO else ic.slots[cwd].inum
    modifies ic.slots
    ensures panicked <==> absolute && Vacant(s) == {} && ROOTINO !in InUse(s)
    ensures !panicked ==> Walking(fs, ic, fs.disk, fs.owner, fs.logged, s, ip, inum)
  {
    if absolute {
      ip, panicked := Take(ic, ROOTINO, s, multiset{});
      assert multiset{} + multiset{ROOTINO} == multiset{ROOTINO};
    } else {
      ic.Idup(cwd);
      ip, panicked := cwd, false;
      CwdTaken(s, ic.slots[..], cwd);
    }
  }

  /** What one round of namex's loop comes to. */
  datatype Round = Failed | Stopped | Entered | Panicked

  /** ilock, the test for a directory, the early stop for nameiparent, dirlookup and iunlockput. */
  method OneRound(fs: Fs, ic: Icache, k: nat, stop: bool, name: array<Byte>, ghost inum: nat, ghost e: seq<Byte>, ghost d: Disk,
      ghost owner: map<nat, Place>, ghost logged: set<nat>, ghost s: seq<Slot>) returns (r: Round, next: nat, j: nat)
    requires Walking(fs, ic, d, owner, logged, s, k, inum) && Anchored(fs.sb, d, s) && name.Length == DIRSIZ && Key(name[..]) == Trunc(e)
    modifies ic.slots, fs`disk, fs`owner, fs`held, fs`logged
    ensures r.Panicked? ==> !stop && Still(fs, d, owner, logged) && Enter(TreeOf(fs.sb, d), inum, e) == next != 0 && !Room(s, inum, next)
    ensures r.Failed? ==> Ended(fs, ic, d, owner, logged, s) && Enter(TreeOf(fs.sb, d), inum, e) == 0 && (stop ==> TreeOf(fs.sb, d)[inum].FileNode?)
    ensures r.Stopped? ==> stop && Walking(fs, ic, d, owner, logged, s, k, inum) && TreeOf(fs.sb, d)[inum].DirNode?
    ensures r.Entered? ==> !stop && Walking(fs, ic, d, owner, logged, s, j, next) && Enter(TreeOf(fs.sb, d), inum, e) == next != 0 && Room(s, inum, next)
  {
    next, j := 0, 0;
    var dp := Load(fs, ic, k, inum, d, owner, logged, s);
    if dp.typ != D.T_DIR {
      GiveUp(fs, ic, k, inum, d, owner, logged, s);
      r := Failed;
    } else if stop {
      r := Stopped;
    } else {
      var panicked;
      next, j, panicked := Descend(fs, ic, k, dp, name, e, d, owner, logged, s);
      r := if panicked then Panicked else if next == 0 then Failed else Entered;
    }
  }

  /** The inode number a path asks for, 0 if there is none. */
  ghost function Want(tree: Tree, start: nat, es: seq<seq<Byte>>, nameiparent: bool): nat {
    if nameiparent then ParentDir(tree, start, es) else Walk(tree, start, es)
  }

  /** What namex promises of its result; `want` is the inode number asked for. */
  ghost predicate Found(ic: Icache, s: seq<Slot>, want: nat, found: bool, ip: nat)
    reads ic.slots
  {
    && ic.Valid() && Kept(s, ic.slots[..]) && (found <==> want != 0)
    && (found ==> ip < NINODE && Holds(ic.slots[..], ip, want) && OneRefMore(s, ic.slots[..], want))
    && (!found ==> forall i: nat :: Refs(ic.slots[..], i) == Refs(s, i))
  }

  lemma Success(fs: Fs, ic: Icache, d: Disk, owner: map<nat, Place>, logged: set<nat>, s: seq<Slot>, k: nat, inum: nat)
    requires Walking(fs, ic, d, owner, logged, s, k, inum)
    ensures Found(ic, s, inum, true, k)
  {
    forall i: nat ensures Refs(ic.slots[..], i) == Refs(s, i) + if i == inum then 1 else 0 {
    }
  }

  lemma Failure(fs: Fs, ic: Icache, d: Disk, owner: map<nat, Place>, logged: set<nat>, s: seq<Slot>, k: nat)
    requires Ended(fs, ic, d, owner, logged, s)
    ensures Found(ic, s, 0, false, k)
  {
  }

  /** The first k elements have led from start to inum, and rest has the others. */
  ghost predicate Progress(tree: Tree, start: nat, es: seq<seq<Byte>>, parent: bool, k: nat, rest: seq<Byte>, inum: nat) {
    && k <= |es| && 0 !in rest && Elements([], rest) == es[k..] && (parent && es != [] ==> k < |es|)
    && Walk(tree, start, es[..k]) == inum && inum in tree && 0 !in tree
  }

  /** What skipelem takes off rest. */
  ghost predicate Skipped(rest: seq<Byte>, e: seq<Byte>, after: seq<Byte>) {
    && Elements([], rest) != [] && e == Elements([], rest)[0] && 0 !in after
    && Elements([], after) == Elements([], rest)[1..] && (after == [] <==> |Elements([], rest)| == 1)
  }

  lemma Advance(tree: Tree, start: nat, es: seq<seq<Byte>>, parent: bool, k: nat, rest: seq<Byte>, inum: nat, e: seq<Byte>,
      after: seq<Byte>, next: nat, succ: nat)
    requires Progress(tree, start, es, parent, k, rest, inum) && Skipped(rest, e, after) && !(parent && after == [])
    requires Enter(tree, inum, e) == next && next in tree && succ == k + 1
    ensures Progress(tree, start, es, parent, succ, after, next)
  {
    Split(es, k, succ);
  }

  /** No element left. */
  lemma Arrived(tree: Tree, start: nat, es: seq<seq<Byte>>, parent: bool, k: nat, rest: seq<Byte>, inum: nat)
    requires Progress(tree, start, es, parent, k, rest, inum) && Elements([], rest) == []
    ensures Want(tree, start, es, parent) == (if parent then 0 else inum) && k == |es|
  {
    assert es[..k] == es;
  }

  /** Stopped early at the directory of the last element. */
  lemma StopsAtParent(tree: Tree, start: nat, es: seq<seq<Byte>>, k: nat, rest: seq<Byte>, inum: nat, e: seq<Byte>, after: seq<Byte>)
    requires Progress(tree, start, es, true, k, rest, inum) && Skipped(rest, e, after) && after == [] && tree[inum].DirNode?
    ensures Want(tree, start, es, true) == inum && es != [] && es[|es| - 1] == e
  {
    assert es[..|es| - 1] == es[..k];
  }

  lemma LookupFails(tree: Tree, start: nat, es: seq<seq<Byte>>, parent: bool, k: nat, rest: seq<Byte>, inum: nat, e: seq<Byte>, after: seq<Byte>)
    requires Progress(tree, start, es, parent, k, rest, inum) && Skipped(rest, e, after)
    requires Enter(tree, inum, e) == 0 && (parent && after == [] ==> tree[inum].FileNode?)
    ensures Want(tree, start, es, parent) == 0
  {
    assert es[k..][0] == es[k];
    Fails(tree, start, es, k, inum);
  }

  /** Looking up element k finds an inode that there is no room for. */
  ghost predicate Squeezed(s: seq<Slot>, tree: Tree, start: nat, es: seq<seq<Byte>>, k: nat) {
    k < |es| && Walk(tree, start, es[..k + 1]) != 0 && !Room(s, Walk(tree, start, es[..k]), Walk(tree, start, es[..k + 1]))
  }

  /** One of the lookups does; nameiparent does without the last. */
  ghost predicate Crowded(s: seq<Slot>, tree: Tree, start: nat, es: seq<seq<Byte>>, parent: bool) {
    exists k: nat :: k < |es| - (if parent then 1 else 0) && Squeezed(s, tree, start, es, k)
  }

  /** None of the first k lookups does. */
  ghost predicate Roomy(s: seq<Slot>, tree: Tree, start: nat, es: seq<seq<Byte>>, k: nat) {
    forall j: nat :: j < k ==> !Squeezed(s, tree, start, es, j)
  }

  /** With two free slots a lookup has room for any path. */
  lemma TwoVacant(s: seq<Slot>, tree: Tree, start: nat, es: seq<seq<Byte>>, parent: bool)
    requires |Vacant(s)| >= 2
    ensures !Crowded(s, tree, start, es, parent)
  {
  }

  lemma StepIs(tree: Tree, start: nat, es: seq<seq<Byte>>, parent: bool, k: nat, rest: seq<Byte>, inum: nat, e: seq<Byte>, after: seq<Byte>, next: nat)
    requires Progress(tree, start, es, parent, k, rest, inum) && Skipped(rest, e, after) && Enter(tree, inum, e) == next
    ensures k < |es| && Walk(tree, start, es[..k]) == inum && Walk(tree, start, es[..k + 1]) == next && (after == [] <==> k + 1 == |es|)
  {
    Split(es, k, k + 1);
  }

  lemma RoomyNext(s: seq<Slot>, tree: Tree, start: nat, es: seq<seq<Byte>>, parent: bool, k: nat, rest: seq<Byte>, inum: nat, e: seq<Byte>,
      after: seq<Byte>, next: nat, succ: nat)
    requires Progress(tree, start, es, parent, k, rest, inum) && Skipped(rest, e, after) && Enter(tree, inum, e) == next
    requires Roomy(s, tree, start, es, k) && Room(s, inum, next) && succ == k + 1
    ensures Roomy(s, tree, start, es, succ)
  {
    StepIs(tree, start, es, parent, k, rest, inum, e, after, next);
  }

  lemma CrowdedHere(s: seq<Slot>, tree: Tree, start: nat, es: seq<seq<Byte>>, parent: bool, k: nat, rest: seq<Byte>, inum: nat, e: seq<Byte>,
      after: seq<Byte>, next: nat)
    requires Progress(tree, start, es, parent, k, rest, inum) && Skipped(rest, e, after) && Enter(tree, inum, e) == next != 0
    requires !Room(s, inum, next) && !(parent && after == [])
    ensures Crowded(s, tree, start, es, parent)
  {
    StepIs(tree, start, es, parent, k, rest, inum, e, after, next);
    assert Squeezed(s, tree, start, es, k);
  }

  /** After an element that is not found nothing more is looked up. */
  lemma NotCrowded(s: seq<Slot>, tree: Tree, start: nat, es: seq<seq<Byte>>, parent: bool, k: nat, rest: seq<Byte>, inum: nat, e: seq<Byte>,
      after: seq<Byte>)
    requires Progress(tree, start, es, parent, k, rest, inum) && Skipped(rest, e, after) && Enter(tree, inum, e) == 0
    requires Roomy(s, tree, start, es, k)
    ensures !Crowded(s, tree, start, es, parent)
  {
    StepIs(tree, start, es, parent, k, rest, inum, e, after, 0);
    forall j: nat | j < |es| ensures !Squeezed(s, tree, start, es, j) {
      if j >= k {
        assert es[..j + 1][..k + 1] == es[..k + 1];
        WalkFails(tree, start, es[..j + 1], k + 1);
      }
    }
  }

  /** Nor when the path is at its end, or nameiparent at the last element. */
  lemma RoomyToEnd(s: seq<Slot>, tree: Tree, start: nat, es: seq<seq<Byte>>, parent: bool, k: nat)
    requires Roomy(s, tree, start, es, k) && (k == |es| || (parent && k + 1 == |es|))
    ensures !Crowded(s, tree, start, es, parent)
  {
  }

  /**
   Look path up from the directory in slot cwd.  The result is the slot of the inode reached by
   looking up the path's elements in turn in the directories on the disk, or with nameiparent of
   the directory of the last element, whose name is left in `name`.  It carries one new reference
   and no other reference is left behind; nothing is written.  A path that begins with a slash
   is looked up from the root, wherever cwd is.  The call panics exactly when it comes to an
   inode that the table has no slot for, beside the one that it still holds.
   */
  method Namex(fs: Fs, ic: Icache, path: seq<Byte>, cwd: nat, nameiparent: bool, name: array<Byte>)
    returns (found: bool, ip: nat, panicked: bool)
    requires TreeOk(fs.sb, fs.disk, fs.owner) && fs.held == {} && 0 !in path && name.Length == DIRSIZ
    requires ic.Valid() && cwd < NINODE && ic.slots[cwd].ref > 0 && ic.slots[cwd].inum in TreeOf(fs.sb, fs.disk)
    requires Anchored(fs.sb, fs.disk, ic.slots[..])
    modifies ic.slots, name, fs`disk, fs`owner, fs`held, fs`logged
    ensures Still(fs, old(fs.disk), old(fs.owner), old(fs.logged))
    ensures path != [] && path[0] == 47 ==>
      var s := old(ic.slots[..]);
      (panicked <==> (Vacant(s) == {} && 1 !in InUse(s)) || Crowded(s, TreeOf(fs.sb, fs.disk), 1, Elements([], path), nameiparent))
    ensures !(path != [] && path[0] == 47) ==>
      (panicked <==> Crowded(old(ic.slots[..]), TreeOf(fs.sb, fs.disk), old(ic.slots[cwd].inum), Elements([], path), nameiparent))
    ensures !panicked && path != [] && path[0] == 47 ==>
      Found(ic, old(ic.slots[..]), Want(TreeOf(fs.sb, fs.disk), 1, Elements([], path), nameiparent), found, ip)
    ensures !panicked && !(path != [] && path[0] == 47) ==>
      Found(ic, old(ic.slots[..]), Want(TreeOf(fs.sb, fs.disk), old(ic.slots[cwd].inum), Elements([], path), nameiparent), found, ip)
    ensures !panicked && nameiparent && found ==> Elements([], path) != [] && Key(name[..]) == Trunc(Elements([], path)[|Elements([], path)| - 1])
  {
    ghost var s, start := ic.slots[..], Start(path, ic.slots[cwd].inum);
    ghost var tree, es := TreeOf(fs.sb, fs.disk), Elements([], path);
    found := false;
    ip, panicked := Begin(fs, ic, path != [] && path[0] == SLASH, cwd, s, start);
    if !panicked {
      found, ip, panicked := Follow(fs, ic, path, nameiparent, name, ip, start, fs.disk, fs.owner, fs.logged, s, tree, es);
    }
  }

  /** The loop of namex, from the inode start in slot first. */
  method Follow(fs: Fs, ic: Icache, path: seq<Byte>, nameiparent: bool, name: array<Byte>, first: nat, ghost start: nat, ghost d: Disk,
      ghost owner: map<nat, Place>, ghost logged: set<nat>, ghost s: seq<Slot>, ghost tree: Tree, ghost es: seq<seq<Byte>>)
    returns (found: bool, ip: nat, panicked: bool)
    requires Walking(fs, ic, d, owner, logged, s, first, start) && Anchored(fs.sb, d, s) && 0 !in path && name.Length == DIRSIZ
    modifies ic.slots, name, fs`disk, fs`owner, fs`held, fs`logged
    requires tree == TreeOf(fs.sb, d) && es == Elements([], path)
    ensures Still(fs, d, owner, logged)
    ensures panicked <==> Crowded(s, tree, start, es, nameiparent)
    ensures !panicked ==> Found(ic, s, Want(tree, start, es, nameiparent), found, ip) && (nameiparent && found ==> es != [] && Key(name[..]) == Trunc(es[|es| - 1]))
  {
    found, ip, panicked := false, first, false;
    var rest := path;
    ghost var inum, k := start, 0;
    assert es[..0] == [] && es[0..] == es;
    while true
      invariant Progress(tree, start, es, nameiparent, k, rest, inum) && Walking(fs, ic, d, owner, logged, s, ip, inum)
      invariant Roomy(s, tree, start, es, k)
      decreases |es| - k
    {
      var more, after := Skipelem(rest, name);
      if !more {
        break;
      }
      ghost var e := Elements([], rest)[0];
      var r, next, j := OneRound(fs, ic, ip, nameiparent && after == [], name, inum, e, d, owner, logged, s);
      if r.Panicked? {
        CrowdedHere(s, tree, start, es, nameiparent, k, rest, inum, e, after, next);
        panicked := true;
        return;
      }
      if r.Failed? {
        NotCrowded(s, tree, start, es, nameiparent, k, rest, inum, e, after);
        LookupFails(tree, start, es, nameiparent, k, rest, inum, e, after);
        Failure(fs, ic, d, owner, logged, s, ip);
        return;
      }
      if r.Stopped? {
        RoomyToEnd(s, tree, start, es, true, k);
        StopsAtParent(tree, start, es, k, rest, inum, e, after);
        Success(fs, ic, d, owner, logged, s, ip, inum);
        found := true;
        return;
      }
      ghost var succ := k + 1;
      RoomyNext(s, tree, start, es, nameiparent, k, rest, inum, e, after, next, succ);
      Advance(tree, start, es, nameiparent, k, rest, inum, e, after, next, succ);
      inum, ip, rest, k := next, j, after, succ;
    }
    Arrived(tree, start, es, nameiparent, k, rest, inum);
    RoomyToEnd(s, tree, start, es, nameiparent, k);
    found := Finish(fs, ic, nameiparent, ip, inum, d, owner, logged, s);
  }

  /** The end of namex: nameiparent wanted an element and there was none. */
  method Finish(fs: Fs, ic: Icache, nameiparent: bool, ip: nat, ghost inum: nat, ghost d: Disk, ghost owner: map<nat, Place>,
      ghost logged: set<nat>, ghost s: seq<Slot>) returns (found: bool)
    requires Walking(fs, ic, d, owner, logged, s, ip, inum)
    modifies ic.slots, fs`disk, fs`owner, fs`held, fs`logged
    ensures Still(fs, d, owner, logged) && found == !nameiparent && Found(ic, s, if nameiparent then 0 else inum, found, ip)
  {
    if nameiparent {
      GiveUp(fs, ic, ip, inum, d, owner, logged, s);
      Failure(fs, ic, d, owner, logged, s, ip);
      return false;
    }
    Success(fs, ic, d, owner, logged, s, ip, inum);
    return true;
  }

  lemma Split(es: seq<seq<Byte>>, k: nat, next: nat)
    requires k < |es| && next == k + 1
    ensures es[k..][0] == es[k] && es[k..][1..] == es[next..] && es[..next][..k] == es[..k] && es[..next][k] == es[k]
  {
  }

  /** A failure at element k fails the whole lookup. */
  lemma Fails(tree: Tree, start: nat, es: seq<seq<Byte>>, k: nat, ip: nat)
    requires 0 !in tree && k < |es| && ip in tree && Walk(tree, start, es[..k]) == ip && Enter(tree, ip, es[k]) == 0
    ensures Walk(tree, start, es) == 0 && (k + 1 < |es| || tree[ip].FileNode? ==> ParentDir(tree, start, es) == 0)
  {
    assert es[..k + 1][..k] == es[..k];
    WalkFails(tree, start, es, k + 1);
    if k + 1 < |es| {
      assert es[..|es| - 1][..k + 1] == es[..k + 1];
      WalkFails(tree, start, es[..|es| - 1], k + 1);
    }
  }
}
