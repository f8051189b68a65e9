/** mkfs (mkfs.c) without files to copy in: an image with a root directory and nothing else, and what it takes to keep it well formed. */
module Mkfs {
  import opened Params
  import opened FsDisk
  import opened FsBlocks
  import opened FsContent
  import opened FileSystem
  import opened Names
  import opened Paths
  import D = Directory
  import BC = BlockCount

  const DOT: Byte := 46

  function Blank(): Dinode {
    Dinode(0, 0, 0, 0, 0, seq(NDIRECT + 1, _ => 0))
  }

  /** A directory of one block, the one at b. */
  function RootInode(b: nat): Dinode {
    Dinode(D.T_DIR, 0, 0, 1, BSIZE, [b] + seq(NDIRECT, _ => 0))
  }

  /** n NULs. */
  function Nuls(n: nat): (r: seq<Byte>)
    ensures |r| == n && forall i :: 0 <= i < n ==> r[i] == 0
  {
    seq(n, _ => 0)
  }

  /** The entries for "." and "..", both the root itself. */
  function RootDots(): (r: seq<Byte>)
    ensures |r| == 32
  {
    D.EntryBytes(ROOTINO, [DOT] + Nuls(13)) + D.EntryBytes(ROOTINO, [DOT, DOT] + Nuls(12))
  }

  /** They begin the root's block, and the rest of it is unused. */
  function RootBlock(): Block {
    RootDots() + Nuls(480)
  }

  lemma BlankBytes(s: seq<Byte>)
    requires |s| == DINODE && forall i :: 0 <= i < |s| ==> s[i] == 0
    ensures DecodeDinode(s) == Blank()
  {
    DecodeZero(s[0..2]);
    DecodeZero(s[2..4]);
    DecodeZero(s[4..6]);
    DecodeZero(s[6..8]);
    DecodeZero(s[8..12]);
    forall k | 0 <= k < NDIRECT + 1 ensures DecodeDinode(s).addrs[k] == 0 {
      DecodeZero(s[12 + 4 * k..16 + 4 * k]);
    }
  }

  /** On a zeroed disk every inode is free. */
  lemma BlankInodes(sb: Super, d: Disk)
    requires sb.Fits(d) && forall b :: 0 <= b < |d| ==> d[b] == Zeros()
    ensures forall i :: 0 <= i < sb.ninodes ==> Inodes(sb, d)[i] == Blank()
  {
    forall i | 0 <= i < sb.ninodes ensures GetDinode(sb, d, i) == Blank() {
      var off := i % IPB * DINODE;
      BlankBytes(d[sb.IBlock(i)][off..off + DINODE]);
    }
  }

  /** The image: every inode free but the root, whose one block, the first behind the metadata, holds c, and the bit map marking all up to it. */
  ghost predicate Image(sb: Super, d: Disk, c: Block) {
    && sb.Fits(d) && ROOTINO < sb.ninodes && sb.Meta() < sb.size
    && (forall i {:trigger Inodes(sb, d)[i]} :: 0 <= i < sb.ninodes ==>
          Inodes(sb, d)[i] == if i == ROOTINO then RootInode(sb.Meta()) else Blank())
    && d[sb.Meta()] == c
    && (forall b {:trigger Marked(sb, d, b)} :: 0 <= b < sb.size ==> (Marked(sb, d, b) <==> b <= sb.Meta()))
  }

  ghost function RootOwner(sb: Super): map<nat, Place> {
    map[sb.Meta() := Place(ROOTINO, 0)]
  }

  lemma ImageRefs(sb: Super, d: Disk, c: Block, i: nat, k: nat)
    requires Image(sb, d, c) && i < sb.ninodes && k < SLOTS
    ensures Ref(d, Inodes(sb, d)[i], k) == if i == ROOTINO && k == 0 then sb.Meta() else 0
  {
  }

  lemma ImageOwned(sb: Super, d: Disk, c: Block)
    requires Image(sb, d, c)
    ensures Owned(sb, d, Inodes(sb, d), RootOwner(sb), {})
  {
    var ii, owner, b := Inodes(sb, d), RootOwner(sb), sb.Meta();
    forall i | 0 <= i < |ii| ensures ii[i].Valid() {
    }
    assert References(sb, d, ii, owner) by {
      forall i, k | 0 <= i < |ii| && 0 <= k < SLOTS ensures Ref(d, ii[i], k) == if i == ROOTINO && k == 0 then b else 0 {
        ImageRefs(sb, d, c, i, k);
      }
      assert At(d, ii, owner[b], b);
    }
  }

  lemma ImageContent(sb: Super, d: Disk, c: Block)
    requires Image(sb, d, c)
    ensures AllWhole(d, Inodes(sb, d)) && Content(d, Inodes(sb, d)[ROOTINO]) == c
  {
    var x := Inodes(sb, d)[ROOTINO];
    forall o | 0 <= o < BSIZE ensures BlockOf(d, x, o) == sb.Meta() && ByteAt(d, x, o) == c[o] {
      ImageRefs(sb, d, c, ROOTINO, 0);
    }
  }

  lemma RootEntries()
    ensures var es := D.Entries(RootBlock());
      && |es| == 32 && es[0] == D.Entry(ROOTINO, [DOT]) && es[1] == D.Entry(ROOTINO, [DOT, DOT])
      && forall k :: 2 <= k < 32 ==> es[k].inum == 0
  {
    var c := RootBlock();
    var dot, dots := [DOT] + Nuls(13), [DOT, DOT] + Nuls(12);
    assert Key(dot) == [DOT] && Key(dots) == [DOT, DOT];
    assert c[0..16] == D.EntryBytes(ROOTINO, dot) && c[16..32] == D.EntryBytes(ROOTINO, dots);
    assert D.EntryAt(c, 0) == D.Entry(ROOTINO, [DOT]) && D.EntryAt(c, 1) == D.Entry(ROOTINO, [DOT, DOT]);
    forall k | 2 <= k < 32 ensures D.EntryAt(c, k).inum == 0 {
      var off := D.Offset(k);
      assert c[off] == 0 && c[off + 1] == 0;
    }
  }

  lemma {:induction false} NoBindings(es: seq<D.Entry>)
    requires forall k :: 0 <= k < |es| ==> es[k].inum == 0
    ensures D.Bindings(es) == map[]
  {
    if es != [] {
      NoBindings(es[1..]);
    }
  }

  lemma TwoBindings(es: seq<D.Entry>, a: seq<Byte>, b: seq<Byte>, i: nat)
    requires |es| >= 2 && es[0] == D.Entry(i, a) && es[1] == D.Entry(i, b) && i != 0
    requires forall k :: 2 <= k < |es| ==> es[k].inum == 0
    ensures D.Bindings(es) == map[a := i, b := i]
  {
    var fs := es[1..];
    NoBindings(fs[1..]);
    assert D.Bindings(fs) == map[b := i];
  }

  lemma RootBindings()
    ensures D.Bindings(D.Entries(RootBlock())) == map[[DOT] := ROOTINO, [DOT, DOT] := ROOTINO]
  {
    RootEntries();
    TwoBindings(D.Entries(RootBlock()), [DOT], [DOT, DOT], ROOTINO);
  }

  ghost function RootTree(m: map<seq<Byte>, nat>): Tree {
    map[ROOTINO := DirNode(m)]
  }

  lemma ImageTree(sb: Super, d: Disk, c: Block, m: map<seq<Byte>, nat>)
    requires Image(sb, d, c) && AllWhole(d, Inodes(sb, d)) && Content(d, Inodes(sb, d)[ROOTINO]) == c && D.Bindings(D.Entries(c)) == m
    ensures TreeOf(sb, d) == RootTree(m)
  {
    var tree := TreeOf(sb, d);
    NodeAt(sb, d, ROOTINO);
    forall i: nat | i != ROOTINO ensures i !in tree {
      if 0 < i < sb.ninodes {
        assert Inodes(sb, d)[i] == Blank();
      }
    }
    SameBut(map[], tree, ROOTINO, DirNode(m));
  }

  lemma ImageWhole(sb: Super, d: Disk, c: Block)
    requires Image(sb, d, c) && AllWhole(d, Inodes(sb, d)) && Content(d, Inodes(sb, d)[ROOTINO]) == c
    ensures WholeDirs(sb, d)
  {
    forall i | 0 < i < sb.ninodes ensures WholeDir(d, Inodes(sb, d)[i]) {
    }
  }

  /** An image whose root names only the root is a file system in which every lookup is defined. */
  lemma ImageOk(sb: Super, d: Disk, c: Block, m: map<seq<Byte>, nat>)
    requires Image(sb, d, c) && D.Bindings(D.Entries(c)) == m && forall e :: e in m ==> m[e] == ROOTINO
    ensures TreeOk(sb, d, RootOwner(sb)) && TreeOf(sb, d) == RootTree(m) && Anchored(sb, d, [])
  {
    ImageContent(sb, d, c);
    ImageTree(sb, d, c, m);
    ImageWhole(sb, d, c);
    assert Sound(sb, d, RootOwner(sb)) by {
      ImageOwned(sb, d, c);
    }
    assert Inodes(sb, d)[ROOTINO].nlink == 1;
  }

  /** Mark the first `used` blocks. */
  method MarkFirst(sb: Super, d0: Disk, used: nat) returns (d: Disk)
    requires sb.Fits(d0) && used <= sb.size && forall b :: 0 <= b < sb.size ==> !Marked(sb, d0, b)
    ensures |d| == |d0| && forall b :: 0 <= b < sb.size ==> (Marked(sb, d, b) <==> b < used)
    ensures forall b :: 0 <= b < sb.bmapstart || sb.Meta() <= b < sb.size ==> d[b] == d0[b]
  {
    d := d0;
    var i := 0;
    while i < used
      invariant i <= used && |d| == |d0| && forall b :: 0 <= b < sb.size ==> (Marked(sb, d, b) <==> b < i)
      invariant forall b :: 0 <= b < sb.bmapstart || sb.Meta() <= b < sb.size ==> d[b] == d0[b]
    {
      WithMarkAt(sb, d, i, true);
      d := WithMark(sb, d, i, true);
      i := i + 1;
    }
  }

  lemma Unmarked(sb: Super, d: Disk, b: nat)
    requires sb.Fits(d) && b < sb.size && forall x :: sb.bmapstart <= x < sb.Meta() ==> d[x] == Zeros()
    ensures !Marked(sb, d, b)
  {
    ZeroBits(b % BPB % 8);
  }

  lemma {:induction false} ZeroBits(k: nat)
    ensures !Bit(0, k)
  {
    if k > 0 {
      ZeroBits(k - 1);
    }
  }

  /** The root inode alone in use, and the root's block written. */
  ghost predicate Filled(sb: Super, d: Disk, c: Block) {
    && sb.Fits(d) && ROOTINO < sb.ninodes && sb.Meta() < sb.size && d[sb.Meta()] == c
    && (forall i {:trigger Inodes(sb, d)[i]} :: 0 <= i < sb.ninodes ==>
          Inodes(sb, d)[i] == if i == ROOTINO then RootInode(sb.Meta()) else Blank())
  }

  /** Writing the root inode and its block into a zeroed disk. */
  lemma Written(sb: Super, zeroed: Disk, c: Block)
    requires sb.Fits(zeroed) && (forall b :: 0 <= b < |zeroed| ==> zeroed[b] == Zeros()) && ROOTINO < sb.ninodes && sb.Meta() < sb.size
    ensures var e := PutDinode(sb, zeroed, ROOTINO, RootInode(sb.Meta()))[sb.Meta() := c];
      Filled(sb, e, c) && forall b :: 0 <= b < sb.size ==> !Marked(sb, e, b)
  {
    var d := PutDinode(sb, zeroed, ROOTINO, RootInode(sb.Meta()));
    var e := d[sb.Meta() := c];
    BlankInodes(sb, zeroed);
    UpdatedInodes(sb, zeroed, ROOTINO, RootInode(sb.Meta()));
    SameInodes(sb, d, e);
    forall b | 0 <= b < sb.size ensures !Marked(sb, e, b) {
      Unmarked(sb, e, b);
    }
  }

  /** Marking the blocks in use completes the image. */
  lemma Completed(sb: Super, e: Disk, f: Disk, c: Block)
    requires Filled(sb, e, c) && |f| == |e| && forall b :: 0 <= b < sb.size ==> (Marked(sb, f, b) <==> b < sb.Meta() + 1)
    requires forall b :: 0 <= b < sb.bmapstart || sb.Meta() <= b < sb.size ==> f[b] == e[b]
    ensures Image(sb, f, c)
  {
    SameInodes(sb, e, f);
  }

  /** Lay out the image. */
  method Format(sb: Super) returns (d: Disk)
    requires sb.Valid() && ROOTINO < sb.ninodes && sb.Meta() < sb.size
    ensures Image(sb, d, RootBlock())
  {
    var c := RootBlock();
    d := seq(sb.size, _ => Zeros());
    Written(sb, d, c);
    d := PutDinode(sb, d, ROOTINO, RootInode(sb.Meta()));
    d := d[sb.Meta() := c];
    ghost var e := d;
    d := MarkFirst(sb, d, sb.Meta() + 1);
    Completed(sb, e, d, c);
  }

  /** Format a disk and start with it. */
  method Mkfs(sb: Super) returns (fs: Fs)
    requires sb.Valid() && ROOTINO < sb.ninodes && sb.Meta() < sb.size
    ensures fresh(fs) && fs.sb == sb && fs.held == {} && TreeOk(sb, fs.disk, fs.owner) && Anchored(sb, fs.disk, [])
    ensures TreeOf(sb, fs.disk) == map[ROOTINO := DirNode(map[[DOT] := ROOTINO, [DOT, DOT] := ROOTINO])]
  {
    var d := Format(sb);
    RootBindings();
    ImageOk(sb, d, RootBlock(), map[[DOT] := ROOTINO, [DOT, DOT] := ROOTINO]);
    fs := new Fs(sb, d, RootOwner(sb));
  }

  // ---------------------------------------------------------------- keeping it well formed

  /** The file system can be read: the disk has the right size and no file has holes. */
  ghost predicate Laid(sb: Super, d: Disk) {
    sb.Fits(d) && AllWhole(d, Inodes(sb, d))
  }

  lemma OtherNodes(sb: Super, d: Disk, e: Disk, dir: nat, i: nat)
    requires Laid(sb, d) && Laid(sb, e) && OthersSame(sb, d, e, dir) && i != dir
    ensures i in TreeOf(sb, e) <==> i in TreeOf(sb, d)
    ensures i in TreeOf(sb, d) ==> TreeOf(sb, e)[i] == TreeOf(sb, d)[i]
    ensures 0 < i < sb.ninodes && WholeDir(d, Inodes(sb, d)[i]) ==> WholeDir(e, Inodes(sb, e)[i])
  {
    if i < sb.ninodes {
      assert Inodes(sb, e)[i] == Inodes(sb, d)[i];
    }
  }

  lemma StillWhole(sb: Super, d: Disk, e: Disk, dir: nat)
    requires Laid(sb, d) && Laid(sb, e) && OthersSame(sb, d, e, dir) && WholeDirs(sb, d) && dir < sb.ninodes && WholeDir(e, Inodes(sb, e)[dir])
    ensures WholeDirs(sb, e)
  {
    forall i | 0 < i < sb.ninodes ensures WholeDir(e, Inodes(sb, e)[i]) {
      if i != dir {
        assert WholeDir(d, Inodes(sb, d)[i]);
        OtherNodes(sb, d, e, dir, i);
      }
    }
  }

  lemma SameBut(tree: Tree, tree': Tree, dir: nat, n: Node)
    requires dir in tree' && tree'[dir] == n
    requires forall i: nat :: i != dir ==> (i in tree' <==> i in tree) && (i in tree ==> tree'[i] == tree[i])
    ensures tree' == tree[dir := n]
  {
  }

  lemma NodeAt(sb: Super, d: Disk, i: nat)
    requires Laid(sb, d) && 0 < i < sb.ninodes && NodeOf(d, Inodes(sb, d)[i]).DirNode?
    ensures i in TreeOf(sb, d) && TreeOf(sb, d)[i] == NodeOf(d, Inodes(sb, d)[i])
  {
  }

  /** Changing one directory changes one node. */
  lemma OneNode(sb: Super, d: Disk, e: Disk, dir: nat, m: map<seq<Byte>, nat>)
    requires Laid(sb, d) && Laid(sb, e) && OthersSame(sb, d, e, dir) && 0 < dir < sb.ninodes && NodeOf(e, Inodes(sb, e)[dir]) == DirNode(m)
    ensures TreeOf(sb, e) == TreeOf(sb, d)[dir := DirNode(m)]
  {
    var tree, tree' := TreeOf(sb, d), TreeOf(sb, e);
    NodeAt(sb, e, dir);
    forall i: nat | i != dir ensures (i in tree' <==> i in tree) && (i in tree ==> tree'[i] == tree[i]) {
      OtherNodes(sb, d, e, dir, i);
    }
    SameBut(tree, tree', dir, DirNode(m));
  }

  /** A directory that gains an entry for an inode in use leaves the tree well formed, and changes nothing else in it. */
  lemma EntryKeepsTree(sb: Super, d: Disk, owner: map<nat, Place>, e: Disk, owner': map<nat, Place>, dir: nat, name: seq<Byte>, inum: nat)
    requires TreeOk(sb, d, owner) && Sound(sb, e, owner') && OthersSame(sb, d, e, dir) && dir in TreeOf(sb, d) && inum in TreeOf(sb, d)
    requires TreeOf(sb, d)[dir].DirNode? && WholeDir(e, Inodes(sb, e)[dir])
    requires NodeOf(e, Inodes(sb, e)[dir]) == DirNode(TreeOf(sb, d)[dir].entries[name := inum])
    ensures TreeOk(sb, e, owner')
    ensures TreeOf(sb, e) == TreeOf(sb, d)[dir := DirNode(TreeOf(sb, d)[dir].entries[name := inum])]
  {
    OneNode(sb, d, e, dir, TreeOf(sb, d)[dir].entries[name := inum]);
    StillWhole(sb, d, e, dir);
    EntryWellFormed(TreeOf(sb, d), dir, name, inum);
  }

  lemma EntryWellFormed(tree: Tree, dir: nat, name: seq<Byte>, inum: nat)
    requires WellFormed(tree) && dir in tree && tree[dir].DirNode? && inum in tree
    ensures WellFormed(tree[dir := DirNode(tree[dir].entries[name := inum])])
  {
  }

  /** A directory's node in the tree is what its entries bind. */
  lemma DirNodeAt(fs: Fs, dp: Inode)
    requires fs.Ready(dp) && Laid(fs.sb, fs.disk) && WholeDirs(fs.sb, fs.disk) && dp.typ == D.T_DIR && dp.inum > 0
    ensures dp.inum in TreeOf(fs.sb, fs.disk) && TreeOf(fs.sb, fs.disk)[dp.inum] == DirNode(D.Bindings(D.Entries(fs.FileOf(dp))))
    ensures D.DirOk(fs.FileOf(dp)) && NodeOf(fs.disk, Inodes(fs.sb, fs.disk)[dp.inum]) == DirNode(D.Bindings(D.Entries(fs.FileOf(dp))))
  {
    assert Inodes(fs.sb, fs.disk)[dp.inum] == dp.Rec();
    assert WholeDir(fs.disk, Inodes(fs.sb, fs.disk)[dp.inum]);
  }

  /**
   dirlink of an inode in use keeps every lookup defined, and adds exactly that name, in entry k,
   to exactly that directory, whose bindings were m.
   */
  method Link(fs: Fs, dp: Inode, name: seq<Byte>, inum: nat)
    returns (r: int, panicked: bool, ghost m: map<seq<Byte>, nat>, ghost k: nat, ghost lo: nat, ghost hi: nat)
    requires fs.Ready(dp) && TreeOk(fs.sb, fs.disk, fs.owner) && dp.typ == D.T_DIR && dp.inum > 0 && Readable(name, DIRSIZ)
    requires inum in TreeOf(fs.sb, fs.disk) && inum < 0x1_0000
    modifies fs`disk, fs`owner, fs`logged, dp`size, dp`addrs
    ensures dp.inum in old(TreeOf(fs.sb, fs.disk)) && old(TreeOf(fs.sb, fs.disk))[dp.inum] == DirNode(m)
    ensures Key(name) in m ==> !panicked && r == -1 && fs.disk == old(fs.disk)
    ensures Key(name) !in m ==>
      && D.FirstUnused(old(D.Entries(fs.FileOf(dp))), k) && lo == 16 * k && hi == 16 * k + 16
      && (panicked <==> hi > MAXBYTES || |BC.Unmarked(fs.sb, old(fs.disk))| < |BC.Needed(lo, hi) - BC.Has(old(fs.disk), old(dp.Rec()))|)
    ensures !panicked ==> fs.Ready(dp) && TreeOk(fs.sb, fs.disk, fs.owner)
    ensures !panicked && Key(name) !in m ==> r == 0 && TreeOf(fs.sb, fs.disk) == old(TreeOf(fs.sb, fs.disk))[dp.inum := DirNode(m[Key(name) := inum])]
  {
    ghost var sb, d, owner, dir := fs.sb, fs.disk, fs.owner, dp.inum;
    DirNodeAt(fs, dp);
    m := D.Bindings(D.Entries(fs.FileOf(dp)));
    r, panicked, k, lo, hi := D.Dirlink(fs, dp, name, inum);
    if !panicked && r == 0 {
      NewNode(fs, dp, m[Key(name) := inum]);
      EntryKeepsTree(sb, d, owner, fs.disk, fs.owner, dir, Key(name), inum);
    }
  }

  lemma NewNode(fs: Fs, dp: Inode, m: map<seq<Byte>, nat>)
    requires fs.Ready(dp) && dp.typ == D.T_DIR && D.DirOk(fs.FileOf(dp)) && D.Bindings(D.Entries(fs.FileOf(dp))) == m
    ensures var x := Inodes(fs.sb, fs.disk)[dp.inum]; x.Valid() && x.size <= MAXBYTES && WholeDir(fs.disk, x) && NodeOf(fs.disk, x) == DirNode(m)
  {
    assert Inodes(fs.sb, fs.disk)[dp.inum] == dp.Rec();
  }
}
