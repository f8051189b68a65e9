/** A file as a byte sequence, and how block-level changes show in it (fs.c). */
module FsContent {
  import opened Params
  import opened FsDisk
  import opened FsBlocks

  ghost function Inodes(sb: Super, d: Disk): (ii: seq<Dinode>)
    requires sb.Fits(d)
    ensures |ii| == sb.ninodes
  {
    seq(sb.ninodes, i requires 0 <= i < sb.ninodes => GetDinode(sb, d, i))
  }

  lemma SameInodes(sb: Super, d: Disk, e: Disk)
    requires sb.Fits(d) && sb.Fits(e) && forall b :: 0 <= b < sb.bmapstart ==> e[b] == d[b]
    ensures Inodes(sb, e) == Inodes(sb, d)
  {
    forall i | 0 <= i < sb.ninodes ensures GetDinode(sb, e, i) == GetDinode(sb, d, i) {
      assert sb.IBlock(i) < sb.bmapstart;
    }
  }

  lemma UpdatedInodes(sb: Super, d: Disk, i: nat, x: Dinode)
    requires sb.Fits(d) && i < sb.ninodes && x.Valid()
    ensures Inodes(sb, PutDinode(sb, d, i, x)) == Inodes(sb, d)[i := x]
  {
    PutDinodeAt(sb, d, i, x);
  }

  /** The block holding byte o of the file. */
  function BlockOf(d: Disk, x: Dinode, o: nat): nat
    requires |x.addrs| == NDIRECT + 1 && o < MAXBYTES
  {
    Ref(d, x, Slot(o / BSIZE))
  }

  /** Every block below the file's size is there. */
  ghost predicate NoHoles(d: Disk, x: Dinode) {
    && x.Valid() && x.size <= MAXBYTES
    && forall o :: 0 <= o < x.size ==> 0 < BlockOf(d, x, o) < |d|
  }

  function ByteAt(d: Disk, x: Dinode, o: nat): Byte
    requires |x.addrs| == NDIRECT + 1 && o < MAXBYTES
  {
    var b := BlockOf(d, x, o);
    if b < |d| then d[b][o % BSIZE] else 0
  }

  ghost function Content(d: Disk, x: Dinode): (c: seq<Byte>)
    requires x.Valid() && x.size <= MAXBYTES
    ensures |c| == x.size
  {
    seq(x.size, o requires 0 <= o < x.size => ByteAt(d, x, o))
  }

  /** A run of bytes that does not cross a block boundary. */
  lemma InBlock(off: nat, m: nat, o: nat)
    requires 0 < m <= BSIZE - off % BSIZE && off <= o < off + m
    ensures o / BSIZE == off / BSIZE && o % BSIZE == off % BSIZE + (o - off)
  {
  }

  /** The part of a block that one iteration of readi copies. */
  lemma ReadChunk(d: Disk, x: Dinode, off: nat, m: nat)
    requires x.Valid() && x.size <= MAXBYTES && off + m <= x.size && 0 < m <= BSIZE - off % BSIZE
    requires BlockOf(d, x, off) < |d|
    ensures Content(d, x)[off..off + m] == d[BlockOf(d, x, off)][off % BSIZE..off % BSIZE + m]
  {
    var s, t := Content(d, x)[off..off + m], d[BlockOf(d, x, off)][off % BSIZE..off % BSIZE + m];
    forall i | 0 <= i < m ensures s[i] == t[i] {
      InBlock(off, m, off + i);
      assert s[i] == ByteAt(d, x, off + i);
    }
  }

  lemma Sliced(c: seq<Byte>, lo: nat, mid: nat, hi: nat)
    requires lo <= mid <= hi <= |c|
    ensures c[lo..mid] + c[mid..hi] == c[lo..hi]
  {
  }

  /** The sequence c with src written over it at off, growing it if need be. */
  ghost function Overwrite(c: seq<Byte>, off: nat, src: seq<Byte>): (r: seq<Byte>)
    requires off <= |c|
    ensures |r| == if off + |src| < |c| then |c| else off + |src|
  {
    c[..off] + src + if off + |src| < |c| then c[off + |src|..] else []
  }

  ghost predicate AllWhole(d: Disk, ii: seq<Dinode>) {
    forall i {:trigger ii[i]} :: 0 <= i < |ii| ==> NoHoles(d, ii[i])
  }

  /** The file-system invariant at operation boundaries. */
  ghost predicate Sound(sb: Super, d: Disk, owner: map<nat, Place>) {
    sb.Fits(d) && Owned(sb, d, Inodes(sb, d), owner, {}) && AllWhole(d, Inodes(sb, d))
  }

  /** Every inode but inum, and every file but inum's, is the same. */
  ghost predicate OthersSame(sb: Super, d: Disk, e: Disk, inum: nat)
    requires sb.Fits(d) && sb.Fits(e) && AllWhole(d, Inodes(sb, d)) && AllWhole(e, Inodes(sb, e))
  {
    forall i :: 0 <= i < sb.ninodes && i != inum ==>
      Inodes(sb, e)[i] == Inodes(sb, d)[i] && Content(e, Inodes(sb, e)[i]) == Content(d, Inodes(sb, d)[i])
  }

  /** Every block changed from d to e has been logged since l. */
  ghost predicate AllLogged(d: Disk, l: set<nat>, e: Disk, l': set<nat>) {
    |e| == |d| && l <= l' && forall b {:trigger e[b]} :: 0 <= b < |d| && e[b] != d[b] ==> b in l'
  }

  lemma AllLoggedTwice(d: Disk, l: set<nat>, e: Disk, l': set<nat>, f: Disk, l'': set<nat>)
    requires AllLogged(d, l, e, l') && AllLogged(e, l', f, l'')
    ensures AllLogged(d, l, f, l'')
  {
    forall b | 0 <= b < |d| && f[b] != d[b] ensures b in l'' {
      assert f[b] != e[b] || e[b] != d[b];
    }
  }

  // ---------------------------------------------------------------- growth

  /** From d to e inode `inum` may have gained blocks; nothing recorded before has moved or changed. */
  ghost predicate Grew(sb: Super, d: Disk, owner: map<nat, Place>, e: Disk, owner': map<nat, Place>, inum: nat) {
    && |e| == |d| == sb.size && sb.bmapstart <= sb.size
    && (forall b :: 0 <= b < sb.bmapstart ==> e[b] == d[b])
    && (forall b :: b in owner ==> b < sb.size && b in owner' && owner'[b] == owner[b])
    && (forall b :: b in owner && owner[b] != Place(inum, INDIRECT) ==> e[b] == d[b])
  }

  lemma GrewTrans(sb: Super, d: Disk, owner: map<nat, Place>, e: Disk, owner': map<nat, Place>, f: Disk,
      owner'': map<nat, Place>, inum: nat)
    requires Grew(sb, d, owner, e, owner', inum) && Grew(sb, e, owner', f, owner'', inum)
    ensures Grew(sb, d, owner, f, owner'', inum)
  {
  }

  /** References present before are present after. */
  lemma GrewRef(sb: Super, d: Disk, ii: seq<Dinode>, owner: map<nat, Place>, e: Disk, jj: seq<Dinode>,
      owner': map<nat, Place>, inum: nat, i: nat, k: nat)
    requires InodesOk(sb, ii) && InodesOk(sb, jj) && References(sb, d, ii, owner) && References(sb, e, jj, owner')
    requires Grew(sb, d, owner, e, owner', inum) && i < |ii| && k < SLOTS && Ref(d, ii[i], k) != 0
    ensures Ref(e, jj[i], k) == Ref(d, ii[i], k) && Ref(d, ii[i], k) < sb.size
    ensures k != INDIRECT ==> e[Ref(d, ii[i], k)] == d[Ref(d, ii[i], k)]
  {
    var b := Ref(d, ii[i], k);
    assert owner'[b] == Place(i, k);
    assert At(e, jj, owner'[b], b);
  }

  /** Bytes present before are unchanged. */
  lemma GrewByte(sb: Super, d: Disk, ii: seq<Dinode>, owner: map<nat, Place>, e: Disk, jj: seq<Dinode>,
      owner': map<nat, Place>, inum: nat, i: nat, o: nat)
    requires InodesOk(sb, ii) && InodesOk(sb, jj) && References(sb, d, ii, owner) && References(sb, e, jj, owner')
    requires Grew(sb, d, owner, e, owner', inum) && i < |ii| && o < MAXBYTES && BlockOf(d, ii[i], o) != 0
    ensures BlockOf(e, jj[i], o) == BlockOf(d, ii[i], o) && ByteAt(e, jj[i], o) == ByteAt(d, ii[i], o)
  {
    GrewRef(sb, d, ii, owner, e, jj, owner', inum, i, Slot(o / BSIZE));
  }

  /** The disk after balloc has returned block b. */
  ghost function Balloced(sb: Super, d: Disk, b: nat): (e: Disk)
    requires sb.Fits(d) && b < sb.size
    ensures |e| == |d|
  {
    WithMark(sb, d, b, true)[b := Zeros()]
  }

  lemma BallocGrew(sb: Super, d: Disk, ii: seq<Dinode>, owner: map<nat, Place>, held: set<nat>, b: nat, p: Place)
    requires Owned(sb, d, ii, owner, held) && b < sb.size && !Marked(sb, d, b)
    ensures b !in owner && b !in held && sb.Meta() <= b && Inodes(sb, Balloced(sb, d, b)) == Inodes(sb, d)
    ensures Grew(sb, d, owner, Balloced(sb, d, b), owner[b := p], p.inum)
  {
    SameInodes(sb, d, Balloced(sb, d, b));
    assert forall x :: x in owner ==> x != sb.BBlock(b);
  }

  /** balloc followed by storing the block in an empty in-core address. */
  lemma InCoreAllocated(sb: Super, d: Disk, inum: nat, x: Dinode, owner: map<nat, Place>, held: set<nat>, k: nat,
      b: nat)
    requires sb.Fits(d) && inum < sb.ninodes && Owned(sb, d, Inodes(sb, d)[inum := x], owner, held)
    requires b < sb.size && !Marked(sb, d, b) && k <= INDIRECT && |x.addrs| == NDIRECT + 1 && x.addrs[k] == 0
    ensures var e, y := Balloced(sb, d, b), x.(addrs := x.addrs[k := b]);
      Owned(sb, e, Inodes(sb, e)[inum := y], owner[b := Place(inum, k)], held)
  {
    var ii := Inodes(sb, d)[inum := x];
    var e, y := Balloced(sb, d, b), x.(addrs := x.addrs[k := b]);
    Allocated(sb, d, ii, owner, held, b);
    LinkedInCore(sb, e, ii, owner, held + {b}, inum, k, b);
    BallocGrew(sb, d, ii, owner, held, b, Place(inum, k));
    assert ii[inum := y] == Inodes(sb, e)[inum := y];
    assert held + {b} - {b} == held;
  }

  /** balloc followed by storing the block in an empty entry of the indirect block. */
  ghost function Entered(sb: Super, d: Disk, a: nat, j: nat, b: nat): (e: Disk)
    requires sb.Fits(d) && b < sb.size && a < sb.size && j < NINDIRECT
    ensures |e| == |d|
  {
    var e := Balloced(sb, d, b);
    e[a := PutWord(e[a], j, b)]
  }

  lemma IndirectAllocated(sb: Super, d: Disk, inum: nat, x: Dinode, owner: map<nat, Place>, held: set<nat>, j: nat,
      b: nat, k: nat)
    requires k == INDIRECT + 1 + j
    requires sb.Fits(d) && inum < sb.ninodes && Owned(sb, d, Inodes(sb, d)[inum := x], owner, held)
    requires b < sb.size && !Marked(sb, d, b) && j < NINDIRECT && |x.addrs| == NDIRECT + 1
    requires 0 < x.addrs[INDIRECT] < sb.size && Word(d[x.addrs[INDIRECT]], j) == 0
    ensures var e := Entered(sb, d, x.addrs[INDIRECT], j, b);
      Owned(sb, e, Inodes(sb, d)[inum := x], owner[b := Place(inum, k)], held)
  {
    var ii := Inodes(sb, d)[inum := x];
    var a := x.addrs[INDIRECT];
    var e := Balloced(sb, d, b);
    assert b !in held && e[a] == d[a] by {
      Recorded(sb, d, ii, owner, held, inum, INDIRECT);
      BallocGrew(sb, d, ii, owner, held, b, Place(inum, INDIRECT + 1 + j));
    }
    assert held + {b} - {b} == held;
    Allocated(sb, d, ii, owner, held, b);
    LinkedIndirect(sb, e, ii, owner, held + {b}, inum, j, b);
  }

  /** The growing inode's own indirect block may change. */
  lemma GrewTouch(sb: Super, d: Disk, owner: map<nat, Place>, e: Disk, owner': map<nat, Place>, inum: nat, a: nat,
      data: Block)
    requires Grew(sb, d, owner, e, owner', inum) && sb.bmapstart <= a < sb.size
    requires a in owner ==> owner[a] == Place(inum, INDIRECT)
    ensures Grew(sb, d, owner, e[a := data], owner', inum)
  {
  }

  lemma EnteredFacts(sb: Super, d: Disk, x: Dinode, j: nat, b: nat)
    requires sb.Fits(d) && |x.addrs| == NDIRECT + 1 && j < NINDIRECT && sb.Meta() <= b < sb.size
    requires sb.bmapstart <= x.addrs[INDIRECT] < sb.size && b != x.addrs[INDIRECT]
    ensures var e := Entered(sb, d, x.addrs[INDIRECT], j, b);
      Inodes(sb, e) == Inodes(sb, d) && Ref(e, x, INDIRECT + 1 + j) == b && e[b] == Zeros()
  {
    var a := x.addrs[INDIRECT];
    SameInodes(sb, d, Entered(sb, d, a, j, b));
    PutWordAt(Balloced(sb, d, b)[a], j, b);
  }

  lemma IndirectGrew(sb: Super, d: Disk, inum: nat, x: Dinode, owner: map<nat, Place>, held: set<nat>, j: nat, b: nat, k: nat)
    requires k == INDIRECT + 1 + j
    requires sb.Fits(d) && inum < sb.ninodes && Owned(sb, d, Inodes(sb, d)[inum := x], owner, held)
    requires b < sb.size && !Marked(sb, d, b) && j < NINDIRECT && |x.addrs| == NDIRECT + 1
    requires 0 < x.addrs[INDIRECT] < sb.size && Word(d[x.addrs[INDIRECT]], j) == 0
    ensures b !in owner && sb.Meta() <= b
    ensures var e := Entered(sb, d, x.addrs[INDIRECT], j, b);
      && Inodes(sb, e) == Inodes(sb, d)
      && Grew(sb, d, owner, e, owner[b := Place(inum, k)], inum)
      && Ref(e, x, k) == b && e[b] == Zeros()
  {
    var ii := Inodes(sb, d)[inum := x];
    var a := x.addrs[INDIRECT];
    Recorded(sb, d, ii, owner, held, inum, INDIRECT);
    var p := Place(inum, k);
    BallocGrew(sb, d, ii, owner, held, b, p);
    var m := Balloced(sb, d, b);
    GrewTouch(sb, d, owner, m, owner[b := p], inum, a, PutWord(m[a], j, b));
    EnteredFacts(sb, d, x, j, b);
  }

  // ---------------------------------------------------------------- writing bytes

  /** Every byte that existed is unchanged, except bytes lo..hi of inode inum. */
  ghost predicate BytesKept(sb: Super, d: Disk, ii: seq<Dinode>, e: Disk, jj: seq<Dinode>, inum: nat, lo: nat, hi: nat)
    requires InodesOk(sb, ii) && InodesOk(sb, jj)
  {
    forall i, o {:trigger ByteAt(e, jj[i], o)} {:trigger ByteAt(d, ii[i], o)} ::
      0 <= i < |ii| && 0 <= o < MAXBYTES && BlockOf(d, ii[i], o) != 0 && !(i == inum && lo <= o < hi) ==>
        BlockOf(e, jj[i], o) == BlockOf(d, ii[i], o) && ByteAt(e, jj[i], o) == ByteAt(d, ii[i], o)
  }

  /** Bytes lo..hi of x are there and are src. */
  ghost predicate BytesAre(d: Disk, x: Dinode, lo: nat, hi: nat, src: seq<Byte>)
    requires x.Valid() && lo <= hi <= MAXBYTES && hi - lo <= |src|
  {
    forall o {:trigger ByteAt(d, x, o)} {:trigger BlockOf(d, x, o)} :: lo <= o < hi ==> 0 < BlockOf(d, x, o) < |d| && ByteAt(d, x, o) == src[o - lo]
  }

  lemma GrewBytes(sb: Super, d: Disk, ii: seq<Dinode>, owner: map<nat, Place>, e: Disk, jj: seq<Dinode>,
      owner': map<nat, Place>, inum: nat, at: nat)
    requires InodesOk(sb, ii) && InodesOk(sb, jj) && References(sb, d, ii, owner) && References(sb, e, jj, owner')
    requires Grew(sb, d, owner, e, owner', inum)
    ensures BytesKept(sb, d, ii, e, jj, inum, at, at)
  {
    forall i, o | 0 <= i < |ii| && 0 <= o < MAXBYTES && BlockOf(d, ii[i], o) != 0
      ensures BlockOf(e, jj[i], o) == BlockOf(d, ii[i], o) && ByteAt(e, jj[i], o) == ByteAt(d, ii[i], o)
    {
      GrewByte(sb, d, ii, owner, e, jj, owner', inum, i, o);
    }
  }

  /** memmove into the block of byte `at` and log_write it: bytes at..at+|chunk| change, no others. */
  lemma ChunkByte(sb: Super, d: Disk, ii: seq<Dinode>, owner: map<nat, Place>, inum: nat, at: nat,
      chunk: seq<Byte>, i: nat, o: nat)
    requires sb.Fits(d) && InodesOk(sb, ii) && References(sb, d, ii, owner) && inum < |ii| && i < |ii|
    requires 0 < |chunk| <= BSIZE - at % BSIZE && at + |chunk| <= MAXBYTES && o < MAXBYTES
    requires BlockOf(d, ii[inum], at) != 0 && BlockOf(d, ii[i], o) != 0
    ensures var b := BlockOf(d, ii[inum], at);
      && b < |d| && b in owner && owner[b] == Place(inum, Slot(at / BSIZE))
      && var e := d[b := Splice(d[b], at % BSIZE, chunk)];
      && BlockOf(e, ii[i], o) == BlockOf(d, ii[i], o)
      && ByteAt(e, ii[i], o) == if i == inum && at <= o < at + |chunk| then chunk[o - at] else ByteAt(d, ii[i], o)
  {
    var b := BlockOf(d, ii[inum], at);
    var e := d[b := Splice(d[b], at % BSIZE, chunk)];
    assert owner[b] == Place(inum, Slot(at / BSIZE));
    SameRefs(sb, d, e, ii, owner);
    if i == inum && at <= o < at + |chunk| {
      InBlock(at, |chunk|, o);
      assert e[b][at % BSIZE..at % BSIZE + |chunk|][o - at] == e[b][at % BSIZE + (o - at)];
    } else if BlockOf(d, ii[i], o) == b {
      assert owner[b] == Place(i, Slot(o / BSIZE));
      assert o / BSIZE == at / BSIZE;
    }
  }

  lemma ChunkWritten(sb: Super, d: Disk, ii: seq<Dinode>, owner: map<nat, Place>, inum: nat, at: nat, hi: nat,
      chunk: seq<Byte>)
    requires sb.Fits(d) && InodesOk(sb, ii) && References(sb, d, ii, owner) && inum < |ii|
    requires at < hi == at + |chunk| <= MAXBYTES && |chunk| <= BSIZE - at % BSIZE
    requires 0 < BlockOf(d, ii[inum], at) < |d|
    ensures var b := BlockOf(d, ii[inum], at);
      var e := d[b := Splice(d[b], at % BSIZE, chunk)];
      BytesKept(sb, d, ii, e, ii, inum, at, hi) && BytesAre(e, ii[inum], at, hi, chunk)
  {
    var b := BlockOf(d, ii[inum], at);
    var e := d[b := Splice(d[b], at % BSIZE, chunk)];
    forall i, o | 0 <= i < |ii| && 0 <= o < MAXBYTES && BlockOf(d, ii[i], o) != 0 && !(i == inum && at <= o < hi)
      ensures BlockOf(e, ii[i], o) == BlockOf(d, ii[i], o) && ByteAt(e, ii[i], o) == ByteAt(d, ii[i], o)
    {
      ChunkByte(sb, d, ii, owner, inum, at, chunk, i, o);
    }
    forall o | at <= o < hi ensures 0 < BlockOf(e, ii[inum], o) < |e| && ByteAt(e, ii[inum], o) == chunk[o - at] {
      InBlock(at, |chunk|, o);
      ChunkByte(sb, d, ii, owner, inum, at, chunk, inum, o);
    }
  }

  lemma BytesKeptTrans(sb: Super, d: Disk, ii: seq<Dinode>, e: Disk, jj: seq<Dinode>, f: Disk, kk: seq<Dinode>,
      inum: nat, lo: nat, mid: nat, hi: nat)
    requires InodesOk(sb, ii) && InodesOk(sb, jj) && InodesOk(sb, kk) && lo <= mid <= hi
    requires BytesKept(sb, d, ii, e, jj, inum, lo, mid) && BytesKept(sb, e, jj, f, kk, inum, mid, hi)
    ensures BytesKept(sb, d, ii, f, kk, inum, lo, hi)
  {
    forall i, o | 0 <= i < |ii| && 0 <= o < MAXBYTES && BlockOf(d, ii[i], o) != 0 && !(i == inum && lo <= o < hi)
      ensures BlockOf(f, kk[i], o) == BlockOf(d, ii[i], o) && ByteAt(f, kk[i], o) == ByteAt(d, ii[i], o)
    {
      assert ByteAt(e, jj[i], o) == ByteAt(d, ii[i], o);
    }
  }

  /** Bytes written so far survive the next chunk. */
  lemma BytesAreExtend(sb: Super, e: Disk, jj: seq<Dinode>, f: Disk, kk: seq<Dinode>, inum: nat, lo: nat, mid: nat,
      hi: nat, src: seq<Byte>)
    requires InodesOk(sb, jj) && InodesOk(sb, kk) && inum < |jj| && lo <= mid <= hi <= MAXBYTES && hi - lo <= |src|
    requires |e| == |f|
    requires BytesAre(e, jj[inum], lo, mid, src) && BytesKept(sb, e, jj, f, kk, inum, mid, hi)
    requires BytesAre(f, kk[inum], mid, hi, src[mid - lo..hi - lo])
    ensures BytesAre(f, kk[inum], lo, hi, src)
  {
    forall o | lo <= o < hi ensures 0 < BlockOf(f, kk[inum], o) < |f| && ByteAt(f, kk[inum], o) == src[o - lo] {
      if o < mid {
        assert ByteAt(e, jj[inum], o) == src[o - lo];
      } else {
        assert ByteAt(f, kk[inum], o) == src[mid - lo..hi - lo][o - mid];
      }
    }
  }

  /** Blocks of inode inum in the slots of bytes lo..hi, and its indirect block. */
  ghost function Touched(owner: map<nat, Place>, inum: nat, lo: nat, hi: nat): set<nat>
    requires hi <= MAXBYTES
  {
    set b | b in owner && owner[b].inum == inum && lo < hi &&
      (owner[b].slot == INDIRECT || Slot(lo / BSIZE) <= owner[b].slot <= Slot((hi - 1) / BSIZE))
  }

  ghost function BitmapBlocks(sb: Super): set<nat> {
    set x | 0 <= x < sb.size :: sb.BBlock(x)
  }

  ghost predicate Extends(owner: map<nat, Place>, owner': map<nat, Place>) {
    forall b :: b in owner ==> b in owner' && owner'[b] == owner[b]
  }

  /** A state of the file system while inode inum is worked on: disk, inodes, owners, logged blocks. */
  datatype Snapshot = Snapshot(d: Disk, ii: seq<Dinode>, owner: map<nat, Place>, logged: set<nat>)

  /** From s to t bytes lo..hi of inode inum became src and no other byte changed. */
  ghost predicate Wrote(sb: Super, inum: nat, s: Snapshot, t: Snapshot, lo: nat, hi: nat, src: seq<Byte>) {
    && InodesOk(sb, s.ii) && InodesOk(sb, t.ii) && |s.d| == |t.d| == sb.size
    && inum < sb.ninodes && lo <= hi <= MAXBYTES && |src| == hi - lo
    && BytesKept(sb, s.d, s.ii, t.d, t.ii, inum, lo, hi)
    && BytesAre(t.d, t.ii[inum], lo, hi, src)
    && Extends(s.owner, t.owner)
    && t.logged <= s.logged + Touched(t.owner, inum, lo, hi) + BitmapBlocks(sb)
  }

  lemma WroteNothing(sb: Super, inum: nat, s: Snapshot, lo: nat)
    requires InodesOk(sb, s.ii) && |s.d| == sb.size && inum < sb.ninodes && lo <= MAXBYTES
    ensures Wrote(sb, inum, s, s, lo, lo, [])
  {
  }

  lemma TouchedGrows(owner: map<nat, Place>, owner': map<nat, Place>, inum: nat, lo: nat, mid: nat, hi: nat)
    requires Extends(owner, owner') && lo <= mid <= hi <= MAXBYTES
    ensures Touched(owner, inum, lo, mid) <= Touched(owner', inum, lo, hi)
    ensures Touched(owner', inum, mid, hi) <= Touched(owner', inum, lo, hi)
  {
    if lo < mid {
      assert (mid - 1) / BSIZE <= (hi - 1) / BSIZE;
    }
    if mid < hi {
      assert lo / BSIZE <= mid / BSIZE;
    }
  }

  lemma WroteTrans(sb: Super, inum: nat, s: Snapshot, t: Snapshot, u: Snapshot, lo: nat, mid: nat, hi: nat,
      first: seq<Byte>, second: seq<Byte>)
    requires Wrote(sb, inum, s, t, lo, mid, first) && Wrote(sb, inum, t, u, mid, hi, second)
    ensures Wrote(sb, inum, s, u, lo, hi, first + second)
  {
    var src := first + second;
    BytesKeptTrans(sb, s.d, s.ii, t.d, t.ii, u.d, u.ii, inum, lo, mid, hi);
    assert BytesAre(t.d, t.ii[inum], lo, mid, src);
    assert src[mid - lo..hi - lo] == second;
    BytesAreExtend(sb, t.d, t.ii, u.d, u.ii, inum, lo, mid, hi, src);
    TouchedGrows(t.owner, u.owner, inum, lo, mid, hi);
  }

  /** A block beyond the bytes written so far is still where it was. */
  lemma StillThere(sb: Super, inum: nat, s: Snapshot, t: Snapshot, lo: nat, hi: nat, src: seq<Byte>)
    requires Wrote(sb, inum, s, t, lo, hi, src) && hi < MAXBYTES && BlockOf(s.d, s.ii[inum], hi) != 0
    ensures BlockOf(t.d, t.ii[inum], hi) != 0
  {
    assert ByteAt(t.d, t.ii[inum], hi) == ByteAt(s.d, s.ii[inum], hi);
  }

  /** bmap from s to t, then a chunk stored from t to u. */
  lemma BmapThenStore(sb: Super, inum: nat, s: Snapshot, t: Snapshot, u: Snapshot, at: nat, hi: nat, chunk: seq<Byte>)
    requires InodesOk(sb, s.ii) && InodesOk(sb, t.ii) && |s.d| == sb.size && at < hi
    requires BytesKept(sb, s.d, s.ii, t.d, t.ii, inum, at, at) && Extends(s.owner, t.owner)
    requires at < MAXBYTES && t.logged <= s.logged + Touched(t.owner, inum, at, at + 1) + BitmapBlocks(sb)
    requires Wrote(sb, inum, t, u, at, hi, chunk)
    ensures Wrote(sb, inum, s, u, at, hi, chunk)
  {
    BytesKeptTrans(sb, s.d, s.ii, t.d, t.ii, u.d, u.ii, inum, at, at, hi);
    TouchedGrows(t.owner, u.owner, inum, at, at + 1, hi);
  }

  /** The size of an inode plays no part in ownership. */
  lemma SizeChanged(sb: Super, d: Disk, ii: seq<Dinode>, owner: map<nat, Place>, held: set<nat>, i: nat, size: nat)
    requires Owned(sb, d, ii, owner, held) && i < |ii| && size < UINT_MOD
    ensures Owned(sb, d, ii[i := ii[i].(size := size)], owner, held)
  {
    var jj := ii[i := ii[i].(size := size)];
    forall j, k | 0 <= j < |jj| && 0 <= k < SLOTS ensures Ref(d, jj[j], k) == Ref(d, ii[j], k) {
    }
    assert References(sb, d, jj, owner);
  }

  /** Refs and bytes of an inode do not depend on the inode region. */
  lemma InodeWritten(sb: Super, d: Disk, ii: seq<Dinode>, owner: map<nat, Place>, held: set<nat>, i: nat, x: Dinode)
    requires Owned(sb, d, ii, owner, held) && i < sb.ninodes && x.Valid()
    ensures Owned(sb, PutDinode(sb, d, i, x), ii, owner, held)
    ensures BytesKept(sb, d, ii, PutDinode(sb, d, i, x), ii, i, 0, 0)
  {
    var e := PutDinode(sb, d, i, x);
    assert sb.IBlock(i) < sb.bmapstart;
    DataWritten(sb, d, ii, owner, held, sb.IBlock(i), e[sb.IBlock(i)]);
    assert e == d[sb.IBlock(i) := e[sb.IBlock(i)]];
    SameRefs(sb, d, e, ii, owner);
    forall j, o | 0 <= j < |ii| && 0 <= o < MAXBYTES && BlockOf(d, ii[j], o) != 0
      ensures ByteAt(e, ii[j], o) == ByteAt(d, ii[j], o)
    {
      Recorded(sb, d, ii, owner, held, j, Slot(o / BSIZE));
    }
  }

  /** What the bytes kept and written say about the files, once inode inum has its final size. */
  lemma WriteContent(sb: Super, inum: nat, s: Snapshot, t: Snapshot, off: nat, at: nat, src: seq<Byte>)
    requires Wrote(sb, inum, s, t, off, at, src) && AllWhole(s.d, s.ii)
    requires forall i :: 0 <= i < |s.ii| && i != inum ==> t.ii[i] == s.ii[i]
    requires off <= s.ii[inum].size && t.ii[inum].size == if at > s.ii[inum].size then at else s.ii[inum].size
    ensures AllWhole(t.d, t.ii)
    ensures Content(t.d, t.ii[inum]) == Overwrite(Content(s.d, s.ii[inum]), off, src)
    ensures forall i :: 0 <= i < |t.ii| && i != inum ==> Content(t.d, t.ii[i]) == Content(s.d, s.ii[i])
  {
    forall i | 0 <= i < |t.ii| && i != inum ensures NoHoles(t.d, t.ii[i]) && Content(t.d, t.ii[i]) == Content(s.d, s.ii[i]) {
      OtherContent(sb, s.d, s.ii, t.d, t.ii, inum, off, at, i);
    }
    OwnContent(sb, inum, s, t, off, at, src);
  }

  lemma OwnContent(sb: Super, inum: nat, s: Snapshot, t: Snapshot, off: nat, at: nat, src: seq<Byte>)
    requires Wrote(sb, inum, s, t, off, at, src) && NoHoles(s.d, s.ii[inum])
    requires off <= s.ii[inum].size && t.ii[inum].size == if at > s.ii[inum].size then at else s.ii[inum].size
    ensures NoHoles(t.d, t.ii[inum]) && Content(t.d, t.ii[inum]) == Overwrite(Content(s.d, s.ii[inum]), off, src)
  {
    var x, y := s.ii[inum], t.ii[inum];
    var c, c' := Content(s.d, x), Content(t.d, y);
    var w := Overwrite(c, off, src);
    forall o | 0 <= o < |c'| ensures 0 < BlockOf(t.d, y, o) < |t.d| && c'[o] == w[o] {
      assert c'[o] == ByteAt(t.d, y, o);
      if !(off <= o < at) {
        assert c[o] == ByteAt(s.d, x, o);
      }
    }
    assert c' == w;
  }

  lemma OtherContent(sb: Super, d: Disk, ii: seq<Dinode>, e: Disk, jj: seq<Dinode>, inum: nat, lo: nat, hi: nat, i: nat)
    requires InodesOk(sb, ii) && InodesOk(sb, jj) && |e| == |d| && i < |ii| && i != inum
    requires NoHoles(d, ii[i]) && jj[i] == ii[i] && BytesKept(sb, d, ii, e, jj, inum, lo, hi)
    ensures NoHoles(e, jj[i]) && Content(e, jj[i]) == Content(d, ii[i])
  {
    forall o | 0 <= o < ii[i].size ensures 0 < BlockOf(e, jj[i], o) < |e| && ByteAt(e, jj[i], o) == ByteAt(d, ii[i], o) {
      assert 0 < BlockOf(d, ii[i], o) < |d|;
    }
  }

  /** The snapshot after ip's size has been set to `size` and iupdate has written it. */
  ghost function Updated(sb: Super, t: Snapshot, inum: nat, size: nat): Snapshot
    requires inum < sb.ninodes == |t.ii| && InodesOk(sb, t.ii) && sb.Fits(t.d)
  {
    var y := t.ii[inum].(size := size);
    Snapshot(PutDinode(sb, t.d, inum, y), t.ii[inum := y], t.owner, t.logged)
  }

  lemma UpdatedWrote(sb: Super, inum: nat, s: Snapshot, t: Snapshot, off: nat, at: nat, src: seq<Byte>)
    requires Wrote(sb, inum, s, t, off, at, src) && sb.Fits(t.d) && Owned(sb, t.d, t.ii, t.owner, {})
    ensures Wrote(sb, inum, s, Updated(sb, t, inum, at), off, at, src)
  {
    var u := Updated(sb, t, inum, at);
    InodeWritten(sb, t.d, t.ii, t.owner, {}, inum, u.ii[inum]);
    SizeFree(sb, u.d, t.ii, u.ii, inum);
    forall i, o | 0 <= i < |t.ii| && 0 <= o < MAXBYTES && BlockOf(t.d, t.ii[i], o) != 0
      ensures BlockOf(u.d, u.ii[i], o) == BlockOf(t.d, t.ii[i], o) && ByteAt(u.d, u.ii[i], o) == ByteAt(t.d, t.ii[i], o)
    {
      assert ByteAt(u.d, t.ii[i], o) == ByteAt(t.d, t.ii[i], o);
    }
    BytesKeptTrans(sb, s.d, s.ii, t.d, t.ii, u.d, u.ii, inum, off, at, at);
    forall o | off <= o < at ensures 0 < BlockOf(u.d, u.ii[inum], o) < |u.d| && ByteAt(u.d, u.ii[inum], o) == src[o - off] {
      assert BlockOf(t.d, t.ii[inum], o) != 0 && ByteAt(t.d, t.ii[inum], o) == src[o - off];
    }
  }

  /** The size of an inode plays no part in where its bytes are. */
  lemma SizeFree(sb: Super, d: Disk, ii: seq<Dinode>, jj: seq<Dinode>, inum: nat)
    requires InodesOk(sb, ii) && InodesOk(sb, jj) && inum < |ii|
    requires jj == ii[inum := ii[inum].(size := jj[inum].size)]
    ensures forall i, o :: 0 <= i < |ii| && 0 <= o < MAXBYTES ==>
      BlockOf(d, jj[i], o) == BlockOf(d, ii[i], o) && ByteAt(d, jj[i], o) == ByteAt(d, ii[i], o)
  {
  }

  /** s is a sound file system; t is s after the loop of writei on inode inum. */
  ghost predicate AfterLoop(sb: Super, inum: nat, s: Snapshot, t: Snapshot, off: nat, at: nat, src: seq<Byte>) {
    && Sound(sb, s.d, s.owner) && s.ii == Inodes(sb, s.d)
    && sb.Fits(t.d) && Inodes(sb, t.d) == s.ii
    && inum < |s.ii| == |t.ii| && t.ii == s.ii[inum := t.ii[inum]] && t.ii[inum].size == s.ii[inum].size
    && Owned(sb, t.d, t.ii, t.owner, {})
    && Wrote(sb, inum, s, t, off, at, src) && off <= s.ii[inum].size
  }

  /** The write grew the file, so iupdate has stored the new size and addresses. */
  lemma FinishGrown(sb: Super, inum: nat, s: Snapshot, t: Snapshot, off: nat, at: nat, src: seq<Byte>)
    requires AfterLoop(sb, inum, s, t, off, at, src) && at > s.ii[inum].size
    ensures var u := Updated(sb, t, inum, at);
      && Sound(sb, u.d, u.owner) && Inodes(sb, u.d) == u.ii && OthersSame(sb, s.d, u.d, inum)
      && Content(u.d, u.ii[inum]) == Overwrite(Content(s.d, s.ii[inum]), off, src)
  {
    var u := Updated(sb, t, inum, at);
    UpdatedInodes(sb, t.d, inum, u.ii[inum]);
    assert Inodes(sb, u.d) == u.ii;
    assert Owned(sb, u.d, u.ii, u.owner, {}) by {
      SizeChanged(sb, t.d, t.ii, t.owner, {}, inum, at);
      InodeWritten(sb, t.d, u.ii, t.owner, {}, inum, u.ii[inum]);
    }
    UpdatedWrote(sb, inum, s, t, off, at, src);
    WriteContent(sb, inum, s, u, off, at, src);
  }

  /** The write stayed inside the file and no address changed. */
  lemma FinishInside(sb: Super, inum: nat, s: Snapshot, t: Snapshot, off: nat, at: nat, src: seq<Byte>)
    requires AfterLoop(sb, inum, s, t, off, at, src) && at <= s.ii[inum].size && t.ii[inum] == s.ii[inum]
    ensures Sound(sb, t.d, t.owner) && OthersSame(sb, s.d, t.d, inum) && t.ii == s.ii
    ensures Content(t.d, t.ii[inum]) == Overwrite(Content(s.d, s.ii[inum]), off, src)
  {
    assert t.ii == s.ii;
    WriteContent(sb, inum, s, t, off, at, src);
  }

  // ---------------------------------------------------------------- truncating

  /** Only metadata blocks differ. */
  ghost predicate DataSame(sb: Super, d: Disk, e: Disk) {
    |d| == |e| == sb.size && forall b :: sb.Meta() <= b < sb.size ==> e[b] == d[b]
  }

  /** Metadata writes leave files whose inode stays the same alone. */
  lemma DataSameContent(sb: Super, d: Disk, ii: seq<Dinode>, owner: map<nat, Place>, held: set<nat>, e: Disk, i: nat)
    requires Owned(sb, d, ii, owner, held) && DataSame(sb, d, e) && i < |ii| && NoHoles(d, ii[i])
    ensures NoHoles(e, ii[i]) && Content(e, ii[i]) == Content(d, ii[i])
  {
    SameRefs(sb, d, e, ii, owner);
    forall o | 0 <= o < ii[i].size ensures 0 < BlockOf(e, ii[i], o) < |e| && ByteAt(e, ii[i], o) == ByteAt(d, ii[i], o) {
      Recorded(sb, d, ii, owner, held, i, Slot(o / BSIZE));
      assert 0 < BlockOf(d, ii[i], o) < |d|;
    }
  }

  ghost function Emptied(x: Dinode): Dinode {
    x.(size := 0, addrs := seq(NDIRECT + 1, _ => 0))
  }

  /** The end of itrunc: every block has been freed and iupdate writes the empty inode. */
  lemma Truncated(sb: Super, d: Disk, owner: map<nat, Place>, e: Disk, inum: nat, owner': map<nat, Place>)
    requires Sound(sb, d, owner) && inum < sb.ninodes && sb.Fits(e) && DataSame(sb, d, e) && Inodes(sb, e) == Inodes(sb, d)
    requires Owned(sb, e, Inodes(sb, d)[inum := Emptied(Inodes(sb, d)[inum])], owner', {})
    ensures var f := PutDinode(sb, e, inum, Emptied(Inodes(sb, d)[inum]));
      && Sound(sb, f, owner') && Inodes(sb, f) == Inodes(sb, d)[inum := Emptied(Inodes(sb, d)[inum])]
      && OthersSame(sb, d, f, inum)
  {
    var ii := Inodes(sb, d);
    var x := Emptied(ii[inum]);
    var jj := ii[inum := x];
    var f := PutDinode(sb, e, inum, x);
    UpdatedInodes(sb, e, inum, x);
    InodeWritten(sb, e, jj, owner', {}, inum, x);
    assert DataSame(sb, d, f);
    forall i | 0 <= i < |jj| ensures NoHoles(f, jj[i]) && (i != inum ==> Content(f, jj[i]) == Content(d, ii[i])) {
      if i != inum {
        DataSameContent(sb, d, ii, owner, {}, f, i);
      }
    }
  }

  /** Only size and addresses play a part in where the bytes are. */
  lemma SameShape(d: Disk, x: Dinode, y: Dinode)
    requires NoHoles(d, x) && y.Valid() && y.size == x.size && y.addrs == x.addrs
    ensures NoHoles(d, y) && Content(d, y) == Content(d, x)
  {
    forall o | 0 <= o < x.size ensures 0 < BlockOf(d, y, o) < |d| && ByteAt(d, y, o) == ByteAt(d, x, o) {
      assert 0 < BlockOf(d, x, o) < |d|;
    }
  }

  lemma SameOwned(sb: Super, d: Disk, ii: seq<Dinode>, owner: map<nat, Place>, inum: nat, x: Dinode)
    requires Owned(sb, d, ii, owner, {}) && inum < |ii| && x.Valid() && x.addrs == ii[inum].addrs
    ensures Owned(sb, d, ii[inum := x], owner, {})
  {
    var jj := ii[inum := x];
    forall i, k | 0 <= i < |jj| && 0 <= k < SLOTS ensures Ref(d, jj[i], k) == Ref(d, ii[i], k) {
    }
    assert References(sb, d, jj, owner);
  }

  /** iupdate after a change of type or link count: no reference moves and no file changes. */
  lemma Relabelled(sb: Super, d: Disk, owner: map<nat, Place>, inum: nat, x: Dinode)
    requires Sound(sb, d, owner) && inum < sb.ninodes && x.Valid()
    requires x.size == Inodes(sb, d)[inum].size && x.addrs == Inodes(sb, d)[inum].addrs
    ensures var e := PutDinode(sb, d, inum, x);
      && Sound(sb, e, owner) && Inodes(sb, e) == Inodes(sb, d)[inum := x] && OthersSame(sb, d, e, inum)
      && Content(e, x) == Content(d, Inodes(sb, d)[inum])
  {
    var ii, e := Inodes(sb, d), PutDinode(sb, d, inum, x);
    var jj := ii[inum := x];
    UpdatedInodes(sb, d, inum, x);
    SameOwned(sb, d, ii, owner, inum, x);
    assert Owned(sb, e, jj, owner, {}) by {
      InodeWritten(sb, d, jj, owner, {}, inum, x);
    }
    forall i | 0 <= i < |jj| ensures NoHoles(e, jj[i]) && Content(e, jj[i]) == Content(d, ii[i]) {
      assert NoHoles(d, ii[i]);
      SameShape(d, ii[i], jj[i]);
      DataSameContent(sb, d, jj, owner, {}, e, i);
    }
  }
}
