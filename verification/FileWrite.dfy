/** filewrite (file.c): a write split into transactions small enough for the log. */
module FileWrite {
  import opened Params
  import opened FsDisk
  import opened FsBlocks
  import opened FsContent
  import opened BlockCount
  import opened FileSystem
  import opened Sets

  /** The most bytes one transaction writes: ((MAXOPBLOCKS - 1 - 1 - 2) / 2) * 512. */
  const CHUNK := 1536

  datatype Kind = FdNone | FdPipe | FdInode

  class File {
    var kind: Kind
    var writable: bool
    var ip: Inode
    var off: nat

    constructor (ip: Inode, off: nat)
    {
      kind, writable, this.ip, this.off := FdInode, true, ip, off;
    }
  }

  /** How much of an n-byte write at off reaches a file of the given size. */
  function Accepted(size: nat, off: nat, n: nat): (k: nat)
    ensures k <= n && (k == n <==> n == 0 || (off <= size && off + n <= 71680))
    ensures k < n && off <= size && off <= 71680 ==> k % 1536 == 0 && off + k <= 71680 < off + k + 1536
    ensures k < n && (off > size || off > 71680) ==> k == 0
  {
    if off > size then 0
    else if off + n <= MAXBYTES then n
    else if off <= MAXBYTES then (MAXBYTES - off) / CHUNK * CHUNK
    else 0
  }

  /** The file contents c after the first k bytes of src have been written at off. */
  ghost function Partly(c: seq<Byte>, off: nat, src: seq<Byte>, k: nat): seq<Byte>
    requires k <= |src|
  {
    if off <= |c| then Overwrite(c, off, src[..k]) else c
  }

  /** Two writes side by side are one write. */
  lemma OverwriteTwice(c: seq<Byte>, off: nat, s: seq<Byte>, t: seq<Byte>)
    requires off <= |c|
    ensures Overwrite(Overwrite(c, off, s), off + |s|, t) == Overwrite(c, off, s + t)
  {
  }

  lemma OthersSameTrans(sb: Super, d: Disk, e: Disk, f: Disk, inum: nat)
    requires sb.Fits(d) && sb.Fits(e) && sb.Fits(f)
    requires AllWhole(d, Inodes(sb, d)) && AllWhole(e, Inodes(sb, e)) && AllWhole(f, Inodes(sb, f))
    requires OthersSame(sb, d, e, inum) && OthersSame(sb, e, f, inum)
    ensures OthersSame(sb, d, f, inum)
  {
  }

  lemma FiveAtMost(a: nat, b: nat, c: nat, d: nat, e: nat)
    ensures |{a, b, c, d, e}| <= 5
  {
  }

  ghost function BlockRef(d: Disk, x: Dinode, bn: nat): nat
    requires |x.addrs| == NDIRECT + 1
  {
    if bn < MAXFILE then Ref(d, x, Slot(bn)) else 0
  }

  /** A touched block is the indirect block or one of four consecutive file blocks. */
  lemma TouchedIs(sb: Super, d: Disk, ii: seq<Dinode>, owner: map<nat, Place>, inum: nat, lo: nat, hi: nat, b: nat)
    requires InodesOk(sb, ii) && References(sb, d, ii, owner) && inum < |ii|
    requires lo <= hi <= MAXBYTES && hi - lo <= CHUNK && b in Touched(owner, inum, lo, hi)
    ensures var x, q := ii[inum], lo / BSIZE;
      b == Ref(d, x, INDIRECT) || exists bn :: q <= bn <= q + 3 && b == BlockRef(d, x, bn)
  {
    assert At(d, ii, owner[b], b);
    var s := owner[b].slot;
    if s != INDIRECT {
      var bn := if s < NDIRECT then s else s - 1;
      assert Slot(bn) == s && BlockRef(d, ii[inum], bn) == b;
    }
  }

  /** At most CHUNK bytes touch at most four data blocks and the indirect block. */
  lemma TouchedFew(sb: Super, d: Disk, ii: seq<Dinode>, owner: map<nat, Place>, inum: nat, lo: nat, hi: nat)
    requires InodesOk(sb, ii) && References(sb, d, ii, owner) && inum < |ii|
    requires lo <= hi <= MAXBYTES && hi - lo <= CHUNK
    ensures |Touched(owner, inum, lo, hi)| <= 5
  {
    var t, x, q := Touched(owner, inum, lo, hi), ii[inum], lo / BSIZE;
    var a, b0, b1, b2, b3 := Ref(d, x, INDIRECT), BlockRef(d, x, q), BlockRef(d, x, q + 1), BlockRef(d, x, q + 2), BlockRef(d, x, q + 3);
    forall b | b in t ensures b in {a, b0, b1, b2, b3} {
      TouchedIs(sb, d, ii, owner, inum, lo, hi, b);
    }
    FiveAtMost(a, b0, b1, b2, b3);
    Smaller(t, {a, b0, b1, b2, b3});
  }

  /** With the whole bitmap in one block, and only then, there is one bitmap block to log. */
  lemma OneBitmapBlock(sb: Super)
    requires sb.Valid()
    ensures |BitmapBlocks(sb)| <= 1 <==> sb.size <= BPB
  {
    if sb.size <= BPB {
      forall b | b in BitmapBlocks(sb) ensures b == sb.bmapstart {
      }
      Smaller(BitmapBlocks(sb), {sb.bmapstart});
    } else {
      assert sb.BBlock(0) == sb.bmapstart && sb.BBlock(BPB) == sb.bmapstart + 1;
      assert {sb.BBlock(0), sb.BBlock(BPB)} <= BitmapBlocks(sb);
      Smaller({sb.BBlock(0), sb.BBlock(BPB)}, BitmapBlocks(sb));
    }
  }

  /** What one writei of at most CHUNK bytes may log. */
  lemma ChunkBudget(sb: Super, d: Disk, ii: seq<Dinode>, owner: map<nat, Place>, inum: nat, lo: nat, hi: nat,
      logged: set<nat>)
    requires InodesOk(sb, ii) && References(sb, d, ii, owner) && inum < |ii|
    requires lo <= hi <= MAXBYTES && hi - lo <= CHUNK
    requires logged <= Touched(owner, inum, lo, hi) + BitmapBlocks(sb) + {sb.IBlock(inum)}
    ensures |logged| <= 6 + |BitmapBlocks(sb)|
  {
    TouchedFew(sb, d, ii, owner, inum, lo, hi);
    UnionSize(Touched(owner, inum, lo, hi), BitmapBlocks(sb));
    UnionSize(Touched(owner, inum, lo, hi) + BitmapBlocks(sb), {sb.IBlock(inum)});
    Smaller(logged, Touched(owner, inum, lo, hi) + BitmapBlocks(sb) + {sb.IBlock(inum)});
  }

  ghost predicate WithinBudget(sb: Super, txns: seq<set<nat>>) {
    forall t :: t in txns ==> |t| <= 6 + |BitmapBlocks(sb)|
  }

  /** The file-system blocks of xv6's disk have one bitmap block, so every transaction fits its reservation. */
  lemma FitsReservation(sb: Super, txns: seq<set<nat>>)
    requires sb.Valid() && sb.size <= BPB && WithinBudget(sb, txns)
    ensures forall t :: t in txns ==> |t| <= 7 < MAXOPBLOCKS
  {
    OneBitmapBlock(sb);
  }

  /** What one transaction of filewrite promises about a file that is not a device. */
  ghost predicate Transacted(size: nat, c: seq<Byte>, off: nat, chunk: seq<Byte>, r: int, c': seq<Byte>) {
    if off > size || off + |chunk| > MAXBYTES then
      r == -1 && c' == c
    else
      off <= |c| && r == |chunk| && c' == Overwrite(c, off, chunk)
  }

  lemma Budget(fs: Fs, ip: Inode, lo: nat, hi: nat, logged: set<nat>)
    requires fs.Ready(ip) && lo <= hi <= MAXBYTES && hi - lo <= CHUNK
    requires logged <= Touched(fs.owner, ip.inum, lo, hi) + BitmapBlocks(fs.sb) + {fs.sb.IBlock(ip.inum)}
    ensures |logged| <= 6 + |BitmapBlocks(fs.sb)|
  {
    ChunkBudget(fs.sb, fs.disk, Inodes(fs.sb, fs.disk), fs.owner, ip.inum, lo, hi, logged);
  }

  /** Every block that differs between d and e is in txn. */
  ghost predicate Covers(txn: set<nat>, d: Disk, e: Disk) {
    |e| == |d| && forall b {:trigger e[b]} :: 0 <= b < |d| && e[b] != d[b] ==> b in txn
  }

  /** Every block that differs is in one of the transactions. */
  ghost predicate AllCovered(txns: seq<set<nat>>, d: Disk, e: Disk) {
    |e| == |d| && forall b {:trigger e[b]} :: 0 <= b < |d| && e[b] != d[b] ==> exists t :: t in txns && b in t
  }

  lemma CoveredNext(txns: seq<set<nat>>, txn: set<nat>, d: Disk, e: Disk, f: Disk)
    requires AllCovered(txns, d, e) && Covers(txn, e, f)
    ensures AllCovered(txns + [txn], d, f)
  {
    var all := txns + [txn];
    forall b | 0 <= b < |d| && f[b] != d[b] ensures exists t :: t in all && b in t {
      if f[b] != e[b] {
        assert txn in all && b in txn;
      } else {
        assert e[b] != d[b];
        var t :| t in txns && b in t;
        assert t in all;
      }
    }
  }

  /** begin_op, writei of one chunk and end_op; `txn` is what the transaction logged. */
  method OneTransaction(fs: Fs, ip: Inode, off: nat, chunk: seq<Byte>, devsw: map<nat, int>)
    returns (r: int, panicked: bool, ghost txn: set<nat>, ghost end: nat)
    requires fs.Ready(ip) && off < UINT_MOD && |chunk| <= CHUNK
    modifies fs`disk, fs`owner, fs`logged, ip`size, ip`addrs
    ensures panicked ==> ip.typ != T_DEV && off <= old(ip.size) && end <= MAXBYTES && fs.Stuck(ip, old(fs.owner), Needed(off, end))
    ensures end == off + |chunk| && (!panicked ==> Gained(old(fs.owner), fs.owner, ip.inum, Needed(off, end)))
    ensures !panicked && r == -1 ==> fs.owner == old(fs.owner)
    ensures !panicked ==> fs.Ready(ip) && OthersSame(fs.sb, old(fs.disk), fs.disk, ip.inum)
    ensures !panicked ==> |txn| <= 6 + |BitmapBlocks(fs.sb)|
    ensures !panicked ==> Covers(txn, old(fs.disk), fs.disk)
    ensures ip.typ == T_DEV ==> !panicked && r == DeviceAnswer(ip.major, devsw) && fs.disk == old(fs.disk) && ip.Rec() == old(ip.Rec())
    ensures ip.typ != T_DEV && !panicked ==> Transacted(old(ip.size), old(fs.FileOf(ip)), off, chunk, r, fs.FileOf(ip))
  {
    fs.logged := {};
    r, panicked, end := fs.Writei(ip, chunk, off, devsw);
    txn := fs.logged;
    if !panicked && ip.typ != T_DEV && r != -1 {
      Budget(fs, ip, off, end, txn);
    }
  }

  /** The state after k bytes: c is the contents, c0 and off those at the start. */
  ghost predicate Progress(c0: seq<Byte>, off: nat, src: seq<Byte>, k: nat, c: seq<Byte>) {
    && k <= |src| && c == Partly(c0, off, src, k)
    && (k > 0 ==> off <= |c0| && off + k <= MAXBYTES)
  }

  /** One more transaction either extends the written prefix or is refused exactly where Accepted says. */
  lemma NextChunk(c0: seq<Byte>, off: nat, src: seq<Byte>, k: nat, c: seq<Byte>, at: nat, next: nat, r: int,
      c': seq<Byte>)
    requires Progress(c0, off, src, k, c) && k % CHUNK == 0 && k < |src| && |c0| <= MAXBYTES
    requires at == off + k && next == if |src| - k > CHUNK then k + CHUNK else |src|
    requires Transacted(|c|, c, at, src[k..next], r, c')
    ensures r != -1 ==> r == next - k && Progress(c0, off, src, next, c') && (next == |src| || next % CHUNK == 0)
    ensures r != -1 ==> (at + r) % UINT_MOD == off + next
    ensures r == -1 ==> c' == c && k == Accepted(|c0|, off, |src|) < |src|
  {
    if r != -1 {
      if off <= |c0| {
        OverwriteTwice(c0, off, src[..k], src[k..next]);
        assert src[..k] + src[k..next] == src[..next];
      }
    }
  }

  /** What the device answers to the chunk at position j. */
  ghost function AnswerAt(major: nat, devsw: nat -> map<nat, int>, j: nat): int {
    DeviceAnswer(major, devsw(j))
  }

  ghost predicate TakesWhole(major: nat, devsw: nat -> map<nat, int>, n: nat, j: nat) {
    j < n && AnswerAt(major, devsw, j) == if n - j > 1536 then 1536 else n - j
  }

  /** The device takes the chunks before position k whole. */
  ghost predicate TakenSoFar(major: nat, devsw: nat -> map<nat, int>, n: nat, k: nat) {
    forall j {:trigger TakesWhole(major, devsw, n, j)} :: 0 <= j < k && j % 1536 == 0 ==> TakesWhole(major, devsw, n, j)
  }

  /** k is where the first chunk that the device does not take whole begins, n if there is none. */
  ghost predicate Stops(major: nat, devsw: nat -> map<nat, int>, n: nat, k: nat) {
    TakenSoFar(major, devsw, n, k) && (k == n || (k < n && k % 1536 == 0 && !TakesWhole(major, devsw, n, k)))
  }

  lemma TakenNext(major: nat, devsw: nat -> map<nat, int>, n: nat, k: nat, next: nat)
    requires TakenSoFar(major, devsw, n, k) && k % 1536 == 0 && TakesWhole(major, devsw, n, k) && next == if n - k > 1536 then k + 1536 else n
    ensures TakenSoFar(major, devsw, n, next)
  {
  }

  /** There is only one such place. */
  lemma OneStop(major: nat, devsw: nat -> map<nat, int>, n: nat, k: nat, l: nat)
    requires Stops(major, devsw, n, k) && Stops(major, devsw, n, l)
    ensures k == l
  {
    assert k < l ==> TakesWhole(major, devsw, n, k);
    assert l < k ==> TakesWhole(major, devsw, n, l);
  }

  /** f.off and the contents c after k bytes; off and c0 are those at the start.  A device's contents play no part. */
  ghost predicate Reached(dev: bool, foff: nat, off: nat, src: seq<Byte>, k: nat, c0: seq<Byte>, c: seq<Byte>) {
    && foff < UINT_MOD && (k == |src| || k % CHUNK == 0)
    && if dev then foff == (off + k) % UINT_MOD else foff == off + k && Progress(c0, off, src, k, c)
  }

  /** One more chunk, taken whole or refused. */
  lemma ReachedNext(dev: bool, foff: nat, off: nat, src: seq<Byte>, k: nat, next: nat, c0: seq<Byte>, c: seq<Byte>, r: int, c': seq<Byte>)
    requires Reached(dev, foff, off, src, k, c0, c) && k < |src| && next == (if |src| - k > CHUNK then k + CHUNK else |src|) && |c0| <= MAXBYTES
    requires !dev ==> Transacted(|c|, c, foff, src[k..next], r, c')
    ensures r < 0 ==> Reached(dev, foff, off, src, k, c0, if dev then c else c')
    ensures r == next - k ==> Reached(dev, (foff + r) % UINT_MOD, off, src, next, c0, if dev then c else c')
    ensures !dev ==> r == next - k || (r == -1 && k == Accepted(|c0|, off, |src|) < |src|)
  {
    if !dev {
      NextChunk(c0, off, src, k, c, foff, next, r, c');
    } else if r == next - k {
      OffsetNext(off, k, next, r);
    }
  }

  /** What filewrite leaves alone: every other file, and all of the disk if ip is a device. */
  ghost predicate Elsewhere(fs: Fs, ip: Inode, d0: Disk, rec0: Dinode)
    reads fs, ip
  {
    && fs.Ready(ip) && rec0.Valid() && rec0.size <= MAXBYTES && ip.typ == rec0.typ
    && fs.sb.Fits(d0) && AllWhole(d0, Inodes(fs.sb, d0)) && OthersSame(fs.sb, d0, fs.disk, ip.inum)
    && (ip.typ == T_DEV ==> fs.disk == d0 && ip.Rec() == rec0)
  }

  /** What holds after k bytes of filewrite that began with disk d0, inode rec0 and offset off; foff is f.off now. */
  ghost predicate Writing(fs: Fs, ip: Inode, foff: nat, d0: Disk, rec0: Dinode, off: nat, src: seq<Byte>, k: nat)
    reads fs, ip
  {
    Elsewhere(fs, ip, d0, rec0) && Reached(ip.typ == T_DEV, foff, off, src, k, Content(d0, rec0), fs.FileOf(ip))
  }

  /** Since o0, the file has gained only blocks that bytes off..at need. */
  ghost predicate Grows(fs: Fs, ip: Inode, o0: map<nat, Place>, off: nat, at: nat)
    reads fs, ip
  {
    ip.typ != T_DEV ==> Gained(o0, fs.owner, ip.inum, Needed(off, at))
  }

  /** A transaction that writes src[k..next], up to `end`, is part of what is accepted. */
  lemma NextInside(foff: nat, off: nat, src: seq<Byte>, k: nat, next: nat, c0: seq<Byte>, c: seq<Byte>, all: nat)
    requires Reached(false, foff, off, src, k, c0, c) && k < |src| && next == (if |src| - k > CHUNK then k + CHUNK else |src|)
    requires all == off + Accepted(|c0|, off, |src|)
    ensures off <= foff && (foff <= |c| && foff + (next - k) <= MAXBYTES ==> foff + (next - k) <= all)
  {
    if foff <= |c| && foff + (next - k) <= MAXBYTES {
      assert k == 0 ==> off <= |c0|;
      assert next <= Accepted(|c0|, off, |src|);
    }
  }

  /** The file has gained what bytes at..end need as well. */
  lemma GrowsOn(o0: map<nat, Place>, o1: map<nat, Place>, o2: map<nat, Place>, inum: nat, off: nat, at: nat, end: nat)
    requires Gained(o0, o1, inum, Needed(off, at)) && Gained(o1, o2, inum, Needed(at, end)) && off <= at <= end
    ensures Gained(o0, o2, inum, Needed(off, end))
  {
    NeededJoin(off, at, end);
    GainedTwice(o0, o1, o2, inum, Needed(off, at), Needed(at, end), Needed(off, end));
  }

  /** The transaction that finds the disk full. */
  lemma StuckSoon(fs: Fs, ip: Inode, o0: map<nat, Place>, o1: map<nat, Place>, off: nat, at: nat, end: nat, all: nat)
    requires Gained(o0, o1, ip.inum, Needed(off, at)) && fs.Stuck(ip, o1, Needed(at, end)) && off <= at <= end <= all
    ensures fs.Stuck(ip, o0, Needed(off, all))
  {
    NeededJoin(off, at, end);
    NeededJoin(off, end, all);
    fs.StuckMore(ip, o0, o1, Needed(off, at), Needed(at, end), Needed(off, all));
  }

  /** One iteration of filewrite: write src[k..next], up to `end`; `now` is how far it got and foff' the new offset. */
  method WriteNext(fs: Fs, ip: Inode, foff: nat, src: seq<Byte>, k: nat, next: nat, devsw: map<nat, int>, ghost d0: Disk,
      ghost rec0: Dinode, ghost off: nat)
    returns (r: int, panicked: bool, foff': nat, ghost txn: set<nat>, ghost now: nat, ghost end: nat)
    requires Writing(fs, ip, foff, d0, rec0, off, src, k)
    requires k < |src| && next == if |src| - k > CHUNK then k + CHUNK else |src|
    modifies fs`disk, fs`owner, fs`logged, ip`size, ip`addrs
    ensures panicked ==> ip.typ != T_DEV && foff <= old(ip.size) && end <= MAXBYTES && fs.Stuck(ip, old(fs.owner), Needed(foff, end))
    ensures end == foff + (next - k) && (!panicked ==> Gained(old(fs.owner), fs.owner, ip.inum, Needed(foff, end)))
    ensures !panicked && r == -1 ==> fs.owner == old(fs.owner)
    ensures foff' == if r > 0 then (foff + r) % UINT_MOD else foff
    ensures !panicked ==> |txn| <= 6 + |BitmapBlocks(fs.sb)| && Covers(txn, old(fs.disk), fs.disk)
    ensures now == if r < 0 then k else next
    ensures !panicked && (r < 0 || r == next - k) ==> Writing(fs, ip, foff', d0, rec0, off, src, now)
    ensures !panicked && ip.typ != T_DEV ==> r == next - k || (r == -1 && k == Accepted(rec0.size, off, |src|) < |src|)
    ensures ip.typ == T_DEV ==> r == DeviceAnswer(ip.major, devsw) && fs.disk == old(fs.disk) && ip.Rec() == old(ip.Rec())
  {
    ghost var c0, c := Content(d0, rec0), fs.FileOf(ip);
    r, panicked, txn, end := ChunkElsewhere(fs, ip, foff, src[k..next], devsw, d0, rec0);
    now := if r < 0 then k else next;
    foff' := if r > 0 then (foff + r) % UINT_MOD else foff;
    if !panicked {
      ReachedNext(ip.typ == T_DEV, foff, off, src, k, next, c0, c, r, fs.FileOf(ip));
    }
  }

  /** The same, keeping account of the blocks. */
  method WriteGrowing(fs: Fs, ip: Inode, foff: nat, src: seq<Byte>, k: nat, next: nat, devsw: map<nat, int>, ghost d0: Disk,
      ghost rec0: Dinode, ghost off: nat, ghost o0: map<nat, Place>, ghost all: nat)
    returns (r: int, panicked: bool, foff': nat, ghost txn: set<nat>, ghost now: nat)
    requires Writing(fs, ip, foff, d0, rec0, off, src, k) && Grows(fs, ip, o0, off, foff) && all == off + Accepted(rec0.size, off, |src|)
    requires k < |src| && next == if |src| - k > CHUNK then k + CHUNK else |src|
    modifies fs`disk, fs`owner, fs`logged, ip`size, ip`addrs
    ensures panicked ==> ip.typ != T_DEV && fs.Stuck(ip, o0, Needed(off, all))
    ensures !panicked && (r < 0 || r == next - k) ==> Grows(fs, ip, o0, off, foff')
    ensures !panicked ==> |txn| <= 6 + |BitmapBlocks(fs.sb)| && Covers(txn, old(fs.disk), fs.disk)
    ensures now == if r < 0 then k else next
    ensures !panicked && (r < 0 || r == next - k) ==> Writing(fs, ip, foff', d0, rec0, off, src, now)
    ensures !panicked && ip.typ != T_DEV ==> r == next - k || (r == -1 && k == Accepted(rec0.size, off, |src|) < |src|)
    ensures ip.typ == T_DEV ==> r == DeviceAnswer(ip.major, devsw) && fs.disk == old(fs.disk) && ip.Rec() == old(ip.Rec())
  {
    ghost var o1, c0, c, end := fs.owner, Content(d0, rec0), fs.FileOf(ip), 0;
    if ip.typ != T_DEV {
      NextInside(foff, off, src, k, next, c0, c, all);
    }
    r, panicked, foff', txn, now, end := WriteNext(fs, ip, foff, src, k, next, devsw, d0, rec0, off);
    if panicked {
      StuckSoon(fs, ip, o0, o1, off, foff, end, all);
    } else if ip.typ != T_DEV && r == next - k {
      GrowsOn(o0, o1, fs.owner, ip.inum, off, foff, end);
      BothReached(foff, foff', off, src, k, next, c0, c, fs.FileOf(ip), end);
    }
  }

  lemma BothReached(foff: nat, foff': nat, off: nat, src: seq<Byte>, k: nat, next: nat, c0: seq<Byte>, c: seq<Byte>, c': seq<Byte>, end: nat)
    requires Reached(false, foff, off, src, k, c0, c) && Reached(false, foff', off, src, next, c0, c') && k <= next && end == foff + (next - k)
    ensures foff' == end
  {
  }

  /** One transaction, as seen from the start of filewrite. */
  method ChunkElsewhere(fs: Fs, ip: Inode, foff: nat, chunk: seq<Byte>, devsw: map<nat, int>, ghost d0: Disk, ghost rec0: Dinode)
    returns (r: int, panicked: bool, ghost txn: set<nat>, ghost end: nat)
    requires Elsewhere(fs, ip, d0, rec0) && foff < UINT_MOD && |chunk| <= CHUNK
    modifies fs`disk, fs`owner, fs`logged, ip`size, ip`addrs
    ensures panicked ==> ip.typ != T_DEV && foff <= old(ip.size) && end <= MAXBYTES && fs.Stuck(ip, old(fs.owner), Needed(foff, end))
    ensures end == foff + |chunk| && (!panicked ==> Gained(old(fs.owner), fs.owner, ip.inum, Needed(foff, end)))
    ensures !panicked && r == -1 ==> fs.owner == old(fs.owner)
    ensures !panicked ==> Elsewhere(fs, ip, d0, rec0) && |txn| <= 6 + |BitmapBlocks(fs.sb)| && Covers(txn, old(fs.disk), fs.disk)
    ensures ip.typ == T_DEV ==> r == DeviceAnswer(ip.major, devsw) && fs.FileOf(ip) == old(fs.FileOf(ip))
    ensures ip.typ != T_DEV && !panicked ==> Transacted(old(ip.size), old(fs.FileOf(ip)), foff, chunk, r, fs.FileOf(ip))
  {
    ghost var e := fs.disk;
    r, panicked, txn, end := OneTransaction(fs, ip, foff, chunk, devsw);
    if !panicked {
      OthersSameTrans(fs.sb, d0, e, fs.disk, ip.inum);
    }
  }

  lemma OffsetNext(off: nat, k: nat, next: nat, r: nat)
    requires next == k + r
    ensures ((off + k) % UINT_MOD + r) % UINT_MOD == (off + next) % UINT_MOD
  {
  }

  /** How a turn of filewrite's loop ends: the chunk was written, refused, or makes the call panic. */
  datatype Turn = Whole | Refused | Broken

  /** What the loop knows after k bytes, beside the files: a device has taken every chunk whole. */
  ghost predicate Taking(ip: Inode, devsw: nat -> map<nat, int>, n: nat, k: nat)
    reads ip
  {
    ip.typ == T_DEV ==> TakenSoFar(ip.major, devsw, n, k)
  }

  /** Where the loop has stopped, k bytes on: a file there, where no more is accepted, a device at its first other answer. */
  ghost predicate Stopped(ip: Inode, devsw: nat -> map<nat, int>, rec0: Dinode, off: nat, n: nat, k: nat, turn: Turn)
    reads ip
  {
    && (ip.typ == T_DEV ==> Stops(ip.major, devsw, n, k))
    && (ip.typ == T_DEV ==> (turn.Whole? <==> k == n) && (turn.Refused? <==> k < n && AnswerAt(ip.major, devsw, k) < 0))
    && (ip.typ != T_DEV && !turn.Broken? ==> k == Accepted(rec0.size, off, n) && (turn.Whole? <==> k == n))
  }

  /** How things stand after a turn that leaves i bytes written, the offset at foff; d0, rec0, o0 and off are those at the start. */
  ghost predicate LoopAt(fs: Fs, ip: Inode, devsw: nat -> map<nat, int>, d0: Disk, rec0: Dinode, o0: map<nat, Place>, off: nat,
      src: seq<Byte>, all: nat, turn: Turn, i: nat, foff: nat)
    reads fs, ip
  {
    && i <= |src|
    && (!turn.Broken? ==> Writing(fs, ip, foff, d0, rec0, off, src, i) && Grows(fs, ip, o0, off, foff))
    && (if turn.Whole? then Taking(ip, devsw, |src|, i) else Stopped(ip, devsw, rec0, off, |src|, i, turn))
    && (turn.Broken? && ip.typ != T_DEV ==> fs.Stuck(ip, o0, Needed(off, all)))
    && (ip.typ == T_DEV ==> fs.disk == d0 && ip.Rec() == rec0)
  }

  /** One turn of filewrite's loop. */
  method WriteTurn(fs: Fs, ip: Inode, foff: nat, src: seq<Byte>, k: nat, next: nat, devsw: nat -> map<nat, int>, ghost d0: Disk,
      ghost rec0: Dinode, ghost off: nat, ghost o0: map<nat, Place>, ghost all: nat)
    returns (turn: Turn, i: nat, foff': nat, ghost txn: set<nat>)
    requires LoopAt(fs, ip, devsw, d0, rec0, o0, off, src, all, Whole, k, foff) && all == off + Accepted(rec0.size, off, |src|)
    requires k < |src| && next == if |src| - k > CHUNK then k + CHUNK else |src|
    modifies fs`disk, fs`owner, fs`logged, ip`size, ip`addrs
    ensures LoopAt(fs, ip, devsw, d0, rec0, o0, off, src, all, turn, i, foff') && i == if turn.Whole? then next else k
    ensures !turn.Broken? ==> |txn| <= 6 + |BitmapBlocks(fs.sb)| && Covers(txn, old(fs.disk), fs.disk)
  {
    var r, panicked;
    ghost var now;
    r, panicked, foff', txn, now := WriteGrowing(fs, ip, foff, src, k, next, devsw(k), d0, rec0, off, o0, all);
    turn := if panicked then Broken else if r < 0 then Refused else if r != next - k then Broken else Whole;
    i := if turn.Whole? then next else k;
    if ip.typ == T_DEV && turn.Whole? {
      TakenNext(ip.major, devsw, |src|, k, next);
    }
  }

  /** A write of everything is what is accepted of it. */
  lemma AcceptedAll(c0: seq<Byte>, off: nat, src: seq<Byte>, c: seq<Byte>, foff: nat)
    requires Reached(false, foff, off, src, |src|, c0, c)
    ensures Accepted(|c0|, off, |src|) == |src|
  {
  }

  lemma LoopBegins(fs: Fs, ip: Inode, devsw: nat -> map<nat, int>, off: nat, src: seq<Byte>, all: nat)
    requires fs.Ready(ip) && off < UINT_MOD
    ensures LoopAt(fs, ip, devsw, fs.disk, ip.Rec(), fs.owner, off, src, all, Whole, 0, off)
  {
  }

  lemma LoopEnds(fs: Fs, ip: Inode, devsw: nat -> map<nat, int>, d0: Disk, rec0: Dinode, o0: map<nat, Place>, off: nat, src: seq<Byte>, all: nat,
      turn: Turn, i: nat, foff: nat)
    requires LoopAt(fs, ip, devsw, d0, rec0, o0, off, src, all, turn, i, foff) && (turn.Whole? ==> i == |src|)
    ensures Stopped(ip, devsw, rec0, off, |src|, i, turn)
  {
    if ip.typ != T_DEV && turn.Whole? {
      AcceptedAll(Content(d0, rec0), off, src, fs.FileOf(ip), foff);
    }
  }

  /** The loop of filewrite, carrying f.off in foff. */
  method WriteLoop(fs: Fs, ip: Inode, start: nat, src: seq<Byte>, devsw: nat -> map<nat, int>, ghost all: nat)
    returns (i: nat, foff: nat, turn: Turn, ghost txns: seq<set<nat>>)
    requires fs.Ready(ip) && start < UINT_MOD && all == start + Accepted(ip.size, start, |src|)
    modifies fs`disk, fs`owner, fs`logged, ip`size, ip`addrs
    ensures LoopAt(fs, ip, devsw, old(fs.disk), old(ip.Rec()), old(fs.owner), start, src, all, turn, i, foff)
    ensures Stopped(ip, devsw, old(ip.Rec()), start, |src|, i, turn)
    ensures !turn.Broken? ==> WithinBudget(fs.sb, txns) && AllCovered(txns, old(fs.disk), fs.disk)
  {
    i, foff, turn, txns := 0, start, Whole, [];
    ghost var d0, rec0, o0 := fs.disk, ip.Rec(), fs.owner;
    LoopBegins(fs, ip, devsw, start, src, all);
    while i < |src|
      invariant LoopAt(fs, ip, devsw, d0, rec0, o0, start, src, all, turn, i, foff) && turn.Whole?
      invariant WithinBudget(fs.sb, txns) && AllCovered(txns, d0, fs.disk)
    {
      var n1 := if |src| - i > CHUNK then CHUNK else |src| - i;
      var next := i + n1;
      ghost var txn, e := {}, fs.disk;
      turn, i, foff, txn := WriteTurn(fs, ip, foff, src, i, next, devsw, d0, rec0, start, o0, all);
      if !turn.Broken? {
        CoveredNext(txns, txn, d0, e, fs.disk);
      }
      txns := txns + [txn];
      if !turn.Whole? {
        break;
      }
    }
    LoopEnds(fs, ip, devsw, d0, rec0, o0, start, src, all, turn, i, foff);
  }

  /**
   How writing n bytes to a device ends when `stop` is where the first chunk begins that the device
   does not take whole: with n if there is none, with -1 if it answers with a negative number,
   and with a panic if with any other.
   */
  ghost predicate DeviceEnd(major: nat, devsw: nat -> map<nat, int>, off: nat, n: nat, stop: nat, r: int, panicked: bool, off': nat) {
    && Stops(major, devsw, n, stop)
    && (stop == n ==> !panicked && r == n && off' == (off + n) % UINT_MOD)
    && (stop < n && AnswerAt(major, devsw, stop) < 0 ==> !panicked && r == -1 && off' == (off + stop) % UINT_MOD)
    && (stop < n && AnswerAt(major, devsw, stop) >= 0 ==> panicked)
  }

  lemma DeviceEnds(ip: Inode, devsw: nat -> map<nat, int>, rec0: Dinode, off: nat, n: nat, i: nat, turn: Turn, foff: nat)
    requires ip.typ == T_DEV && Stopped(ip, devsw, rec0, off, n, i, turn) && (!turn.Broken? ==> foff == (off + i) % UINT_MOD)
    ensures DeviceEnd(ip.major, devsw, off, n, i, if i == n then n else -1, turn.Broken?, foff)
  {
  }

  lemma PartlyPrefix(c: seq<Byte>, off: nat, addr: seq<Byte>, n: nat, k: nat)
    requires k <= n <= |addr|
    ensures Partly(c, off, addr[..n], k) == Partly(c, off, addr, k)
  {
    assert addr[..n][..k] == addr[..k];
  }

  /** The loop gets as far as all, and the file with it. */
  lemma AllReached(foff: nat, off: nat, src: seq<Byte>, i: nat, c0: seq<Byte>, c: seq<Byte>, all: nat)
    requires Reached(false, foff, off, src, i, c0, c) && i == Accepted(|c0|, off, |src|) && all == off + i
    ensures foff == all && (off < all ==> all <= |c|)
  {
  }

  /** The same, with the number of blocks that it takes. */
  method WriteCounted(fs: Fs, ip: Inode, start: nat, src: seq<Byte>, devsw: nat -> map<nat, int>, ghost all: nat)
    returns (i: nat, foff: nat, turn: Turn, ghost txns: seq<set<nat>>)
    requires fs.Ready(ip) && start < UINT_MOD && all == start + Accepted(ip.size, start, |src|)
    modifies fs`disk, fs`owner, fs`logged, ip`size, ip`addrs
    ensures i <= |src| && Stopped(ip, devsw, old(ip.Rec()), start, |src|, i, turn)
    ensures ip.typ != T_DEV ==> (turn.Broken? <==> |Unmarked(fs.sb, old(fs.disk))| < |Needed(start, all) - Has(old(fs.disk), old(ip.Rec()))|)
    ensures ip.typ == T_DEV ==> fs.disk == old(fs.disk) && ip.Rec() == old(ip.Rec())
    ensures !turn.Broken? ==> WithinBudget(fs.sb, txns) && AllCovered(txns, old(fs.disk), fs.disk) && fs.Ready(ip) && OthersSame(fs.sb, old(fs.disk), fs.disk, ip.inum)
    ensures !turn.Broken? && ip.typ != T_DEV ==> foff == all && fs.FileOf(ip) == Partly(old(fs.FileOf(ip)), start, src, i)
    ensures !turn.Broken? && ip.typ == T_DEV ==> foff == (start + i) % UINT_MOD
  {
    ghost var s, c0, rec0 := fs.Snap(ip), fs.FileOf(ip), ip.Rec();
    fs.SyncedWorking(ip);
    i, foff, turn, txns := WriteLoop(fs, ip, start, src, devsw, all);
    if ip.typ != T_DEV {
      if turn.Broken? {
        fs.StuckEarly(ip, s, Needed(start, all));
      } else {
        AllReached(foff, start, src, i, c0, fs.FileOf(ip), all);
        fs.HadEnough(ip, s, start, all);
      }
    }
  }

  /** The part of filewrite for an open file or device, which stores the new offset. */
  method WriteFile(fs: Fs, f: File, addr: seq<Byte>, n: nat, devsw: nat -> map<nat, int>)
    returns (r: int, panicked: bool, ghost txns: seq<set<nat>>, ghost stop: nat, ghost all: nat)
    requires n <= |addr| && f.off < UINT_MOD && fs.Ready(f.ip)
    modifies fs`disk, fs`owner, fs`logged, f.ip`size, f.ip`addrs, f`off
    ensures all == old(f.off) + Accepted(old(f.ip.size), old(f.off), n)
    ensures f.ip.typ != T_DEV ==>
      (panicked <==> |Unmarked(fs.sb, old(fs.disk))| < |Needed(old(f.off), all) - Has(old(fs.disk), old(f.ip.Rec()))|)
    ensures !panicked ==> fs.Ready(f.ip) && OthersSame(fs.sb, old(fs.disk), fs.disk, f.ip.inum)
    ensures !panicked ==> WithinBudget(fs.sb, txns) && AllCovered(txns, old(fs.disk), fs.disk)
    ensures !panicked && f.ip.typ != T_DEV ==>
      var k := Accepted(old(f.ip.size), old(f.off), n);
      && r == (if n == 0 || (old(f.off) <= old(f.ip.size) && old(f.off) + n <= MAXBYTES) then n else -1)
      && k <= n && f.off == old(f.off) + k
      && fs.FileOf(f.ip) == Partly(old(fs.FileOf(f.ip)), old(f.off), addr, k)
    ensures f.ip.typ == T_DEV ==>
      && fs.disk == old(fs.disk) && f.ip.Rec() == old(f.ip.Rec())
      && DeviceEnd(f.ip.major, devsw, old(f.off), n, stop, r, panicked, f.off)
  {
    var i, foff, turn;
    all := f.off + Accepted(f.ip.size, f.off, n);
    i, foff, turn, txns := WriteCounted(fs, f.ip, f.off, addr[..n], devsw, all);
    f.off := foff;
    stop, panicked := i, turn.Broken?;
    r := if i == n then n else -1;
    if f.ip.typ == T_DEV {
      DeviceEnds(f.ip, devsw, old(f.ip.Rec()), old(f.off), n, i, turn, foff);
    } else {
      PartlyPrefix(old(fs.FileOf(f.ip)), old(f.off), addr, n, i);
    }
  }

  /**
   Write n bytes to f.  `devsw` and `pipe` are what devices' write functions and pipewrite
   answer.  On a file the call succeeds exactly when everything fits; otherwise the chunks
   that did fit, the bytes up to `all`, stay written and f.off stays behind them.  It panics
   exactly when the disk has fewer free blocks than those bytes still need.  On a device it
   succeeds exactly when the device takes every chunk whole; `stop` is where the first that it
   does not take begins.
   */
  method Filewrite(fs: Fs, f: File, addr: seq<Byte>, n: int, devsw: nat -> map<nat, int>, pipe: int)
    returns (r: int, panicked: bool, ghost txns: seq<set<nat>>, ghost stop: nat, ghost all: nat)
    requires n <= |addr| && f.off < UINT_MOD && fs.Ready(f.ip)
    modifies fs`disk, fs`owner, fs`logged, f.ip`size, f.ip`addrs, f`off
    ensures f.writable && f.kind.FdInode? && n >= 0 ==> all == old(f.off) + Accepted(old(f.ip.size), old(f.off), n)
    ensures f.writable && f.kind.FdInode? && n >= 0 && f.ip.typ != T_DEV ==>
      (panicked <==> |Unmarked(fs.sb, old(fs.disk))| < |Needed(old(f.off), all) - Has(old(fs.disk), old(f.ip.Rec()))|)
    ensures f.writable && f.kind.FdInode? && n < 0 ==> !panicked
    ensures !f.writable ==> r == -1 && !panicked
    ensures f.writable && !f.kind.FdInode? ==> if f.kind.FdPipe? then r == pipe && !panicked else panicked
    ensures !f.writable || !f.kind.FdInode? || n < 0 ==>
      fs.disk == old(fs.disk) && f.ip.Rec() == old(f.ip.Rec()) && f.off == old(f.off)
    ensures !panicked ==> fs.Ready(f.ip) && OthersSame(fs.sb, old(fs.disk), fs.disk, f.ip.inum)
    ensures !panicked ==> WithinBudget(fs.sb, txns) && AllCovered(txns, old(fs.disk), fs.disk)
    ensures !panicked && f.writable && f.kind.FdInode? && n < 0 ==> r == -1
    ensures !panicked && f.writable && f.kind.FdInode? && n >= 0 && f.ip.typ != T_DEV ==>
      var k := Accepted(old(f.ip.size), old(f.off), n);
      && r == (if n == 0 || (old(f.off) <= old(f.ip.size) && old(f.off) + n <= MAXBYTES) then n else -1)
      && k <= n && f.off == old(f.off) + k
      && fs.FileOf(f.ip) == Partly(old(fs.FileOf(f.ip)), old(f.off), addr, k)
    ensures f.writable && f.kind.FdInode? && n >= 0 && f.ip.typ == T_DEV ==>
      && fs.disk == old(fs.disk) && f.ip.Rec() == old(f.ip.Rec())
      && DeviceEnd(f.ip.major, devsw, old(f.off), n, stop, r, panicked, f.off)
  {
    if !f.writable {
      return -1, false, [], 0, 0;
    }
    if f.kind.FdPipe? {
      return pipe, false, [], 0, 0;
    }
    if f.kind.FdNone? {
      return -1, true, [], 0, 0;
    }
    if n < 0 {
      return -1, false, [], 0, 0;
    }
    r, panicked, txns, stop, all := WriteFile(fs, f, addr, n, devsw);
  }
}
