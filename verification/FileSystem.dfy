/**
 balloc, bfree, bmap, itrunc, iupdate, readi and writei (fs.c) over the logical disk contents
 that bread and log_write give them.  `logged` collects the blocks passed to log_write.
 A panic stops the kernel: the out-parameter `panicked` reports it and nothing is promised
 about the state after it.
 */
module FileSystem {
  import opened Params
  import opened FsDisk
  import opened FsBlocks
  import opened FsContent
  import opened BlockCount

  const T_DEV := 3
  const NDEV := 10

  /**
   What reading or writing a device gives: the answer of the function the device switch holds
   for its major number, which `devsw` gives for the numbers that have one, or -1.
   */
  function DeviceAnswer(major: nat, devsw: map<nat, int>): (r: int)
    ensures major < 10 && major in devsw ==> r == devsw[major]
    ensures major >= 10 || major !in devsw ==> r == -1
  {
    if major < NDEV && major in devsw then devsw[major] else -1
  }

  /** The in-core copy of an inode. */
  class Inode {
    const inum: nat
    var typ: nat
    var major: nat
    var minor: nat
    var nlink: nat
    var size: nat
    var addrs: seq<nat>

    constructor (inum: nat, x: Dinode)
      ensures this.inum == inum && Rec() == x
    {
      this.inum := inum;
      typ, major, minor, nlink, size, addrs := x.typ, x.major, x.minor, x.nlink, x.size, x.addrs;
    }

    ghost function Rec(): Dinode
      reads this
    {
      Dinode(typ, major, minor, nlink, size, addrs)
    }
  }

  /** The bits of one bitmap block. */
  lemma SameBitmapBlock(b: nat, bi: nat)
    requires b % BPB == 0 && bi < BPB
    ensures (b + bi) % BPB == bi && (b + bi) / BPB == b / BPB
  {
  }

  lemma Prefixed(s: seq<Byte>, i: nat, j: nat)
    requires i <= j <= |s|
    ensures s[..i] + s[i..j] == s[..j]
  {
  }

  /** One chunk stored in its block, which stays inside one block of the file. */
  lemma ChunkStored(sb: Super, d: Disk, ii: seq<Dinode>, owner: map<nat, Place>, held: set<nat>, logged: set<nat>, inum: nat, at: nat,
      hi: nat, chunk: seq<Byte>, b: nat)
    requires sb.Fits(d) && inum < |ii| && Owned(sb, d, ii, owner, held) && at < hi == at + |chunk| <= MAXBYTES && |chunk| <= BSIZE - at % BSIZE
    requires ii[inum].Valid() && b == BlockOf(d, ii[inum], at) != 0
    ensures b < |d|
    ensures var e := d[b := Splice(d[b], at % BSIZE, chunk)];
      && Owned(sb, e, ii, owner, held) && Inodes(sb, e) == Inodes(sb, d)
      && Wrote(sb, inum, Snapshot(d, ii, owner, logged), Snapshot(e, ii, owner, logged + {b}), at, hi, chunk)
  {
    Recorded(sb, d, ii, owner, held, inum, Slot(at / BSIZE));
    var e := d[b := Splice(d[b], at % BSIZE, chunk)];
    ChunkWritten(sb, d, ii, owner, inum, at, hi, chunk);
    DataWritten(sb, d, ii, owner, held, b, Splice(d[b], at % BSIZE, chunk));
    SameInodes(sb, d, e);
    assert b in Touched(owner, inum, at, hi) by {
      InBlock(at, |chunk|, hi - 1);
    }
  }

  /** off + n < off in 32 bits: the sum has wrapped around. */
  lemma Wraps(off: nat, n: nat, end: nat, sum: nat)
    requires off < UINT_MOD && n < UINT_MOD && end == off + n && sum == (off + n) % UINT_MOD
    ensures sum < off <==> end >= UINT_MOD
  {
  }

  /** The slots that bytes below the size need are filled. */
  lemma NeededThere(d: Disk, x: Dinode, lo: nat, hi: nat, k: nat)
    requires NoHoles(d, x) && (lo < hi ==> hi <= x.size) && k in Needed(lo, hi)
    ensures k < SLOTS && Ref(d, x, k) != 0
  {
    var o: nat :| Needs(lo, hi, o, k);
    assert BlockOf(d, x, o) != 0;
  }

  lemma BallocLogs(sb: Super, d: Disk, b: nat, l: set<nat>)
    requires sb.Fits(d) && b < sb.size
    ensures AllLogged(d, l, Balloced(sb, d, b), l + {sb.BBlock(b), b})
  {
  }

  lemma ThreeLogged(l: set<nat>, x: nat, y: nat, z: nat)
    ensures l + {x, y} + {z} == l + {x, y, z}
  {
  }

  lemma BfreeLogs(sb: Super, d: Disk, b: nat, l: set<nat>)
    requires sb.Fits(d) && b < sb.size
    ensures AllLogged(d, l, WithMark(sb, d, b, false), l + {sb.BBlock(b)})
  {
  }

  class Fs {
    const sb: Super
    var disk: Disk
    ghost var owner: map<nat, Place>
    ghost var held: set<nat>
    ghost var logged: set<nat>

    /** Start with a sound disk. */
    constructor (sb: Super, disk: Disk, ghost owner: map<nat, Place>)
      requires Sound(sb, disk, owner)
      ensures this.sb == sb && this.disk == disk && this.owner == owner && held == {} && logged == {}
    {
      this.sb, this.disk, this.owner, held, logged := sb, disk, owner, {}, {};
    }

    /** All inodes, with ip's in-core copy in place of its disk inode. */
    ghost function Files(ip: Inode): seq<Dinode>
      requires sb.Fits(disk) && ip.inum < sb.ninodes
      reads this, ip
    {
      Inodes(sb, disk)[ip.inum := ip.Rec()]
    }

    /** The ownership invariant while ip's in-core copy may be ahead of the disk. */
    ghost predicate Working(ip: Inode)
      reads this, ip
    {
      && sb.Fits(disk) && ip.inum < sb.ninodes && ip.Rec().Valid()
      && Owned(sb, disk, Files(ip), owner, held)
    }

    /** The disk is full: since o0, ip has gained blocks in slots of `need` only, and one of those is still empty. */
    ghost predicate Stuck(ip: Inode, o0: map<nat, Place>, need: set<nat>)
      reads this, ip
    {
      Working(ip) && Gained(o0, owner, ip.inum, need) && exists k :: Full(sb, disk, ip.Rec(), need, k)
    }

    lemma StuckMore(ip: Inode, o0: map<nat, Place>, o1: map<nat, Place>, a: set<nat>, b: set<nat>, need: set<nat>)
      requires Gained(o0, o1, ip.inum, a) && Stuck(ip, o1, b) && a <= need && b <= need
      ensures Stuck(ip, o0, need)
    {
      GainedTwice(o0, o1, owner, ip.inum, a, b, need);
      FullMore(sb, disk, ip.Rec(), b, need);
    }

    /** Allocate the first free block, zeroed. */
    method Balloc() returns (b: nat, panicked: bool)
      requires sb.Fits(disk)
      modifies this`disk, this`logged
      ensures panicked ==> forall x :: 0 <= x < sb.size ==> Marked(sb, old(disk), x)
      ensures !panicked ==> b < sb.size && !Marked(sb, old(disk), b) && forall x :: 0 <= x < b ==> Marked(sb, old(disk), x)
      ensures disk == if panicked then old(disk) else WithMark(sb, old(disk), b, true)[b := Zeros()]
      ensures logged == if panicked then old(logged) else old(logged) + {sb.BBlock(b), b}
    {
      b := 0;
      while b < sb.size
        invariant b % BPB == 0
        invariant disk == old(disk) && logged == old(logged)
        invariant forall x :: 0 <= x < b && x < sb.size ==> Marked(sb, disk, x)
        decreases sb.size - b
      {
        var bp := disk[sb.BBlock(b)];
        var bi := 0;
        while bi < BPB && b + bi < sb.size
          invariant 0 <= bi <= BPB && b + bi <= sb.size
          invariant disk == old(disk) && logged == old(logged)
          invariant forall x :: 0 <= x < b + bi ==> Marked(sb, disk, x)
        {
          SameBitmapBlock(b, bi);
          if !Bit(bp[bi / 8], bi % 8) {
            b := b + bi;
            disk := WithMark(sb, disk, b, true);
            logged := logged + {sb.BBlock(b)};
            disk := disk[b := Zeros()];
            logged := logged + {b};
            return b, false;
          }
          bi := bi + 1;
        }
        b := b + BPB;
      }
      return 0, true;
    }

    /** Free a block; a block that is already free makes it panic. */
    method Bfree(b: nat) returns (panicked: bool)
      requires sb.Fits(disk) && b < sb.size
      modifies this`disk, this`logged
      ensures panicked <==> !Marked(sb, old(disk), b)
      ensures disk == if panicked then old(disk) else WithMark(sb, old(disk), b, false)
      ensures logged == if panicked then old(logged) else old(logged) + {sb.BBlock(b)}
    {
      var bi := b % BPB;
      if !Bit(disk[sb.BBlock(b)][bi / 8], bi % 8) {
        return true;
      }
      disk := WithMark(sb, disk, b, false);
      logged := logged + {sb.BBlock(b)};
      panicked := false;
    }

    /** balloc a block and store it in the in-core address list. */
    method AllocInCore(ip: Inode, k: nat) returns (b: nat, panicked: bool)
      requires Working(ip) && k <= INDIRECT && ip.addrs[k] == 0
      modifies this`disk, this`owner, this`logged, ip`addrs
      ensures panicked ==> Stuck(ip, old(owner), {k})
      ensures !panicked ==> Working(ip) && Grew(sb, old(disk), old(owner), disk, owner, ip.inum)
      ensures !panicked ==> ip.addrs == old(ip.addrs)[k := b] && owner == old(owner)[b := Place(ip.inum, k)]
      ensures !panicked ==> b !in old(owner) && b != 0 && b < |disk| && disk[b] == Zeros()
      ensures !panicked ==> logged == old(logged) + {sb.BBlock(b), b}
      ensures !panicked ==> AllLogged(old(disk), old(logged), disk, logged)
    {
      b, panicked := Balloc();
      if panicked {
        assert Full(sb, disk, ip.Rec(), {k}, k);
      } else {
        InCoreAllocated(sb, old(disk), ip.inum, ip.Rec(), owner, held, k, b);
        BallocGrew(sb, old(disk), old(Files(ip)), owner, held, b, Place(ip.inum, k));
        BallocLogs(sb, old(disk), b, old(logged));
        ip.addrs := ip.addrs[k := b];
        owner := owner[b := Place(ip.inum, k)];
      }
    }

    /** Store the block b that balloc has just taken from disk d0 in entry j of the indirect block. */
    method EnterBlock(ip: Inode, j: nat, b: nat, ghost d0: Disk, ghost ii: seq<Dinode>, ghost owner1: map<nat, Place>)
      requires sb.Fits(d0) && ip.inum < sb.ninodes && ip.Rec().Valid() && j < NINDIRECT && 0 < ip.addrs[INDIRECT] < sb.size
      requires b < sb.size && disk == Balloced(sb, d0, b)
      requires var e := Entered(sb, d0, ip.addrs[INDIRECT], j, b); Inodes(sb, e)[ip.inum := ip.Rec()] == ii && Owned(sb, e, ii, owner1, held)
      modifies this`disk, this`owner, this`logged
      ensures disk == Entered(sb, d0, ip.addrs[INDIRECT], j, b) && Working(ip) && owner == owner1
      ensures logged == old(logged) + {ip.addrs[INDIRECT]}
      ensures AllLogged(old(disk), old(logged), disk, logged)
    {
      var a := ip.addrs[INDIRECT];
      ghost var e := Entered(sb, d0, a, j, b);
      disk := disk[a := PutWord(disk[a], j, b)];
      logged := logged + {a};
      owner := owner1;
      assert disk == e && Files(ip) == ii;
    }

    /** balloc a block and store it in the indirect block. */
    method AllocIndirect(ip: Inode, j: nat, ghost k: nat) returns (b: nat, panicked: bool)
      requires Working(ip) && j < NINDIRECT && k == INDIRECT + 1 + j && 0 < ip.addrs[INDIRECT] < sb.size
      requires Word(disk[ip.addrs[INDIRECT]], j) == 0
      modifies this`disk, this`owner, this`logged
      ensures panicked ==> Stuck(ip, old(owner), {k})
      ensures !panicked ==> Working(ip) && Grew(sb, old(disk), old(owner), disk, owner, ip.inum)
      ensures !panicked ==> owner == old(owner)[b := Place(ip.inum, k)]
      ensures !panicked ==> Ref(disk, ip.Rec(), k) == b
      ensures !panicked ==> b !in old(owner) && b != 0 && b < |disk| && disk[b] == Zeros()
      ensures !panicked ==> logged == old(logged) + {sb.BBlock(b), b, ip.addrs[INDIRECT]}
      ensures !panicked ==> AllLogged(old(disk), old(logged), disk, logged)
    {
      b, panicked := Balloc();
      if panicked {
        assert Full(sb, disk, ip.Rec(), {k}, k);
      } else {
        IndirectAllocated(sb, old(disk), ip.inum, ip.Rec(), owner, held, j, b, k);
        IndirectGrew(sb, old(disk), ip.inum, ip.Rec(), owner, held, j, b, k);
        ghost var d1, l1 := disk, logged;
        BallocLogs(sb, old(disk), b, old(logged));
        EnterBlock(ip, j, b, old(disk), old(Files(ip)), owner[b := Place(ip.inum, k)]);
        ThreeLogged(old(logged), sb.BBlock(b), b, ip.addrs[INDIRECT]);
        AllLoggedTwice(old(disk), old(logged), d1, l1, disk, logged);
      }
    }

    /** The blocks a bmap that returned addr may log. */
    ghost function BmapLog(ip: Inode, bn: nat, addr: nat): set<nat>
      requires ip.Rec().Valid()
      reads this, ip
    {
      {addr, sb.BBlock(addr)} +
      if bn < NDIRECT then {} else {ip.addrs[INDIRECT], sb.BBlock(ip.addrs[INDIRECT])}
    }

    /** The disk block of the nth block of ip, allocated if there is none. */
    method Bmap(ip: Inode, bn: nat) returns (addr: nat, panicked: bool)
      requires Working(ip) && bn < MAXFILE
      modifies this`disk, this`owner, this`logged, ip`addrs
      ensures panicked ==> Stuck(ip, old(owner), SlotsOf(bn))
      ensures !panicked ==> Gained(old(owner), owner, ip.inum, SlotsOf(bn))
      ensures !panicked ==> Working(ip) && Grew(sb, old(disk), old(owner), disk, owner, ip.inum)
      ensures !panicked ==> addr == Ref(disk, ip.Rec(), Slot(bn)) && addr != 0
      ensures old(Ref(disk, ip.Rec(), Slot(bn))) != 0 ==>
        !panicked && disk == old(disk) && owner == old(owner) && logged == old(logged) && ip.addrs == old(ip.addrs)
      ensures !panicked && old(Ref(disk, ip.Rec(), Slot(bn))) == 0 ==>
        addr !in old(owner) && addr < |disk| && disk[addr] == Zeros()
      ensures !panicked ==> logged <= old(logged) + BmapLog(ip, bn, addr)
      ensures !panicked ==> AllLogged(old(disk), old(logged), disk, logged)
    {
      if bn < NDIRECT {
        addr, panicked := ip.addrs[bn], false;
        if addr == 0 {
          addr, panicked := AllocInCore(ip, bn);
        }
      } else {
        ghost var k, need := Slot(bn), SlotsOf(bn);
        addr, panicked := BmapIndirect(ip, bn - NDIRECT, k, need);
      }
    }

    method BmapIndirect(ip: Inode, j: nat, ghost k: nat, ghost need: set<nat>) returns (addr: nat, panicked: bool)
      requires Working(ip) && j < NINDIRECT && k == INDIRECT + 1 + j && need == {INDIRECT, k}
      modifies this`disk, this`owner, this`logged, ip`addrs
      ensures panicked ==> Stuck(ip, old(owner), need)
      ensures !panicked ==> Gained(old(owner), owner, ip.inum, need)
      ensures !panicked ==> Working(ip) && Grew(sb, old(disk), old(owner), disk, owner, ip.inum)
      ensures !panicked ==> addr == Ref(disk, ip.Rec(), k) && addr != 0
      ensures old(Ref(disk, ip.Rec(), k)) != 0 ==>
        !panicked && disk == old(disk) && owner == old(owner) && logged == old(logged) && ip.addrs == old(ip.addrs)
      ensures !panicked && old(Ref(disk, ip.Rec(), k)) == 0 ==>
        addr !in old(owner) && addr < |disk| && disk[addr] == Zeros()
      ensures !panicked ==> logged <= old(logged) + BmapLog(ip, NDIRECT, addr)
      ensures !panicked ==> AllLogged(old(disk), old(logged), disk, logged)
    {
      addr := 0;
      panicked := LoadIndirect(ip);
      if panicked {
        StuckMore(ip, old(owner), old(owner), {}, {INDIRECT}, need);
        return;
      }
      ghost var d1, owner1, l1 := disk, owner, logged;
      addr, panicked := EntryOf(ip, j, k);
      if panicked {
        StuckMore(ip, old(owner), owner1, {INDIRECT}, {k}, need);
      } else {
        GrewTrans(sb, old(disk), old(owner), d1, owner1, disk, owner, ip.inum);
        GainedTwice(old(owner), owner1, owner, ip.inum, {INDIRECT}, {k}, need);
        AllLoggedTwice(old(disk), old(logged), d1, l1, disk, logged);
      }
    }

    /** Entry j of the indirect block, allocated if it is empty. */
    method EntryOf(ip: Inode, j: nat, ghost k: nat) returns (addr: nat, panicked: bool)
      requires Working(ip) && j < NINDIRECT && k == INDIRECT + 1 + j && 0 < ip.addrs[INDIRECT] < sb.size
      modifies this`disk, this`owner, this`logged
      ensures panicked ==> Stuck(ip, old(owner), {k})
      ensures !panicked ==> Gained(old(owner), owner, ip.inum, {k})
      ensures !panicked ==> Working(ip) && Grew(sb, old(disk), old(owner), disk, owner, ip.inum)
      ensures !panicked ==> addr == Ref(disk, ip.Rec(), k) && addr != 0
      ensures old(Ref(disk, ip.Rec(), k)) != 0 ==>
        !panicked && disk == old(disk) && owner == old(owner) && logged == old(logged)
      ensures !panicked && old(Ref(disk, ip.Rec(), k)) == 0 ==>
        addr !in old(owner) && addr < |disk| && disk[addr] == Zeros()
      ensures !panicked ==> logged <= old(logged) + BmapLog(ip, NDIRECT, addr)
      ensures !panicked ==> AllLogged(old(disk), old(logged), disk, logged)
    {
      addr, panicked := Word(disk[ip.addrs[INDIRECT]], j), false;
      assert addr == Ref(disk, ip.Rec(), k);
      if addr == 0 {
        addr, panicked := AllocIndirect(ip, j, k);
      }
    }

    /** Allocate the indirect block if there is none; it then lists nothing. */
    method LoadIndirect(ip: Inode) returns (panicked: bool)
      requires Working(ip)
      modifies this`disk, this`owner, this`logged, ip`addrs
      ensures panicked ==> Stuck(ip, old(owner), {INDIRECT})
      ensures !panicked ==> Gained(old(owner), owner, ip.inum, {INDIRECT})
      ensures !panicked ==> Working(ip) && Grew(sb, old(disk), old(owner), disk, owner, ip.inum)
      ensures !panicked ==> 0 < ip.addrs[INDIRECT] < sb.size
      ensures !panicked ==> forall k :: INDIRECT < k < SLOTS ==> Ref(disk, ip.Rec(), k) == old(Ref(disk, ip.Rec(), k))
      ensures old(ip.addrs[INDIRECT]) != 0 ==>
        !panicked && disk == old(disk) && owner == old(owner) && logged == old(logged) && ip.addrs == old(ip.addrs)
      ensures !panicked ==> logged <= old(logged) + {ip.addrs[INDIRECT], sb.BBlock(ip.addrs[INDIRECT])}
      ensures !panicked ==> AllLogged(old(disk), old(logged), disk, logged)
    {
      Recorded(sb, disk, Files(ip), owner, held, ip.inum, INDIRECT);
      panicked := false;
      if ip.addrs[INDIRECT] == 0 {
        var a;
        a, panicked := AllocInCore(ip, INDIRECT);
        if !panicked {
          forall k | INDIRECT < k < SLOTS ensures Ref(disk, ip.Rec(), k) == 0 {
            ZeroWords(k - INDIRECT - 1);
          }
        }
      }
    }

    /** Between operations: the disk is sound and ip's in-core copy agrees with it. */
    ghost predicate Ready(ip: Inode)
      reads this, ip
    {
      && Sound(sb, disk, owner) && held == {}
      && ip.inum < sb.ninodes && GetDinode(sb, disk, ip.inum) == ip.Rec() && NoHoles(disk, ip.Rec())
    }

    ghost function FileOf(ip: Inode): seq<Byte>
      requires Ready(ip)
      reads this, ip
    {
      Content(disk, ip.Rec())
    }

    /** bread(bmap(..)) of a block below the file's size: it exists, so nothing is allocated. */
    method BreadBmap(ip: Inode, at: nat) returns (bp: Block)
      requires Ready(ip) && at < ip.size
      modifies this`disk, this`owner, this`logged, ip`addrs
      ensures Ready(ip) && disk == old(disk) && owner == old(owner) && logged == old(logged) && ip.Rec() == old(ip.Rec())
      ensures BlockOf(disk, ip.Rec(), at) < |disk| && bp == disk[BlockOf(disk, ip.Rec(), at)]
    {
      SyncedWorking(ip);
      assert 0 < BlockOf(disk, ip.Rec(), at) < |disk|;
      var b, panicked := Bmap(ip, at / BSIZE);
      bp := disk[b];
    }

    /**
     Read up to n bytes at off.  `devsw` gives the devices' answers; the file
     system is not involved then.
     */
    method Readi(ip: Inode, off: nat, n: nat, devsw: map<nat, int>) returns (r: int, dst: seq<Byte>)
      requires Ready(ip) && off < UINT_MOD && n < UINT_MOD
      modifies this`disk, this`owner, this`logged, ip`addrs
      ensures Ready(ip) && disk == old(disk) && owner == old(owner) && logged == old(logged) && ip.Rec() == old(ip.Rec())
      ensures ip.typ == T_DEV && ip.major < 10 && ip.major in devsw ==> r == devsw[ip.major]
      ensures ip.typ == T_DEV && (ip.major >= 10 || ip.major !in devsw) ==> r == -1
      ensures ip.typ != T_DEV && (off > ip.size || off + n >= UINT_MOD) ==> r == -1
      ensures ip.typ != T_DEV && off <= ip.size && off + n < UINT_MOD ==>
        r == |dst| && dst == FileOf(ip)[off..if off + n > ip.size then ip.size else off + n]
    {
      dst := [];
      ghost var end := off + n;
      var sum := (off + n) % UINT_MOD;
      Wraps(off, n, end, sum);
      if ip.typ == T_DEV {
        return DeviceAnswer(ip.major, devsw), [];
      }
      if off > ip.size || sum < off {
        return -1, [];
      }
      var want := if off + n > ip.size then ip.size - off else n;
      dst := ReadBytes(ip, off, want, off + want);
      r := want;
    }

    /** The loop of readi, up to byte end. */
    method ReadBytes(ip: Inode, off: nat, want: nat, ghost end: nat) returns (dst: seq<Byte>)
      requires Ready(ip) && off + want == end <= ip.size
      modifies this`disk, this`owner, this`logged, ip`addrs
      ensures Ready(ip) && disk == old(disk) && owner == old(owner) && logged == old(logged) && ip.Rec() == old(ip.Rec())
      ensures |dst| == want && dst == FileOf(ip)[off..end]
    {
      dst := [];
      var at := off;
      ghost var file := FileOf(ip);
      while |dst| < want
        invariant Ready(ip) && FileOf(ip) == file
        invariant disk == old(disk) && owner == old(owner) && logged == old(logged) && ip.Rec() == old(ip.Rec())
        invariant at == off + |dst| && |dst| <= want
        invariant dst == file[off..at]
      {
        var bp := BreadBmap(ip, at);
        var left := want - |dst|;
        var m := if left < BSIZE - at % BSIZE then left else BSIZE - at % BSIZE;
        ReadChunk(disk, ip.Rec(), at, m);
        var next := at + m;
        Sliced(file, off, at, next);
        dst := dst + bp[at % BSIZE..at % BSIZE + m];
        at := next;
      }
    }

    ghost function Snap(ip: Inode): Snapshot
      requires sb.Fits(disk) && ip.inum < sb.ninodes
      reads this, ip
    {
      Snapshot(disk, Files(ip), owner, logged)
    }

    /** Copy ip to its disk inode. */
    method Iupdate(ip: Inode)
      requires sb.Fits(disk) && ip.inum < sb.ninodes && ip.Rec().Valid()
      modifies this`disk, this`logged
      ensures disk == PutDinode(sb, old(disk), ip.inum, ip.Rec()) && logged == old(logged) + {sb.IBlock(ip.inum)}
      ensures AllLogged(old(disk), old(logged), disk, logged)
    {
      disk := PutDinode(sb, disk, ip.inum, Dinode(ip.typ, ip.major, ip.minor, ip.nlink, ip.size, ip.addrs));
      logged := logged + {sb.IBlock(ip.inum)};
    }

    /** memmove into the buffer of block b and log_write it. */
    method StoreChunk(ip: Inode, b: nat, at: nat, ghost hi: nat, chunk: seq<Byte>)
      requires Working(ip) && at < hi == at + |chunk| <= MAXBYTES && |chunk| <= BSIZE - at % BSIZE
      requires b == BlockOf(disk, ip.Rec(), at) != 0
      modifies this`disk, this`logged
      ensures Working(ip) && Inodes(sb, disk) == old(Inodes(sb, disk))
      ensures Wrote(sb, ip.inum, old(Snap(ip)), Snap(ip), at, hi, chunk)
      ensures AllLogged(old(disk), old(logged), disk, logged)
    {
      ghost var ii := Files(ip);
      ChunkStored(sb, disk, ii, owner, held, logged, ip.inum, at, hi, chunk, b);
      disk := disk[b := Splice(disk[b], at % BSIZE, chunk)];
      logged := logged + {b};
      assert Files(ip) == ii;
    }

    /** bmap as writei uses it: no byte of any file changes. */
    method BmapKeeping(ip: Inode, at: nat, ghost bn: nat) returns (b: nat, panicked: bool)
      requires Working(ip) && at < MAXBYTES && bn == at / BSIZE
      modifies this`disk, this`owner, this`logged, ip`addrs
      ensures panicked ==> Stuck(ip, old(owner), SlotsOf(bn))
      ensures !panicked ==> Gained(old(owner), owner, ip.inum, SlotsOf(bn))
      ensures !panicked ==> Working(ip) && Inodes(sb, disk) == old(Inodes(sb, disk))
      ensures !panicked ==> BytesKept(sb, old(disk), old(Files(ip)), disk, Files(ip), ip.inum, at, at)
      ensures !panicked ==> b == BlockOf(disk, ip.Rec(), at) != 0 && Extends(old(owner), owner)
      ensures !panicked && old(BlockOf(disk, ip.Rec(), at)) != 0 ==> ip.addrs == old(ip.addrs)
      ensures !panicked ==> logged <= old(logged) + Touched(owner, ip.inum, at, at + 1) + BitmapBlocks(sb)
      ensures !panicked ==> AllLogged(old(disk), old(logged), disk, logged)
    {
      b, panicked := Bmap(ip, at / BSIZE);
      if !panicked {
        SameInodes(sb, old(disk), disk);
        GrewBytes(sb, old(disk), old(Files(ip)), old(owner), disk, Files(ip), owner, ip.inum, at);
        BmapLogTouched(ip, at);
      }
    }

    lemma BmapLogTouched(ip: Inode, at: nat)
      requires Working(ip) && at < MAXBYTES && BlockOf(disk, ip.Rec(), at) != 0
      ensures BmapLog(ip, at / BSIZE, BlockOf(disk, ip.Rec(), at)) <= Touched(owner, ip.inum, at, at + 1) + BitmapBlocks(sb)
    {
      Recorded(sb, disk, Files(ip), owner, held, ip.inum, Slot(at / BSIZE));
      Recorded(sb, disk, Files(ip), owner, held, ip.inum, INDIRECT);
    }

    /** One iteration of writei: bmap, copy, log_write. */
    method WriteChunk(ip: Inode, at: nat, ghost hi: nat, chunk: seq<Byte>, ghost bn: nat) returns (panicked: bool)
      requires Working(ip) && bn == at / BSIZE && at < hi == at + |chunk| <= MAXBYTES && |chunk| <= BSIZE - at % BSIZE
      modifies this`disk, this`owner, this`logged, ip`addrs
      ensures panicked ==> Stuck(ip, old(owner), SlotsOf(bn))
      ensures !panicked ==> Gained(old(owner), owner, ip.inum, SlotsOf(bn))
      ensures !panicked ==> Working(ip) && Inodes(sb, disk) == old(Inodes(sb, disk))
      ensures !panicked ==> Wrote(sb, ip.inum, old(Snap(ip)), Snap(ip), at, hi, chunk)
      ensures !panicked && old(BlockOf(disk, ip.Rec(), at)) != 0 ==> ip.addrs == old(ip.addrs)
      ensures !panicked ==> AllLogged(old(disk), old(logged), disk, logged)
    {
      var b;
      b, panicked := BmapKeeping(ip, at, bn);
      if !panicked {
        ghost var s := Snap(ip);
        StoreChunk(ip, b, at, hi, chunk);
        BmapThenStore(sb, ip.inum, old(Snap(ip)), s, Snap(ip), at, hi, chunk);
        AllLoggedTwice(old(disk), old(logged), s.d, s.logged, disk, logged);
      }
    }

    /** Bytes off..at have been written since s0; addresses are untouched while that lies within the file. */
    ghost predicate Writing(ip: Inode, s0: Snapshot, addrs0: seq<nat>, off: nat, at: nat, done: seq<Byte>)
      reads this, ip
    {
      && Working(ip)
      && Wrote(sb, ip.inum, s0, Snap(ip), off, at, done)
      && (at <= ip.size ==> ip.addrs == addrs0)
    }

    method WriteNext(ip: Inode, ghost s0: Snapshot, ghost addrs0: seq<nat>, ghost off: nat, ghost done: seq<Byte>,
        at: nat, ghost hi: nat, chunk: seq<Byte>)
      returns (panicked: bool)
      requires Writing(ip, s0, addrs0, off, at, done) && Gained(s0.owner, owner, ip.inum, Needed(off, at)) && off <= at
      requires AllLogged(s0.d, s0.logged, disk, logged)
      requires at < hi == at + |chunk| <= MAXBYTES && |chunk| <= BSIZE - at % BSIZE
      requires at < ip.size ==> BlockOf(s0.d, s0.ii[ip.inum], at) != 0
      modifies this`disk, this`owner, this`logged, ip`addrs
      ensures panicked ==> Stuck(ip, s0.owner, Needed(off, hi))
      ensures !panicked ==> Gained(s0.owner, owner, ip.inum, Needed(off, hi))
      ensures !panicked ==> Writing(ip, s0, addrs0, off, hi, done + chunk) && Inodes(sb, disk) == old(Inodes(sb, disk))
      ensures !panicked ==> AllLogged(s0.d, s0.logged, disk, logged)
    {
      ghost var s1 := Snap(ip);
      if at < ip.size {
        StillThere(sb, ip.inum, s0, s1, off, at, done);
      }
      ghost var bn, o1 := at / BSIZE, owner;
      panicked := WriteChunk(ip, at, hi, chunk, bn);
      NeededNext(off, at, hi, bn);
      if panicked {
        StuckMore(ip, s0.owner, o1, Needed(off, at), SlotsOf(bn), Needed(off, hi));
      } else {
        GainedTwice(s0.owner, o1, owner, ip.inum, Needed(off, at), SlotsOf(bn), Needed(off, hi));
        WroteTrans(sb, ip.inum, s0, s1, Snap(ip), off, at, hi, done, chunk);
        AllLoggedTwice(s0.d, s0.logged, s1.d, s1.logged, disk, logged);
      }
    }

    /** The loop of writei. */
    method WriteChunks(ip: Inode, src: seq<Byte>, off: nat, ghost end: nat) returns (at: nat, panicked: bool)
      requires Working(ip) && NoHoles(disk, ip.Rec()) && off <= ip.size && off + |src| == end <= MAXBYTES
      modifies this`disk, this`owner, this`logged, ip`addrs
      ensures panicked ==> Stuck(ip, old(owner), Needed(off, end))
      ensures !panicked ==> Gained(old(owner), owner, ip.inum, Needed(off, end))
      ensures !panicked ==> at == end && Writing(ip, old(Snap(ip)), old(ip.addrs), off, end, src)
      ensures !panicked ==> Inodes(sb, disk) == old(Inodes(sb, disk))
      ensures !panicked ==> AllLogged(old(disk), old(logged), disk, logged)
    {
      panicked := false;
      ghost var s0, ii0 := Snap(ip), Inodes(sb, disk);
      WroteNothing(sb, ip.inum, s0, off);
      var tot := 0;
      at := off;
      ghost var done: seq<Byte> := [];
      while tot < |src|
        invariant 0 <= tot <= |src| && at == off + tot && done == src[..tot]
        invariant Writing(ip, s0, old(ip.addrs), off, at, done) && Inodes(sb, disk) == ii0
        invariant Gained(s0.owner, owner, ip.inum, Needed(off, at)) && AllLogged(s0.d, s0.logged, disk, logged)
      {
        var m := if |src| - tot < BSIZE - at % BSIZE then |src| - tot else BSIZE - at % BSIZE;
        var upto, next := tot + m, at + m;
        var chunk := src[tot..upto];
        panicked := WriteNext(ip, s0, old(ip.addrs), off, done, at, next, chunk);
        if panicked {
          NeededJoin(off, next, end);
          StuckMore(ip, s0.owner, s0.owner, {}, Needed(off, next), Needed(off, end));
          return;
        }
        Prefixed(src, tot, upto);
        done := done + chunk;
        at, tot := next, upto;
      }
      assert done == src && at == end;
    }

    /** The tail of writei: record a grown size. */
    method RecordSize(ip: Inode, ghost s: Snapshot, ghost off: nat, at: nat, src: seq<Byte>)
      requires Working(ip) && held == {} && AfterLoop(sb, ip.inum, s, Snap(ip), off, at, src)
      requires at <= ip.size ==> ip.Rec() == s.ii[ip.inum]
      modifies this`disk, this`logged, ip`size
      ensures Ready(ip) && OthersSame(sb, s.d, disk, ip.inum)
      ensures FileOf(ip) == Overwrite(Content(s.d, s.ii[ip.inum]), off, src)
      ensures logged <= old(logged) + {sb.IBlock(ip.inum)}
      ensures AllLogged(old(disk), old(logged), disk, logged)
    {
      ghost var t := Snap(ip);
      if |src| > 0 && at > ip.size {
        FinishGrown(sb, ip.inum, s, t, off, at, src);
        ip.size := at;
        Iupdate(ip);
        assert Inodes(sb, disk)[ip.inum] == ip.Rec();
      } else {
        FinishInside(sb, ip.inum, s, t, off, at, src);
        assert Inodes(sb, disk)[ip.inum] == ip.Rec();
      }
    }

    /** A full disk had too few free blocks at s. */
    lemma StuckEarly(ip: Inode, s: Snapshot, need: set<nat>)
      requires Stuck(ip, s.owner, need) && held == {} && Owned(sb, s.d, s.ii, s.owner, {}) && ip.inum < |s.ii|
      ensures |Unmarked(sb, s.d)| < |need - Has(s.d, s.ii[ip.inum])|
    {
      var k :| Full(sb, disk, ip.Rec(), need, k);
      TooFew(sb, s.d, s.ii, s.owner, disk, Files(ip), owner, ip.inum, need, k);
    }

    /** A file that has got as far as `end` had enough of them. */
    lemma HadEnough(ip: Inode, s: Snapshot, off: nat, end: nat)
      requires Ready(ip) && Gained(s.owner, owner, ip.inum, Needed(off, end)) && Owned(sb, s.d, s.ii, s.owner, {}) && ip.inum < |s.ii| && (off < end ==> end <= ip.size)
      ensures |Unmarked(sb, disk)| == |Unmarked(sb, s.d)| - |Needed(off, end) - Has(s.d, s.ii[ip.inum])|
    {
      SyncedWorking(ip);
      forall k | k in Needed(off, end) ensures k < SLOTS && Ref(disk, ip.Rec(), k) != 0 {
        NeededThere(disk, ip.Rec(), off, end, k);
      }
      Sufficed(sb, s.d, s.ii, s.owner, disk, Files(ip), owner, ip.inum, Needed(off, end));
    }

    /** writei once its arguments have been accepted. */
    method WriteAccepted(ip: Inode, src: seq<Byte>, off: nat, ghost end: nat) returns (panicked: bool)
      requires Ready(ip) && off <= ip.size && off + |src| == end <= MAXBYTES
      modifies this`disk, this`owner, this`logged, ip`size, ip`addrs
      ensures panicked ==> Stuck(ip, old(owner), Needed(off, end))
      ensures !panicked ==> Gained(old(owner), owner, ip.inum, Needed(off, end))
      ensures !panicked ==> Ready(ip) && OthersSame(sb, old(disk), disk, ip.inum)
      ensures !panicked ==> FileOf(ip) == Overwrite(old(FileOf(ip)), off, src)
      ensures !panicked ==> logged <= old(logged) + Touched(owner, ip.inum, off, end) + BitmapBlocks(sb) + {sb.IBlock(ip.inum)}
      ensures !panicked ==> AllLogged(old(disk), old(logged), disk, logged)
    {
      SyncedWorking(ip);
      ghost var s := Snap(ip);
      var at;
      at, panicked := WriteChunks(ip, src, off, end);
      if !panicked {
        assert AfterLoop(sb, ip.inum, s, Snap(ip), off, end, src);
        ghost var d1, l1 := disk, logged;
        RecordSize(ip, s, off, at, src);
        AllLoggedTwice(s.d, s.logged, d1, l1, disk, logged);
      }
    }

    /**
     Write src at off.  A successful write splices src into the file, leaves every other file
     alone, and leaves the disk inode equal to the in-core one.
     */
    method Writei(ip: Inode, src: seq<Byte>, off: nat, devsw: map<nat, int>) returns (r: int, panicked: bool, ghost end: nat)
      requires Ready(ip) && off < UINT_MOD && |src| < UINT_MOD
      modifies this`disk, this`owner, this`logged, ip`size, ip`addrs
      ensures panicked ==> sb.Fits(disk) && forall x :: 0 <= x < sb.size ==> Marked(sb, disk, x)
      ensures end == off + |src|
      ensures ip.typ != T_DEV && off <= old(ip.size) && end <= MAXBYTES ==>
        (panicked <==> |Unmarked(sb, old(disk))| < |Needed(off, end) - Has(old(disk), old(ip.Rec()))|)
      ensures ip.typ == T_DEV || off > old(ip.size) || end > MAXBYTES ==> !panicked
      ensures panicked ==> Stuck(ip, old(owner), Needed(off, end))
      ensures !panicked ==> Gained(old(owner), owner, ip.inum, Needed(off, end))
      ensures !panicked ==> Ready(ip)
      ensures ip.typ == T_DEV && ip.major < 10 && ip.major in devsw ==> r == devsw[ip.major]
      ensures ip.typ == T_DEV && (ip.major >= 10 || ip.major !in devsw) ==> r == -1
      ensures ip.typ != T_DEV && !panicked ==>
        r == if off > old(ip.size) || end > MAXBYTES then -1 else |src|
      ensures ip.typ == T_DEV || r == -1 ==>
        disk == old(disk) && owner == old(owner) && logged == old(logged) && ip.Rec() == old(ip.Rec())
      ensures ip.typ != T_DEV && !panicked && r != -1 ==>
        FileOf(ip) == Overwrite(old(FileOf(ip)), off, src) && OthersSame(sb, old(disk), disk, ip.inum)
      ensures ip.typ != T_DEV && !panicked && r != -1 ==>
        logged <= old(logged) + Touched(owner, ip.inum, off, end) + BitmapBlocks(sb) + {sb.IBlock(ip.inum)}
      ensures !panicked ==> AllLogged(old(disk), old(logged), disk, logged)
    {
      end := off + |src|;
      var sum := (off + |src|) % UINT_MOD;
      Wraps(off, |src|, end, sum);
      if ip.typ == T_DEV {
        return DeviceAnswer(ip.major, devsw), false, end;
      }
      if off > ip.size || sum < off {
        return -1, false, end;
      }
      if off + |src| > MAXBYTES {
        return -1, false, end;
      }
      SyncedWorking(ip);
      ghost var s := Snap(ip);
      panicked := WriteAccepted(ip, src, off, end);
      if panicked {
        StuckEarly(ip, s, Needed(off, end));
      } else {
        HadEnough(ip, s, off, end);
      }
      r := |src|;
    }

    /** bfree of a block that nothing refers to: it is marked, so the source's panic cannot happen. */
    method BfreeHeld(b: nat, ghost ii: seq<Dinode>)
      requires Owned(sb, disk, ii, owner, held) && b in held
      modifies this`disk, this`logged, this`held
      ensures Owned(sb, disk, ii, owner, held) && held == old(held) - {b}
      ensures DataSame(sb, old(disk), disk) && Inodes(sb, disk) == old(Inodes(sb, disk))
      ensures AllLogged(old(disk), old(logged), disk, logged)
    {
      Freed(sb, disk, ii, owner, held, b);
      var panicked := Bfree(b);
      BfreeLogs(sb, old(disk), b, old(logged));
      held := held - {b};
      SameInodes(sb, old(disk), disk);
    }

    /** First loop of itrunc. */
    method FreeDirect(ip: Inode)
      requires Working(ip) && held == {}
      modifies this`disk, this`owner, this`held, this`logged, ip`addrs
      ensures Working(ip) && held == {}
      ensures DataSame(sb, old(disk), disk) && Inodes(sb, disk) == old(Inodes(sb, disk))
      ensures ip.addrs[INDIRECT] == old(ip.addrs[INDIRECT]) && forall k :: 0 <= k < NDIRECT ==> ip.addrs[k] == 0
      ensures AllLogged(old(disk), old(logged), disk, logged)
    {
      var i := 0;
      while i < NDIRECT
        invariant 0 <= i <= NDIRECT && Working(ip) && held == {}
        invariant DataSame(sb, old(disk), disk) && Inodes(sb, disk) == old(Inodes(sb, disk))
        invariant ip.addrs[INDIRECT] == old(ip.addrs[INDIRECT]) && forall k :: 0 <= k < i ==> ip.addrs[k] == 0
        invariant AllLogged(old(disk), old(logged), disk, logged)
      {
        if ip.addrs[i] != 0 {
          ghost var d1, l1 := disk, logged;
          FreeSlot(ip, i);
          AllLoggedTwice(old(disk), old(logged), d1, l1, disk, logged);
        }
        i := i + 1;
      }
    }

    method FreeSlot(ip: Inode, i: nat)
      requires Working(ip) && held == {} && i < NDIRECT && ip.addrs[i] != 0
      modifies this`disk, this`owner, this`held, this`logged, ip`addrs
      ensures Working(ip) && held == {} && ip.addrs == old(ip.addrs)[i := 0]
      ensures DataSame(sb, old(disk), disk) && Inodes(sb, disk) == old(Inodes(sb, disk))
      ensures AllLogged(old(disk), old(logged), disk, logged)
    {
      var b := ip.addrs[i];
      ghost var ii := Files(ip);
      UnlinkedDirect(sb, disk, ii, owner, held, ip.inum, i);
      ghost var jj := ii[ip.inum := ii[ip.inum].(addrs := ii[ip.inum].addrs[i := 0])];
      owner, held := owner - {b}, held + {b};
      BfreeHeld(b, jj);
      ip.addrs := ip.addrs[i := 0];
      assert Files(ip) == jj;
    }

    /** The loop of itrunc over the entries of the indirect block at address a. */
    method FreeEntries(bp: Block, ghost a: nat, ghost ii: seq<Dinode>)
      requires Owned(sb, disk, ii, owner, held) && held == {a} + EntriesFrom(bp, 0) && Distinct(bp, a)
      modifies this`disk, this`held, this`logged
      ensures Owned(sb, disk, ii, owner, held) && held == {a}
      ensures DataSame(sb, old(disk), disk) && Inodes(sb, disk) == old(Inodes(sb, disk))
      ensures AllLogged(old(disk), old(logged), disk, logged)
    {
      var j := 0;
      while j < NINDIRECT
        invariant 0 <= j <= NINDIRECT
        invariant Owned(sb, disk, ii, owner, held) && held == {a} + EntriesFrom(bp, j)
        invariant DataSame(sb, old(disk), disk) && Inodes(sb, disk) == old(Inodes(sb, disk))
        invariant AllLogged(old(disk), old(logged), disk, logged)
      {
        EntriesStep(bp, j);
        if Word(bp, j) != 0 {
          ghost var d1, l1 := disk, logged;
          BfreeHeld(Word(bp, j), ii);
          AllLoggedTwice(old(disk), old(logged), d1, l1, disk, logged);
        }
        j := j + 1;
      }
    }

    /** Second half of itrunc: free everything the indirect block lists, then the block itself. */
    method FreeIndirect(ip: Inode)
      requires Working(ip) && held == {} && ip.addrs[INDIRECT] != 0
      modifies this`disk, this`owner, this`held, this`logged, ip`addrs
      ensures Working(ip) && held == {} && ip.addrs == old(ip.addrs)[INDIRECT := 0]
      ensures DataSame(sb, old(disk), disk) && Inodes(sb, disk) == old(Inodes(sb, disk))
      ensures AllLogged(old(disk), old(logged), disk, logged)
    {
      var a := ip.addrs[INDIRECT];
      ghost var ii := Files(ip);
      ghost var jj := ii[ip.inum := ii[ip.inum].(addrs := ii[ip.inum].addrs[INDIRECT := 0])];
      UnlinkedIndirect(sb, disk, ii, owner, held, ip.inum);
      Entries(sb, disk, ii, owner, ip.inum);
      owner, held := owner - ListedBlocks(owner, ip.inum), held + ListedBlocks(owner, ip.inum);
      FreeEntries(disk[a], a, jj);
      ghost var d1, l1 := disk, logged;
      BfreeHeld(a, jj);
      AllLoggedTwice(old(disk), old(logged), d1, l1, disk, logged);
      ip.addrs := ip.addrs[INDIRECT := 0];
      assert Files(ip) == jj;
    }

    /** Both halves: every address is gone and every block freed. */
    method FreeBlocks(ip: Inode)
      requires Working(ip) && held == {}
      modifies this`disk, this`owner, this`held, this`logged, ip`addrs
      ensures Working(ip) && held == {} && ip.addrs == seq(NDIRECT + 1, _ => 0)
      ensures DataSame(sb, old(disk), disk) && Inodes(sb, disk) == old(Inodes(sb, disk))
      ensures AllLogged(old(disk), old(logged), disk, logged)
    {
      FreeDirect(ip);
      if ip.addrs[INDIRECT] != 0 {
        ghost var d1, l1 := disk, logged;
        FreeIndirect(ip);
        AllLoggedTwice(old(disk), old(logged), d1, l1, disk, logged);
      }
      assert forall k :: 0 <= k < NDIRECT + 1 ==> ip.addrs[k] == 0;
    }

    /** Discard the contents of ip. */
    method Itrunc(ip: Inode)
      requires Ready(ip)
      modifies this`disk, this`owner, this`held, this`logged, ip`size, ip`addrs
      ensures Ready(ip) && ip.Rec() == Emptied(old(ip.Rec())) && FileOf(ip) == []
      ensures OthersSame(sb, old(disk), disk, ip.inum)
      ensures AllLogged(old(disk), old(logged), disk, logged)
    {
      SyncedWorking(ip);
      FreeBlocks(ip);
      SizeChanged(sb, disk, Files(ip), owner, held, ip.inum, 0);
      ghost var x := Emptied(old(ip.Rec()));
      assert Files(ip)[ip.inum := Files(ip)[ip.inum].(size := 0)] == old(Inodes(sb, disk))[ip.inum := x];
      Truncated(sb, old(disk), old(owner), disk, ip.inum, owner);
      ip.size := 0;
      ghost var d1, l1 := disk, logged;
      Iupdate(ip);
      AllLoggedTwice(old(disk), old(logged), d1, l1, disk, logged);
      assert Inodes(sb, disk)[ip.inum] == x;
    }

    /** Read inode inum from the disk. */
    method Load(inum: nat) returns (ip: Inode)
      requires Sound(sb, disk, owner) && held == {} && inum < sb.ninodes
      ensures fresh(ip) && ip.inum == inum && Ready(ip) && ip.Rec() == Inodes(sb, disk)[inum]
    {
      assert NoHoles(disk, Inodes(sb, disk)[inum]);
      ip := new Inode(inum, GetDinode(sb, disk, inum));
    }

    /** Store a new type and link count in ip and its disk inode. */
    method Relabel(ip: Inode, typ: nat, nlink: nat)
      requires Ready(ip) && typ < 65536 && nlink < 65536
      modifies this`disk, this`logged, ip`typ, ip`nlink
      ensures Ready(ip) && ip.Rec() == old(ip.Rec()).(typ := typ, nlink := nlink) && FileOf(ip) == old(FileOf(ip))
      ensures OthersSame(sb, old(disk), disk, ip.inum)
      ensures AllLogged(old(disk), old(logged), disk, logged)
    {
      assert Inodes(sb, disk)[ip.inum] == ip.Rec();
      Relabelled(sb, disk, owner, ip.inum, ip.Rec().(typ := typ, nlink := nlink));
      ip.typ, ip.nlink := typ, nlink;
      Iupdate(ip);
      assert Inodes(sb, disk)[ip.inum] == ip.Rec();
    }

    lemma SyncedWorking(ip: Inode)
      requires Ready(ip)
      ensures Working(ip) && Files(ip) == Inodes(sb, disk)
      ensures NoHoles(disk, ip.Rec())
    {
      assert Inodes(sb, disk)[ip.inum] == ip.Rec();
    }
  }
}
