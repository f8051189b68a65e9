/**
 The file system on top of the log.  The log sees blocks as words and the file system as bytes;
 Bytes is the second view of the first.  A file system that the operations keep well formed is
 well formed again after every crash.
 */
module CrashSafety {
  import opened Params
  import opened Machines
  import F = FsDisk
  import opened FsBlocks
  import opened FsContent
  import L = LogDisk
  import M = LogMachine
  import Paths

  /** The bytes of a block of words, each little-endian. */
  function Bytes(b: L.Block): (r: F.Block) {
    seq(BSIZE, i requires 0 <= i < BSIZE => F.Encode(b[i / 4] % UINT_MOD, 4)[i % 4])
  }

  function Image(d: L.Disk): (r: F.Disk)
    ensures |r| == |d|
  {
    seq(|d|, i requires 0 <= i < |d| => Bytes(d[i]))
  }

  /** A well-formed file system: no block shared or lost, no hole in a file, every path lookup defined. */
  ghost predicate Whole(sb: F.Super, d: F.Disk) {
    exists owner :: Paths.TreeOk(sb, d, owner)
  }

  /** Nothing below the inodes is part of the file system. */
  ghost predicate SameAbove(sb: F.Super, d: F.Disk, e: F.Disk) {
    |d| == |e| == sb.size && forall b :: sb.inodestart <= b < sb.size ==> e[b] == d[b]
  }

  lemma InodesAbove(sb: F.Super, d: F.Disk, e: F.Disk)
    requires sb.Fits(d) && SameAbove(sb, d, e)
    ensures Inodes(sb, e) == Inodes(sb, d)
  {
    forall i | 0 <= i < sb.ninodes ensures F.GetDinode(sb, e, i) == F.GetDinode(sb, d, i) {
      assert sb.inodestart <= sb.IBlock(i) < sb.bmapstart;
    }
  }

  lemma SoundAbove(sb: F.Super, d: F.Disk, owner: map<nat, Place>, e: F.Disk)
    requires Sound(sb, d, owner) && SameAbove(sb, d, e)
    ensures Sound(sb, e, owner) && Inodes(sb, e) == Inodes(sb, d)
    ensures forall i :: 0 <= i < sb.ninodes ==> Content(e, Inodes(sb, d)[i]) == Content(d, Inodes(sb, d)[i])
  {
    var ii := Inodes(sb, d);
    InodesAbove(sb, d, e);
    SameRefs(sb, d, e, ii, owner);
    SameMarks(sb, d, e);
    forall i | 0 <= i < sb.ninodes ensures NoHoles(e, ii[i]) && Content(e, ii[i]) == Content(d, ii[i]) {
      DataSameContent(sb, d, ii, owner, {}, e, i);
    }
  }

  lemma TreeAbove(sb: F.Super, d: F.Disk, e: F.Disk)
    requires sb.Fits(d) && sb.Fits(e) && Inodes(sb, e) == Inodes(sb, d) && AllWhole(d, Inodes(sb, d)) && AllWhole(e, Inodes(sb, e))
    requires forall i :: 0 <= i < sb.ninodes ==> Content(e, Inodes(sb, d)[i]) == Content(d, Inodes(sb, d)[i])
    ensures Paths.TreeOf(sb, e) == Paths.TreeOf(sb, d) && (Paths.WholeDirs(sb, d) ==> Paths.WholeDirs(sb, e))
  {
    var ii := Inodes(sb, d);
    forall i | 0 <= i < sb.ninodes
      ensures Paths.NodeOf(e, ii[i]) == Paths.NodeOf(d, ii[i]) && Paths.WholeDir(e, ii[i]) == Paths.WholeDir(d, ii[i])
    {
    }
  }

  lemma WholeAbove(sb: F.Super, d: F.Disk, e: F.Disk)
    requires Whole(sb, d) && SameAbove(sb, d, e)
    ensures Whole(sb, e)
  {
    var owner :| Paths.TreeOk(sb, d, owner);
    SoundAbove(sb, d, owner, e);
    TreeAbove(sb, d, e);
    assert Paths.TreeOk(sb, e, owner);
  }

  /** The log lies below the inodes. */
  ghost predicate LogBelow(g: L.Geometry, sb: F.Super) {
    sb.Valid() && g.Valid() && g.total == sb.size && g.start + g.size <= sb.inodestart
  }

  lemma HomeAbove(g: L.Geometry, sb: F.Super, d: L.Disk, e: L.Disk)
    requires LogBelow(g, sb) && g.Fits(d) && g.Fits(e) && L.SameHome(g, d, e)
    ensures SameAbove(sb, Image(d), Image(e))
  {
    forall b | sb.inodestart <= b < sb.size ensures Image(e)[b] == Image(d)[b] {
      assert g.Home(b);
    }
  }

  ghost function WholeImage(sb: F.Super): L.Disk -> bool {
    d => Whole(sb, Image(d))
  }

  /**
   Take any run in which the file system is well formed at the start and whenever no operation is
   left open.  Stop it at any instant: once recovery has run, the disk holds a well-formed file
   system.
   */
  lemma CrashKeepsWhole(c: M.Config, sb: F.Super, s: M.State, n: nat)
    requires c.Roomy() && LogBelow(c.g, sb)
    requires Reach(M.BootWith(c, WholeImage(sb)), M.NextWith(c, WholeImage(sb)), s, n)
    ensures L.LogOk(c.g, s.disk) && Whole(sb, Image(L.Recovered(c.g, s.disk)))
  {
    M.InvariantSurvivesCrashes(c, WholeImage(sb), s, n);
    var x := M.Contents(s.base, s.events[..s.durable]);
    HomeAbove(c.g, sb, x, L.Recovered(c.g, s.disk));
    WholeAbove(sb, Image(x), Image(L.Recovered(c.g, s.disk)));
  }
}
