/** Counting blocks (fs.c): the free ones, those an inode has, and those a write needs. */
module BlockCount {
  import opened Params
  import opened Sets
  import opened FsDisk
  import opened FsBlocks

  /** The blocks that the bit map has as free. */
  ghost function Unmarked(sb: Super, d: Disk): set<nat>
    requires sb.Fits(d)
  {
    set x: nat | x < sb.size && !Marked(sb, d, x)
  }

  /** The slots of inode x that hold a block. */
  ghost function Has(d: Disk, x: Dinode): set<nat>
    requires |x.addrs| == NDIRECT + 1
  {
    set k: nat | k < SLOTS && Ref(d, x, k) != 0
  }

  /** The slots that the nth block of a file needs: its own and, behind the first twelve, that of the indirect block. */
  function SlotsOf(bn: nat): set<nat> {
    if bn < 12 then {bn} else {12, bn + 1}
  }

  ghost predicate Needs(lo: nat, hi: nat, o: nat, k: nat) {
    lo <= o < hi && k in SlotsOf(o / 512)
  }

  /** The slots that bytes lo..hi of a file need. */
  ghost function Needed(lo: nat, hi: nat): set<nat> {
    set k: nat | k < 141 && Wanted(lo, hi, k)
  }

  ghost predicate Wanted(lo: nat, hi: nat, k: nat) {
    exists o: nat :: Needs(lo, hi, o, k)
  }

  lemma NothingNeeded(lo: nat)
    ensures Needed(lo, lo) == {}
  {
  }

  lemma BoundedSlots(o: nat, k: nat)
    requires o < MAXBYTES && k in SlotsOf(o / 512)
    ensures k < 141
  {
  }

  lemma NeededNext(lo: nat, at: nat, hi: nat, bn: nat)
    requires lo <= at < hi <= MAXBYTES && hi - at <= 512 - at % 512 && bn == at / 512
    ensures Needed(lo, hi) == Needed(lo, at) + SlotsOf(bn)
  {
    forall k | k in Needed(lo, hi) ensures k in Needed(lo, at) + SlotsOf(bn) {
      var o: nat :| Needs(lo, hi, o, k);
      assert if o < at then Needs(lo, at, o, k) else o / 512 == bn;
    }
    forall k | k in Needed(lo, at) + SlotsOf(bn) ensures k in Needed(lo, hi) {
      if k in SlotsOf(bn) {
        BoundedSlots(at, k);
        assert Needs(lo, hi, at, k);
      } else {
        var o: nat :| Needs(lo, at, o, k);
        assert Needs(lo, hi, o, k);
      }
    }
  }

  lemma NeededJoin(lo: nat, at: nat, hi: nat)
    requires lo <= at <= hi
    ensures Needed(lo, hi) == Needed(lo, at) + Needed(at, hi)
  {
    forall k | k in Needed(lo, hi) ensures k in Needed(lo, at) + Needed(at, hi) {
      var o: nat :| Needs(lo, hi, o, k);
      assert if o < at then Needs(lo, at, o, k) else Needs(at, hi, o, k);
    }
    forall k | k in Needed(lo, at) + Needed(at, hi) ensures k in Needed(lo, hi) {
      if k in Needed(lo, at) {
        var o: nat :| Needs(lo, at, o, k);
        assert Needs(lo, hi, o, k);
      } else {
        var o: nat :| Needs(at, hi, o, k);
        assert Needs(lo, hi, o, k);
      }
    }
  }

  // ---------------------------------------------------------------- by owners

  /** The blocks behind the metadata that are neither owned nor held. */
  ghost function Unused(sb: Super, owner: map<nat, Place>, held: set<nat>): set<nat> {
    set x: nat | x < sb.size && Unclaimed(sb, owner, held, x)
  }

  ghost predicate Unclaimed(sb: Super, owner: map<nat, Place>, held: set<nat>, x: nat) {
    sb.Meta() <= x && x !in owner && x !in held
  }

  /** The slots of inode inum that own a block. */
  ghost function Mine(owner: map<nat, Place>, inum: nat): set<nat> {
    set b | b in owner && owner[b].inum == inum :: owner[b].slot
  }

  lemma UnusedIsFree(sb: Super, d: Disk, ii: seq<Dinode>, owner: map<nat, Place>, held: set<nat>)
    requires Owned(sb, d, ii, owner, held)
    ensures Unused(sb, owner, held) == Unmarked(sb, d)
  {
    forall x: nat | x < sb.size ensures Unclaimed(sb, owner, held, x) <==> !Marked(sb, d, x) {
    }
  }

  lemma MineIsHas(sb: Super, d: Disk, ii: seq<Dinode>, owner: map<nat, Place>, held: set<nat>, inum: nat)
    requires Owned(sb, d, ii, owner, held) && inum < |ii|
    ensures Mine(owner, inum) == Has(d, ii[inum])
  {
    forall k | k in Has(d, ii[inum]) ensures k in Mine(owner, inum) {
      Recorded(sb, d, ii, owner, held, inum, k);
    }
    forall k | k in Mine(owner, inum) ensures k in Has(d, ii[inum]) {
      var b :| b in owner && owner[b].inum == inum && owner[b].slot == k;
      assert At(d, ii, owner[b], b);
    }
  }

  /** From o0 to o inode inum has gained blocks in some of the slots `need`, and nothing else has changed. */
  ghost predicate Gained(o0: map<nat, Place>, o: map<nat, Place>, inum: nat, need: set<nat>) {
    && (forall b :: b in o0 ==> b in o && o[b] == o0[b])
    && (forall b :: b in o && b !in o0 ==> o[b].inum == inum && o[b].slot in need)
  }

  lemma GainedTwice(o0: map<nat, Place>, o1: map<nat, Place>, o2: map<nat, Place>, inum: nat, a: set<nat>, b: set<nat>, need: set<nat>)
    requires Gained(o0, o1, inum, a) && Gained(o1, o2, inum, b) && a <= need && b <= need
    ensures Gained(o0, o2, inum, need)
  {
  }

  /** The blocks gained. */
  ghost function New(o0: map<nat, Place>, o: map<nat, Place>): set<nat> {
    set b | b in o && b !in o0
  }

  ghost function SlotsIn(o: map<nat, Place>, bs: set<nat>): set<nat>
    requires bs <= o.Keys
  {
    set b | b in bs :: o[b].slot
  }

  /** Blocks of one inode are in as many slots. */
  lemma {:induction false} AsManySlots(sb: Super, d: Disk, ii: seq<Dinode>, o: map<nat, Place>, inum: nat, bs: set<nat>)
    requires InodesOk(sb, ii) && References(sb, d, ii, o) && bs <= o.Keys && forall b :: b in bs ==> o[b].inum == inum
    ensures |SlotsIn(o, bs)| == |bs|
    decreases |bs|
  {
    if bs == {} {
      assert SlotsIn(o, bs) == {};
    } else {
      var b :| b in bs;
      var rest := bs - {b};
      AsManySlots(sb, d, ii, o, inum, rest);
      assert SlotsIn(o, bs) == SlotsIn(o, rest) + {o[b].slot};
      forall c | c in rest ensures o[c].slot != o[b].slot {
        assert At(d, ii, o[b], b) && At(d, ii, o[c], c);
      }
    }
  }

  /** Every block gained is a free block less and a slot more. */
  lemma Conserved(sb: Super, d0: Disk, ii0: seq<Dinode>, o0: map<nat, Place>, d: Disk, ii: seq<Dinode>, o: map<nat, Place>, held: set<nat>,
      inum: nat, need: set<nat>)
    requires Owned(sb, d0, ii0, o0, held) && Owned(sb, d, ii, o, held) && Gained(o0, o, inum, need) && inum < |ii0| && inum < |ii|
    ensures |Unused(sb, o, held)| + |Mine(o, inum)| == |Unused(sb, o0, held)| + |Mine(o0, inum)|
    ensures Mine(o0, inum) <= Mine(o, inum) <= Mine(o0, inum) + need
  {
    var gain := New(o0, o);
    assert Unused(sb, o0, held) == Unused(sb, o, held) + gain by {
      forall x: nat | x < sb.size ensures Unclaimed(sb, o0, held, x) <==> Unclaimed(sb, o, held, x) || x in gain {
        assert x in gain ==> sb.Meta() <= x && x !in held;
      }
    }
    assert Unused(sb, o, held) * gain == {};
    AsManySlots(sb, d, ii, o, inum, gain);
    MineGained(o0, o, inum, need);
    forall b, c | b in gain && c in o0 && o0[c].inum == inum ensures o[b].slot != o0[c].slot {
      assert At(d, ii, o[b], b) && At(d, ii, o[c], c);
    }
    assert Mine(o0, inum) * SlotsIn(o, gain) == {};
  }

  lemma MineGained(o0: map<nat, Place>, o: map<nat, Place>, inum: nat, need: set<nat>)
    requires Gained(o0, o, inum, need)
    ensures Mine(o, inum) == Mine(o0, inum) + SlotsIn(o, New(o0, o)) && SlotsIn(o, New(o0, o)) <= need
  {
    var gain := New(o0, o);
    forall k | k in Mine(o, inum) ensures k in Mine(o0, inum) + SlotsIn(o, gain) {
      var b :| b in o && o[b].inum == inum && o[b].slot == k;
      assert b in o0 || b in gain;
    }
    forall k | k in Mine(o0, inum) + SlotsIn(o, gain) ensures k in Mine(o, inum) {
      if k in Mine(o0, inum) {
        var b :| b in o0 && o0[b].inum == inum && o0[b].slot == k;
        assert b in o;
      } else {
        var b :| b in gain && o[b].slot == k;
      }
    }
  }

  /** The disk is full and slot k of inode x still empty. */
  ghost predicate Full(sb: Super, d: Disk, x: Dinode, need: set<nat>, k: nat)
    requires sb.Fits(d) && |x.addrs| == NDIRECT + 1
  {
    k in need && k < SLOTS && Ref(d, x, k) == 0 && forall b :: 0 <= b < sb.size ==> Marked(sb, d, b)
  }

  lemma FullMore(sb: Super, d: Disk, x: Dinode, a: set<nat>, need: set<nat>)
    requires sb.Fits(d) && |x.addrs| == NDIRECT + 1 && a <= need && exists k :: Full(sb, d, x, a, k)
    ensures exists k :: Full(sb, d, x, need, k)
  {
    var k :| Full(sb, d, x, a, k);
    assert Full(sb, d, x, need, k);
  }

  /** If the disk is full before inode inum has its blocks, it began with too few free ones. */
  lemma TooFew(sb: Super, d0: Disk, ii0: seq<Dinode>, o0: map<nat, Place>, d: Disk, ii: seq<Dinode>, o: map<nat, Place>, inum: nat,
      need: set<nat>, k: nat)
    requires Owned(sb, d0, ii0, o0, {}) && Owned(sb, d, ii, o, {}) && Gained(o0, o, inum, need) && inum < |ii0| && inum < |ii|
    requires Full(sb, d, ii[inum], need, k)
    ensures |Unmarked(sb, d0)| < |need - Has(d0, ii0[inum])|
  {
    Conserved(sb, d0, ii0, o0, d, ii, o, {}, inum, need);
    UnusedIsFree(sb, d0, ii0, o0, {});
    UnusedIsFree(sb, d, ii, o, {});
    assert Unmarked(sb, d) == {};
    MineIsHas(sb, d0, ii0, o0, {}, inum);
    MineIsHas(sb, d, ii, o, {}, inum);
    var have, all := Mine(o, inum), Mine(o0, inum) + need;
    Fewer(have, all, k);
    MissingSize(Mine(o0, inum), need);
  }

  /** If inode inum has all the blocks it needed, there were enough free ones, and those are gone. */
  lemma Sufficed(sb: Super, d0: Disk, ii0: seq<Dinode>, o0: map<nat, Place>, d: Disk, ii: seq<Dinode>, o: map<nat, Place>, inum: nat,
      need: set<nat>)
    requires Owned(sb, d0, ii0, o0, {}) && Owned(sb, d, ii, o, {}) && Gained(o0, o, inum, need) && inum < |ii0| && inum < |ii|
    requires forall k :: k in need ==> k < SLOTS && Ref(d, ii[inum], k) != 0
    ensures |Unmarked(sb, d)| == |Unmarked(sb, d0)| - |need - Has(d0, ii0[inum])|
  {
    Conserved(sb, d0, ii0, o0, d, ii, o, {}, inum, need);
    UnusedIsFree(sb, d0, ii0, o0, {});
    UnusedIsFree(sb, d, ii, o, {});
    MineIsHas(sb, d0, ii0, o0, {}, inum);
    MineIsHas(sb, d, ii, o, {}, inum);
    assert Mine(o, inum) == Mine(o0, inum) + need;
    MissingSize(Mine(o0, inum), need);
  }
}
