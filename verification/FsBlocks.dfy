/**
 Who owns which block (fs.c).  A place is a slot of an inode: its 12 direct addresses, the
 address of its indirect block, and the 128 entries of that block.  `owner` maps each
 referenced block to its place, so two places never share a block; `held` are blocks that are
 marked in the bit map but not (or no longer) referenced.
 */
module FsBlocks {
  import opened Params
  import opened FsDisk

  const SLOTS := NDIRECT + 1 + NINDIRECT

  datatype Place = Place(inum: nat, slot: nat)

  /** The slot of the nth block of a file. */
  function Slot(bn: nat): (k: nat)
    requires bn < MAXFILE
    ensures k < SLOTS && k != INDIRECT
  {
    if bn < NDIRECT then bn else bn + 1
  }

  /** The block number stored in a slot, 0 if there is none. */
  function Ref(d: Disk, x: Dinode, k: nat): nat
    requires |x.addrs| == NDIRECT + 1 && k < SLOTS
  {
    if k <= INDIRECT then x.addrs[k]
    else if 0 < x.addrs[INDIRECT] < |d| then Word(d[x.addrs[INDIRECT]], k - INDIRECT - 1)
    else 0
  }

  ghost predicate InodesOk(sb: Super, ii: seq<Dinode>) {
    |ii| == sb.ninodes && forall i :: 0 <= i < |ii| ==> ii[i].Valid()
  }

  ghost predicate At(d: Disk, ii: seq<Dinode>, p: Place, b: nat) {
    p.inum < |ii| && p.slot < SLOTS && ii[p.inum].Valid() && Ref(d, ii[p.inum], p.slot) == b
  }

  /** Every reference is recorded, and every record is a reference. */
  ghost predicate References(sb: Super, d: Disk, ii: seq<Dinode>, owner: map<nat, Place>)
    requires InodesOk(sb, ii)
  {
    && (forall i, k :: 0 <= i < |ii| && 0 <= k < SLOTS && Ref(d, ii[i], k) != 0 ==>
          Ref(d, ii[i], k) in owner && owner[Ref(d, ii[i], k)] == Place(i, k))
    && (forall b :: b in owner ==> sb.Meta() <= b < sb.size && At(d, ii, owner[b], b))
  }

  /** The bit map marks exactly the metadata, the referenced blocks and the held ones. */
  ghost predicate BitmapExact(sb: Super, d: Disk, owner: map<nat, Place>, held: set<nat>)
    requires sb.Fits(d)
  {
    && (forall b :: b in held ==> sb.Meta() <= b < sb.size && b !in owner)
    && (forall b {:trigger Marked(sb, d, b)} :: 0 <= b < sb.size ==>
          (Marked(sb, d, b) <==> b < sb.Meta() || b in owner || b in held))
  }

  ghost predicate Owned(sb: Super, d: Disk, ii: seq<Dinode>, owner: map<nat, Place>, held: set<nat>) {
    && sb.Fits(d) && InodesOk(sb, ii)
    && References(sb, d, ii, owner)
    && BitmapExact(sb, d, owner, held)
  }

  /** No two places name the same block: the reading of `owner` in the source's terms. */
  lemma NoSharing(sb: Super, d: Disk, ii: seq<Dinode>, owner: map<nat, Place>, held: set<nat>, p: Place, q: Place)
    requires Owned(sb, d, ii, owner, held)
    requires p.inum < |ii| && q.inum < |ii| && p.slot < SLOTS && q.slot < SLOTS && p != q
    ensures Ref(d, ii[p.inum], p.slot) != 0 ==> Ref(d, ii[p.inum], p.slot) != Ref(d, ii[q.inum], q.slot)
  {
  }

  lemma Recorded(sb: Super, d: Disk, ii: seq<Dinode>, owner: map<nat, Place>, held: set<nat>, i: nat, k: nat)
    requires Owned(sb, d, ii, owner, held) && i < |ii| && k < SLOTS
    ensures var b := Ref(d, ii[i], k); b != 0 ==> sb.Meta() <= b < sb.size && b in owner && owner[b] == Place(i, k)
  {
  }

  /** Blocks that decide the references: where they agree, so do all references. */
  lemma SameRefs(sb: Super, d: Disk, e: Disk, ii: seq<Dinode>, owner: map<nat, Place>)
    requires InodesOk(sb, ii) && References(sb, d, ii, owner) && |d| == |e| == sb.size
    requires forall b :: b in owner && owner[b].slot == INDIRECT ==> e[b] == d[b]
    ensures forall i, k :: 0 <= i < |ii| && 0 <= k < SLOTS ==> Ref(e, ii[i], k) == Ref(d, ii[i], k)
    ensures References(sb, e, ii, owner)
  {
    forall i, k | 0 <= i < |ii| && 0 <= k < SLOTS ensures Ref(e, ii[i], k) == Ref(d, ii[i], k) {
      assert Ref(d, ii[i], INDIRECT) == ii[i].addrs[INDIRECT];
    }
  }

  /** Blocks that hold the bit map: where they agree, so do all marks. */
  lemma SameMarks(sb: Super, d: Disk, e: Disk)
    requires sb.Fits(d) && sb.Fits(e)
    requires forall b :: sb.bmapstart <= b < sb.Meta() ==> e[b] == d[b]
    ensures forall b {:trigger Marked(sb, e, b)} :: 0 <= b < sb.size ==> (Marked(sb, e, b) <==> Marked(sb, d, b))
  {
    forall b | 0 <= b < sb.size ensures Marked(sb, e, b) <==> Marked(sb, d, b) {
      assert sb.bmapstart <= sb.BBlock(b) < sb.Meta();
    }
  }

  /** balloc: mark a free block and zero it. */
  lemma Allocated(sb: Super, d: Disk, ii: seq<Dinode>, owner: map<nat, Place>, held: set<nat>, b: nat)
    requires Owned(sb, d, ii, owner, held) && b < sb.size && !Marked(sb, d, b)
    ensures b >= sb.Meta() && b !in owner && b !in held
    ensures Owned(sb, WithMark(sb, d, b, true)[b := Zeros()], ii, owner, held + {b})
  {
    var m := WithMark(sb, d, b, true);
    var e := m[b := Zeros()];
    assert BitmapExact(sb, e, owner, held + {b}) by {
      WithMarkAt(sb, d, b, true);
      SameMarks(sb, m, e);
    }
    assert References(sb, e, ii, owner) by {
      SameRefs(sb, d, e, ii, owner);
    }
  }

  /** bfree: unmark a block nothing refers to any more. */
  lemma Freed(sb: Super, d: Disk, ii: seq<Dinode>, owner: map<nat, Place>, held: set<nat>, b: nat)
    requires Owned(sb, d, ii, owner, held) && b in held
    ensures Marked(sb, d, b)
    ensures Owned(sb, WithMark(sb, d, b, false), ii, owner, held - {b})
  {
    WithMarkAt(sb, d, b, false);
    SameRefs(sb, d, WithMark(sb, d, b, false), ii, owner);
  }

  /** Storing new contents in a block that is neither bit map nor indirect block. */
  lemma DataWritten(sb: Super, d: Disk, ii: seq<Dinode>, owner: map<nat, Place>, held: set<nat>, b: nat, data: Block)
    requires Owned(sb, d, ii, owner, held) && b < sb.size
    requires b < sb.bmapstart || (b in owner && owner[b].slot != INDIRECT)
    ensures Owned(sb, d[b := data], ii, owner, held)
  {
    var e := d[b := data];
    assert BitmapExact(sb, e, owner, held) by {
      SameMarks(sb, d, e);
    }
    assert References(sb, e, ii, owner) by {
      SameRefs(sb, d, e, ii, owner);
    }
  }

  /** (e, jj) makes the references of (d, ii) and, at the empty place p, a reference to b. */
  ghost predicate OneMore(sb: Super, d: Disk, ii: seq<Dinode>, e: Disk, jj: seq<Dinode>, p: Place, b: nat)
    requires InodesOk(sb, ii) && InodesOk(sb, jj)
  {
    && At(d, ii, p, 0)
    && forall i, k :: 0 <= i < |ii| && 0 <= k < SLOTS ==>
         Ref(e, jj[i], k) == if Place(i, k) == p then b else Ref(d, ii[i], k)
  }

  lemma Linked(sb: Super, d: Disk, ii: seq<Dinode>, e: Disk, jj: seq<Dinode>, owner: map<nat, Place>, p: Place, b: nat)
    requires InodesOk(sb, ii) && InodesOk(sb, jj) && References(sb, d, ii, owner)
    requires OneMore(sb, d, ii, e, jj, p, b) && sb.Meta() <= b < sb.size && b !in owner && b != 0
    ensures References(sb, e, jj, owner[b := p])
  {
  }

  lemma LinkedBitmap(sb: Super, d: Disk, owner: map<nat, Place>, held: set<nat>, p: Place, b: nat)
    requires sb.Fits(d) && BitmapExact(sb, d, owner, held) && b in held
    ensures BitmapExact(sb, d, owner[b := p], held - {b})
  {
  }

  /** bmap, direct slot or indirect block: an in-core address now names a held block. */
  lemma LinkedInCore(sb: Super, d: Disk, ii: seq<Dinode>, owner: map<nat, Place>, held: set<nat>, i: nat, k: nat,
      b: nat)
    requires Owned(sb, d, ii, owner, held) && b in held
    requires i < |ii| && k <= INDIRECT && ii[i].addrs[k] == 0
    requires k == INDIRECT ==> d[b] == Zeros()
    ensures Owned(sb, d, ii[i := ii[i].(addrs := ii[i].addrs[k := b])], owner[b := Place(i, k)], held - {b})
  {
    var x := ii[i].(addrs := ii[i].addrs[k := b]);
    var jj := ii[i := x];
    if k == INDIRECT {
      forall l | INDIRECT < l < SLOTS ensures Ref(d, x, l) == 0 && Ref(d, ii[i], l) == 0 {
        ZeroWords(l - INDIRECT - 1);
      }
    }
    assert OneMore(sb, d, ii, d, jj, Place(i, k), b);
    Linked(sb, d, ii, d, jj, owner, Place(i, k), b);
    LinkedBitmap(sb, d, owner, held, Place(i, k), b);
  }

  /** Only entry j of the indirect block of inode i changes. */
  lemma EnteredRef(sb: Super, d: Disk, ii: seq<Dinode>, owner: map<nat, Place>, i: nat, j: nat, b: nat, l: nat, k: nat)
    requires InodesOk(sb, ii) && References(sb, d, ii, owner) && i < |ii| && j < NINDIRECT && l < |ii| && k < SLOTS && |d| == sb.size && b < UINT_MOD
    requires 0 < ii[i].addrs[INDIRECT] < sb.size
    ensures var a := ii[i].addrs[INDIRECT];
      Ref(d[a := PutWord(d[a], j, b)], ii[l], k) == if l == i && k == INDIRECT + 1 + j then b else Ref(d, ii[l], k)
  {
    var a := ii[i].addrs[INDIRECT];
    PutWordAt(d[a], j, b);
    assert Ref(d, ii[i], INDIRECT) == a;
    assert Ref(d, ii[l], INDIRECT) == ii[l].addrs[INDIRECT];
  }

  /** bmap, entry of the indirect block. */
  lemma LinkedIndirect(sb: Super, d: Disk, ii: seq<Dinode>, owner: map<nat, Place>, held: set<nat>, i: nat, j: nat,
      b: nat)
    requires Owned(sb, d, ii, owner, held) && b in held && i < |ii| && j < NINDIRECT
    requires var a := ii[i].addrs[INDIRECT]; 0 < a < sb.size && Word(d[a], j) == 0
    ensures var a := ii[i].addrs[INDIRECT];
      Owned(sb, d[a := PutWord(d[a], j, b)], ii, owner[b := Place(i, INDIRECT + 1 + j)], held - {b})
  {
    var a := ii[i].addrs[INDIRECT];
    var e := d[a := PutWord(d[a], j, b)];
    var p := Place(i, INDIRECT + 1 + j);
    assert Ref(d, ii[i], INDIRECT) == a;
    assert OneMore(sb, d, ii, e, ii, p, b) by {
      forall l, k | 0 <= l < |ii| && 0 <= k < SLOTS
        ensures Ref(e, ii[l], k) == if Place(l, k) == p then b else Ref(d, ii[l], k)
      {
        EnteredRef(sb, d, ii, owner, i, j, b, l, k);
      }
    }
    Linked(sb, d, ii, e, ii, owner, p, b);
    SameMarks(sb, d, e);
    LinkedBitmap(sb, e, owner, held, p, b);
  }

  /** itrunc, direct slot: the address is dropped and its block is held. */
  lemma UnlinkedDirect(sb: Super, d: Disk, ii: seq<Dinode>, owner: map<nat, Place>, held: set<nat>, i: nat, k: nat)
    requires Owned(sb, d, ii, owner, held) && i < |ii| && k < INDIRECT && ii[i].addrs[k] != 0
    ensures var b := ii[i].addrs[k];
      Owned(sb, d, ii[i := ii[i].(addrs := ii[i].addrs[k := 0])], owner - {b}, held + {b})
  {
    var b := ii[i].addrs[k];
    var x := ii[i].(addrs := ii[i].addrs[k := 0]);
    var jj := ii[i := x];
    assert Ref(d, ii[i], k) == b;
    assert OneMore(sb, d, jj, d, ii, Place(i, k), b);
    Unlinked(sb, d, jj, d, ii, owner, Place(i, k), b);
  }

  lemma Unlinked(sb: Super, d: Disk, ii: seq<Dinode>, e: Disk, jj: seq<Dinode>, owner: map<nat, Place>, p: Place,
      b: nat)
    requires InodesOk(sb, ii) && InodesOk(sb, jj) && References(sb, e, jj, owner)
    requires OneMore(sb, d, ii, e, jj, p, b) && b != 0
    ensures References(sb, d, ii, owner - {b})
  {
  }

  /** The indirect block of inode i and the blocks it lists. */
  ghost function ListedBlocks(owner: map<nat, Place>, i: nat): set<nat> {
    set b | b in owner && owner[b].inum == i && owner[b].slot >= INDIRECT
  }

  /** itrunc, indirect block: it and everything it lists are held. */
  lemma UnlinkedIndirect(sb: Super, d: Disk, ii: seq<Dinode>, owner: map<nat, Place>, held: set<nat>, i: nat)
    requires Owned(sb, d, ii, owner, held) && i < |ii|
    ensures var gone := ListedBlocks(owner, i);
      Owned(sb, d, ii[i := ii[i].(addrs := ii[i].addrs[INDIRECT := 0])], owner - gone, held + gone)
    ensures var a := ii[i].addrs[INDIRECT];
      a != 0 ==> a < sb.size && ListedBlocks(owner, i) == {a} + set j | 0 <= j < NINDIRECT && Word(d[a], j) != 0 :: Word(d[a], j)
  {
    var gone := ListedBlocks(owner, i);
    var x := ii[i].(addrs := ii[i].addrs[INDIRECT := 0]);
    var jj := ii[i := x];
    forall j, k | 0 <= j < |jj| && 0 <= k < SLOTS
      ensures Ref(d, jj[j], k) == if j == i && k >= INDIRECT then 0 else Ref(d, ii[j], k)
    {
    }
    assert References(sb, d, jj, owner - gone);
    var a := ii[i].addrs[INDIRECT];
    if a != 0 {
      assert Ref(d, ii[i], INDIRECT) == a;
      ListedExactly(sb, d, ii, owner, i);
    }
  }

  lemma ListedExactly(sb: Super, d: Disk, ii: seq<Dinode>, owner: map<nat, Place>, i: nat)
    requires InodesOk(sb, ii) && References(sb, d, ii, owner) && i < |ii| && 0 < ii[i].addrs[INDIRECT] < |d| == sb.size
    ensures var a := ii[i].addrs[INDIRECT];
      ListedBlocks(owner, i) == {a} + set j | 0 <= j < NINDIRECT && Word(d[a], j) != 0 :: Word(d[a], j)
  {
    var a := ii[i].addrs[INDIRECT];
    assert Ref(d, ii[i], INDIRECT) == a;
    forall j | 0 <= j < NINDIRECT && Word(d[a], j) != 0 ensures Word(d[a], j) in ListedBlocks(owner, i) {
      assert Ref(d, ii[i], INDIRECT + 1 + j) == Word(d[a], j);
    }
    forall b | b in ListedBlocks(owner, i) && b != a ensures exists j :: 0 <= j < NINDIRECT && Word(d[a], j) != 0 && Word(d[a], j) == b {
      var j := owner[b].slot - INDIRECT - 1;
      assert At(d, ii, owner[b], b);
      assert Word(d[a], j) == b;
    }
  }

  /** The non-zero entries of an indirect block from entry j on. */
  ghost function EntriesFrom(bp: Block, j: nat): set<nat> {
    set k | j <= k < NINDIRECT && Word(bp, k) != 0 :: Word(bp, k)
  }

  /** The block at address a lists no block twice, and not itself. */
  ghost predicate Distinct(bp: Block, a: nat) {
    forall j :: 0 <= j < NINDIRECT && Word(bp, j) != 0 ==> Word(bp, j) != a && Word(bp, j) !in EntriesFrom(bp, j + 1)
  }

  lemma EntriesStep(bp: Block, j: nat)
    requires j < NINDIRECT
    ensures EntriesFrom(bp, j) == EntriesFrom(bp, j + 1) + if Word(bp, j) == 0 then {} else {Word(bp, j)}
  {
  }

  lemma EntryUnique(sb: Super, d: Disk, ii: seq<Dinode>, owner: map<nat, Place>, i: nat, j: nat, l: nat)
    requires InodesOk(sb, ii) && References(sb, d, ii, owner) && i < |ii| && 0 < ii[i].addrs[INDIRECT] < |d|
    requires j < l < NINDIRECT && Word(d[ii[i].addrs[INDIRECT]], j) != 0
    ensures Word(d[ii[i].addrs[INDIRECT]], l) != Word(d[ii[i].addrs[INDIRECT]], j)
  {
    var a := ii[i].addrs[INDIRECT];
    assert Ref(d, ii[i], INDIRECT + 1 + j) == Word(d[a], j);
    assert Ref(d, ii[i], INDIRECT + 1 + l) == Word(d[a], l);
  }

  lemma Entries(sb: Super, d: Disk, ii: seq<Dinode>, owner: map<nat, Place>, i: nat)
    requires InodesOk(sb, ii) && References(sb, d, ii, owner) && i < |ii| && 0 < ii[i].addrs[INDIRECT] < |d| == sb.size
    ensures var a := ii[i].addrs[INDIRECT]; ListedBlocks(owner, i) == {a} + EntriesFrom(d[a], 0) && Distinct(d[a], a)
  {
    ListedExactly(sb, d, ii, owner, i);
    var a := ii[i].addrs[INDIRECT];
    assert Ref(d, ii[i], INDIRECT) == a;
    forall j | 0 <= j < NINDIRECT && Word(d[a], j) != 0
      ensures Word(d[a], j) != a && Word(d[a], j) !in EntriesFrom(d[a], j + 1)
    {
      assert Ref(d, ii[i], INDIRECT + 1 + j) == Word(d[a], j);
      forall l | j < l < NINDIRECT ensures Word(d[a], l) != Word(d[a], j) {
        EntryUnique(sb, d, ii, owner, i, j, l);
      }
    }
  }
}
