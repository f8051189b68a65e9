/**
 The table of in-memory inodes (fs.c): iget, idup, ilock and iput keep for each inode in use one
 slot with a reference count.  A slot's copy of the disk inode is not kept here: every change is
 written through by iupdate, so ilock's result is the disk inode again.
 */
module InodeCache {
  import opened Sets
  import opened FsDisk
  import opened FsBlocks
  import opened FsContent
  import opened FileSystem

  const NINODE := 50

  /** An entry of the table; it is free when ref is 0. */
  datatype Slot = Slot(inum: nat, ref: nat, valid: bool)

  ghost predicate Holds(s: seq<Slot>, k: int, inum: nat) {
    0 <= k < |s| && s[k].ref > 0 && s[k].inum == inum
  }

  /** No inode has two slots. */
  ghost predicate Unique(s: seq<Slot>) {
    forall j, k {:trigger s[j], s[k]} :: 0 <= j < k < |s| && s[j].ref > 0 && s[k].ref > 0 ==> s[j].inum != s[k].inum
  }

  /** The number of references to an inode. */
  ghost function Refs(s: seq<Slot>, inum: nat): nat {
    if s == [] then 0 else (if s[0].inum == inum then s[0].ref else 0) + Refs(s[1..], inum)
  }

  /** What one slot's new contents do to the counts. */
  lemma {:induction false} RefsUpdate(s: seq<Slot>, k: nat, x: Slot, inum: nat)
    requires k < |s|
    ensures Refs(s[k := x], inum) + (if s[k].inum == inum then s[k].ref else 0)
         == Refs(s, inum) + if x.inum == inum then x.ref else 0
  {
    if k > 0 {
      assert s[k := x][1..] == s[1..][k - 1 := x];
      RefsUpdate(s[1..], k - 1, x, inum);
    } else {
      assert s[k := x][1..] == s[1..];
    }
  }

  lemma {:induction false} NoRefs(s: seq<Slot>, inum: nat)
    requires forall k :: 0 <= k < |s| ==> !Holds(s, k, inum)
    ensures Refs(s, inum) == 0
  {
    if s != [] {
      assert !Holds(s, 0, inum);
      assert forall k :: 0 <= k < |s| - 1 ==> Holds(s[1..], k, inum) == Holds(s, k + 1, inum);
      NoRefs(s[1..], inum);
    }
  }

  /** In a table without duplicates a slot's count is all the references there are. */
  lemma {:induction false} SlotHasAll(s: seq<Slot>, k: nat)
    requires Unique(s) && k < |s| && s[k].ref > 0
    ensures Refs(s, s[k].inum) == s[k].ref
  {
    if k > 0 {
      SlotHasAll(s[1..], k - 1);
    } else {
      forall j | 0 <= j < |s| - 1 ensures !Holds(s[1..], j, s[0].inum) {
      }
      NoRefs(s[1..], s[0].inum);
    }
  }

  /** The inodes that have a slot. */
  ghost function InUse(s: seq<Slot>): set<nat> {
    set k: nat | k < |s| && s[k].ref > 0 :: s[k].inum
  }

  ghost function UsedSlots(s: seq<Slot>): set<nat> {
    set k: nat | k < |s| && s[k].ref > 0
  }

  /** The free slots. */
  ghost function Vacant(s: seq<Slot>): set<nat> {
    set k: nat | k < |s| && s[k].ref == 0
  }

  ghost function InumsAt(s: seq<Slot>, ks: set<nat>): set<nat>
    requires ks <= UsedSlots(s)
  {
    set k | k in ks :: s[k].inum
  }

  lemma {:induction false} AsManyInums(s: seq<Slot>, ks: set<nat>)
    requires Unique(s) && ks <= UsedSlots(s)
    ensures |InumsAt(s, ks)| == |ks|
    decreases |ks|
  {
    if ks == {} {
      assert InumsAt(s, ks) == {};
    } else {
      var k :| k in ks;
      var rest := ks - {k};
      AsManyInums(s, rest);
      assert InumsAt(s, ks) == InumsAt(s, rest) + {s[k].inum};
      forall j | j in rest ensures s[j].inum != s[k].inum {
        assert if j < k then s[j].inum != s[k].inum else s[k].inum != s[j].inum;
      }
    }
  }

  /** Every slot is free or has an inode of its own. */
  lemma SlotCount(s: seq<Slot>)
    requires Unique(s)
    ensures |InUse(s)| + |Vacant(s)| == |s|
  {
    AsManyInums(s, UsedSlots(s));
    assert InumsAt(s, UsedSlots(s)) == InUse(s);
    assert UsedSlots(s) + Vacant(s) == Span(0, |s|);
    SpanSize(0, |s|);
  }

  lemma {:induction false} HasRefs(s: seq<Slot>, k: nat)
    requires k < |s|
    ensures Refs(s, s[k].inum) >= s[k].ref
  {
    if k > 0 {
      HasRefs(s[1..], k - 1);
    }
  }

  /** An inode has a slot exactly if there are references to it. */
  lemma InUseIsRefs(s: seq<Slot>, i: nat)
    ensures i in InUse(s) <==> Refs(s, i) > 0
  {
    if i in InUse(s) {
      var k: nat :| k < |s| && s[k].ref > 0 && s[k].inum == i;
      HasRefs(s, k);
    } else {
      forall k | 0 <= k < |s| ensures !Holds(s, k, i) {
      }
      NoRefs(s, i);
    }
  }

  /** One reference to inum more. */
  ghost predicate OneRefMore(s: seq<Slot>, t: seq<Slot>, inum: nat) {
    forall i: nat :: Refs(t, i) == Refs(s, i) + if i == inum then 1 else 0
  }

  /** Slots in use stay where they are, and keep their references. */
  ghost predicate Kept(s: seq<Slot>, t: seq<Slot>) {
    |s| == |t| && forall k :: 0 <= k < |s| && s[k].ref > 0 ==> t[k].inum == s[k].inum && t[k].ref >= s[k].ref
  }

  lemma Incremented(s: seq<Slot>, k: nat, x: Slot)
    requires Unique(s) && k < |s| && x.ref == s[k].ref + 1
    requires if s[k].ref > 0 then x.inum == s[k].inum else forall j :: 0 <= j < |s| ==> !Holds(s, j, x.inum)
    ensures Unique(s[k := x]) && OneRefMore(s, s[k := x], x.inum) && Kept(s, s[k := x])
  {
    forall i: nat ensures Refs(s[k := x], i) == Refs(s, i) + if i == x.inum then 1 else 0 {
      RefsUpdate(s, k, x, i);
    }
    assert Unique(s[k := x]) by {
      forall j | 0 <= j < |s| && j != k && s[j].ref > 0 ensures s[j].inum != x.inum {
        assert !Holds(s, j, x.inum) || s[k].ref > 0;
      }
    }
  }

  lemma Decremented(s: seq<Slot>, k: nat, x: Slot)
    requires Unique(s) && k < |s| && s[k].ref > 0 && x.inum == s[k].inum && x.ref == s[k].ref - 1
    ensures Unique(s[k := x]) && OneRefMore(s[k := x], s, x.inum)
  {
    forall i: nat ensures Refs(s, i) == Refs(s[k := x], i) + if i == x.inum then 1 else 0 {
      RefsUpdate(s, k, x, i);
    }
  }

  lemma Revalidated(s: seq<Slot>, k: nat, x: Slot)
    requires Unique(s) && k < |s| && x.inum == s[k].inum && x.ref == s[k].ref
    ensures Unique(s[k := x]) && Kept(s, s[k := x]) && forall i: nat :: Refs(s[k := x], i) == Refs(s, i)
  {
    forall i: nat ensures Refs(s[k := x], i) == Refs(s, i) {
      RefsUpdate(s, k, x, i);
    }
  }

  class Icache {
    const slots: array<Slot>

    ghost predicate Valid()
      reads slots
    {
      slots.Length == NINODE && Unique(slots[..])
    }

    constructor ()
      ensures Valid() && fresh(slots) && forall i: nat :: Refs(slots[..], i) == 0
    {
      slots := new Slot[NINODE](_ => Slot(0, 0, false));
      new;
      forall i: nat ensures Refs(slots[..], i) == 0 {
        NoRefs(slots[..], i);
      }
    }

    /** The slot of inode inum, with one more reference; a full table without it makes the call panic. */
    method Iget(inum: nat) returns (k: nat, panicked: bool)
      requires Valid()
      modifies slots
      ensures Valid()
      ensures panicked <==> (forall j :: 0 <= j < NINODE ==> old(slots[j]).ref > 0 && old(slots[j]).inum != inum)
      ensures panicked <==> Vacant(old(slots[..])) == {} && inum !in InUse(old(slots[..]))
      ensures panicked ==> slots[..] == old(slots[..])
      ensures !panicked ==> k < NINODE && Holds(slots[..], k, inum) && OneRefMore(old(slots[..]), slots[..], inum) && Kept(old(slots[..]), slots[..])
      ensures !panicked && old(slots[..])[k].ref > 0 ==> slots[k] == old(slots[..])[k].(ref := old(slots[..])[k].ref + 1)
      ensures !panicked && old(slots[..])[k].ref == 0 ==> slots[k] == Slot(inum, 1, false) && forall j :: 0 <= j < k ==> old(slots[j]).ref > 0
      ensures !panicked ==> forall j :: 0 <= j < NINODE && j != k ==> slots[j] == old(slots[j])
    {
      ghost var s := slots[..];
      var empty;
      k, empty := Scan(inum);
      if k < NINODE {
        Incremented(s, k, slots[k].(ref := slots[k].ref + 1));
        slots[k] := slots[k].(ref := slots[k].ref + 1);
        assert slots[..] == s[k := slots[k]];
        assert s[k].inum in InUse(s);
        return k, false;
      }
      if empty == NINODE {
        assert forall j :: 0 <= j < NINODE ==> !Holds(s, j, inum) && s[j] == old(slots[j]);
        return 0, true;
      }
      assert empty in Vacant(s) && s[empty].ref == 0;
      assert forall j :: 0 <= j < |s| ==> !Holds(s, j, inum);
      k := empty;
      Incremented(s, k, Slot(inum, 1, false));
      slots[k] := Slot(inum, 1, false);
      assert slots[..] == s[k := slots[k]];
      return k, false;
    }

    /** The loop of iget: the slot of inum and, if there is none, the first free one; NINODE stands for none. */
    method Scan(inum: nat) returns (k: nat, empty: nat)
      requires Valid()
      ensures k <= NINODE && empty <= NINODE && (k < NINODE ==> slots[k].ref > 0 && slots[k].inum == inum)
      ensures k == NINODE ==> forall j :: 0 <= j < NINODE ==> !(slots[j].ref > 0 && slots[j].inum == inum)
      ensures k == NINODE && empty < NINODE ==> slots[empty].ref == 0 && forall j :: 0 <= j < empty ==> slots[j].ref > 0
      ensures k == NINODE && empty == NINODE ==> forall j :: 0 <= j < NINODE ==> slots[j].ref > 0
    {
      empty := NINODE;
      k := 0;
      while k < NINODE
        invariant k <= NINODE && empty <= NINODE
        invariant forall j :: 0 <= j < k ==> !(slots[j].ref > 0 && slots[j].inum == inum)
        invariant empty < NINODE ==> slots[empty].ref == 0 && forall j :: 0 <= j < empty ==> slots[j].ref > 0
        invariant empty == NINODE ==> forall j :: 0 <= j < k ==> slots[j].ref > 0
      {
        if slots[k].ref > 0 && slots[k].inum == inum {
          return;
        }
        if empty == NINODE && slots[k].ref == 0 {
          empty := k;
        }
        k := k + 1;
      }
    }

    /** One more reference to a slot in use. */
    method Idup(k: nat)
      requires Valid() && k < NINODE && slots[k].ref > 0
      modifies slots
      ensures Valid() && Holds(slots[..], k, old(slots[k].inum))
      ensures OneRefMore(old(slots[..]), slots[..], slots[k].inum) && Kept(old(slots[..]), slots[..])
      ensures slots[k].valid == old(slots[k].valid) && forall j :: 0 <= j < NINODE && j != k ==> slots[j] == old(slots[j])
    {
      ghost var s := slots[..];
      Incremented(s, k, slots[k].(ref := slots[k].ref + 1));
      slots[k] := slots[k].(ref := slots[k].ref + 1);
      assert slots[..] == s[k := slots[k]];
    }

    /** Lock slot k's inode and have its contents; a free slot or an untyped inode makes the call panic. */
    method Ilock(fs: Fs, k: nat) returns (ip: Inode, panicked: bool)
      requires Valid() && k < NINODE && Sound(fs.sb, fs.disk, fs.owner) && fs.held == {} && slots[k].inum < fs.sb.ninodes
      modifies slots
      ensures Valid() && fresh(ip) && ip.inum == slots[k].inum == old(slots[k].inum) && fs.Ready(ip) && ip.Rec() == Inodes(fs.sb, fs.disk)[ip.inum]
      ensures panicked <==> old(slots[k].ref) < 1 || (!old(slots[k].valid) && ip.typ == 0)
      ensures slots[k].ref == old(slots[k].ref) && Kept(old(slots[..]), slots[..])
      ensures slots[k].valid == (old(slots[k].ref) >= 1 || old(slots[k].valid))
      ensures forall j :: 0 <= j < NINODE && j != k ==> slots[j] == old(slots[j])
      ensures forall i: nat :: Refs(slots[..], i) == old(Refs(slots[..], i))
    {
      ip := fs.Load(slots[k].inum);
      if slots[k].ref < 1 {
        return ip, true;
      }
      panicked := !slots[k].valid && ip.typ == 0;
      ghost var s := slots[..];
      Revalidated(s, k, slots[k].(valid := true));
      slots[k] := slots[k].(valid := true);
      assert slots[..] == s[k := slots[k]];
    }

    /** Would iput free the inode of slot k on disk? */
    ghost predicate Last(fs: Fs, k: nat)
      requires k < slots.Length && Sound(fs.sb, fs.disk, fs.owner) && slots[k].inum < fs.sb.ninodes
      reads slots, fs
    {
      slots[k].valid && slots[k].ref == 1 && Inodes(fs.sb, fs.disk)[slots[k].inum].nlink == 0
    }

    /**
     Drop a reference.  The last reference to an inode without links empties the inode and frees
     it, and no other file changes; otherwise the file system is left alone.
     */
    method Iput(fs: Fs, k: nat)
      requires Valid() && k < NINODE && slots[k].ref > 0
      requires Sound(fs.sb, fs.disk, fs.owner) && fs.held == {} && slots[k].inum < fs.sb.ninodes
      modifies slots, fs`disk, fs`owner, fs`held, fs`logged
      ensures Valid() && slots[k].inum == old(slots[k].inum) && slots[k].ref == old(slots[k].ref) - 1 && OneRefMore(slots[..], old(slots[..]), slots[k].inum)
      ensures slots[k].valid == (old(slots[k].valid) && !old(Last(fs, k)))
      ensures forall j :: 0 <= j < NINODE && j != k ==> slots[j] == old(slots[j])
      ensures Sound(fs.sb, fs.disk, fs.owner) && fs.held == {}
      ensures !old(Last(fs, k)) ==> fs.disk == old(fs.disk) && fs.owner == old(fs.owner) && fs.logged == old(fs.logged)
      ensures old(Last(fs, k)) ==>
        && Inodes(fs.sb, fs.disk)[slots[k].inum] == Emptied(old(Inodes(fs.sb, fs.disk)[slots[k].inum])).(typ := 0)
        && OthersSame(fs.sb, old(fs.disk), fs.disk, slots[k].inum) && AllLogged(old(fs.disk), old(fs.logged), fs.disk, fs.logged)
    {
      ghost var s := slots[..];
      var x := GetDinode(fs.sb, fs.disk, slots[k].inum);
      var valid := slots[k].valid;
      assert x == Inodes(fs.sb, fs.disk)[slots[k].inum];
      if valid && x.nlink == 0 && slots[k].ref == 1 {
        FreeInode(fs, slots[k].inum);
        valid := false;
      }
      Decremented(s, k, Slot(slots[k].inum, slots[k].ref - 1, valid));
      slots[k] := Slot(slots[k].inum, slots[k].ref - 1, valid);
      assert slots[..] == s[k := slots[k]];
    }

    /** itrunc, type 0, iupdate. */
    static method FreeInode(fs: Fs, inum: nat)
      requires Sound(fs.sb, fs.disk, fs.owner) && fs.held == {} && inum < fs.sb.ninodes
      modifies fs`disk, fs`owner, fs`held, fs`logged
      ensures Sound(fs.sb, fs.disk, fs.owner) && fs.held == {}
      ensures Inodes(fs.sb, fs.disk)[inum] == Emptied(old(Inodes(fs.sb, fs.disk)[inum])).(typ := 0)
      ensures OthersSame(fs.sb, old(fs.disk), fs.disk, inum) && AllLogged(old(fs.disk), old(fs.logged), fs.disk, fs.logged)
    {
      var ip := fs.Load(inum);
      fs.Itrunc(ip);
      ghost var d1, l1 := fs.disk, fs.logged;
      fs.Relabel(ip, 0, ip.nlink);
      AllLoggedTwice(old(fs.disk), old(fs.logged), d1, l1, fs.disk, fs.logged);
    }
  }
}
