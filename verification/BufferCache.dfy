/**
 The buffer cache (bio.c).  Buffers are numbered; number N is the list head.  Each method is one
 stretch under bcache.lock, or one use of a buffer by the process that holds its sleep lock.
 `latest` is what a reader of a block should see: the contents last handed to log_write or
 bwrite.  The disk is the one-step device of memide.c.
 */
module BufferCache {
  type Block = seq<int>

  datatype Id = Id(dev: nat, blockno: nat)

  /** The identity every buffer starts with. */
  const ZERO := Id(0, 0)

  // ---------------------------------------------------------------- the ring

  /** The node at position i, the head n standing before the first and after the last. */
  ghost function At(order: seq<nat>, n: nat, i: int): nat {
    if 0 <= i < |order| then order[i] else n
  }

  /** next and prev at the node in position i; position -1 is the head. */
  ghost predicate LinkOk(next: seq<nat>, prev: seq<nat>, n: nat, order: seq<nat>, i: int) {
    && At(order, n, i) < |next| == |prev|
    && next[At(order, n, i)] == At(order, n, i + 1)
    && prev[At(order, n, i)] == if i == -1 then At(order, n, |order| - 1) else At(order, n, i - 1)
  }

  ghost predicate Distinct(order: seq<nat>, n: nat) {
    && (forall i :: 0 <= i < |order| ==> order[i] < n)
    && (forall i, j :: 0 <= i < j < |order| ==> order[i] != order[j])
  }

  /** next and prev run through `order` and the head n, in both directions. */
  ghost predicate Ring(next: seq<nat>, prev: seq<nat>, n: nat, order: seq<nat>) {
    && |next| == |prev| == n + 1 && Distinct(order, n)
    && forall i {:trigger LinkOk(next, prev, n, order, i)} :: -1 <= i < |order| ==> LinkOk(next, prev, n, order, i)
  }

  ghost function Without(order: seq<nat>, k: nat): (r: seq<nat>)
    requires k < |order|
    ensures |r| == |order| - 1 && forall i :: 0 <= i < |r| ==> r[i] == order[if i < k then i else i + 1]
  {
    order[..k] + order[k + 1..]
  }

  lemma UnlinkAt(next: seq<nat>, prev: seq<nat>, n: nat, order: seq<nat>, k: nat, i: int)
    requires Ring(next, prev, n, order) && k < |order| && -1 <= i < |order| - 1
    ensures var b := order[k]; b <= n && next[b] <= n && prev[b] <= n
    ensures var b := order[k]; LinkOk(next[prev[b] := next[b]], prev[next[b] := prev[b]], n, Without(order, k), i)
  {
    var j := if i < k then i else i + 1;
    assert LinkOk(next, prev, n, order, k) && LinkOk(next, prev, n, order, j) && LinkOk(next, prev, n, order, -1);
  }

  /** Taking the buffer at position k out of the list. */
  lemma UnlinkRing(next: seq<nat>, prev: seq<nat>, n: nat, order: seq<nat>, k: nat)
    requires Ring(next, prev, n, order) && k < |order|
    ensures var b := order[k];
      && b <= n && next[b] <= n && prev[b] <= n
      && Ring(next[prev[b] := next[b]], prev[next[b] := prev[b]], n, Without(order, k)) && b !in Without(order, k)
  {
    var b, o := order[k], Without(order, k);
    assert LinkOk(next, prev, n, order, k);
    var next', prev' := next[prev[b] := next[b]], prev[next[b] := prev[b]];
    forall i | -1 <= i < |o| ensures LinkOk(next', prev', n, o, i) {
      UnlinkAt(next, prev, n, order, k, i);
    }
  }

  lemma InsertAt(next: seq<nat>, prev: seq<nat>, n: nat, order: seq<nat>, b: nat, i: int)
    requires Ring(next, prev, n, order) && b < n && b !in order && -1 <= i <= |order|
    ensures var f := next[n]; f <= n && LinkOk(next[b := f][n := b], prev[b := n][f := b], n, [b] + order, i)
  {
    assert LinkOk(next, prev, n, order, -1);
    if i > 0 {
      assert LinkOk(next, prev, n, order, i - 1);
    }
  }

  /** Putting buffer b in front. */
  lemma InsertRing(next: seq<nat>, prev: seq<nat>, n: nat, order: seq<nat>, b: nat)
    requires Ring(next, prev, n, order) && b < n && b !in order
    ensures var f := next[n];
      f <= n && Ring(next[b := f][n := b], prev[b := n][f := b], n, [b] + order)
  {
    var f := next[n];
    var o := [b] + order;
    InsertAt(next, prev, n, order, b, -1);
    var next', prev' := next[b := f][n := b], prev[b := n][f := b];
    forall i | -1 <= i < |o| ensures LinkOk(next', prev', n, o, i) {
      InsertAt(next, prev, n, order, b, i);
    }
  }

  /** Every buffer is in the ring once. */
  ghost predicate Complete(order: seq<nat>, n: nat) {
    |order| == n && forall b :: 0 <= b < n ==> b in order
  }

  // ---------------------------------------------------------------- contents

  datatype Buf = Buf(id: Id, valid: bool, dirty: bool, refcnt: nat, data: Block)

  /** Some dirty buffer holds block id. */
  ghost predicate Dirty(bufs: seq<Buf>, id: Id) {
    exists b :: 0 <= b < |bufs| && bufs[b].id == id && bufs[b].dirty
  }

  /** At most one buffer per block. */
  ghost predicate Unique(bufs: seq<Buf>) {
    forall b, c :: 0 <= b < c < |bufs| && bufs[b].id == bufs[c].id ==> bufs[b].id == ZERO
  }

  ghost predicate BufOk(x: Buf, latest: map<Id, Block>, locked: bool, modified: bool) {
    && (x.dirty || modified ==> x.valid) && (locked ==> x.refcnt > 0) && (modified ==> locked)
    && (x.valid && !modified && x.id != ZERO && x.id in latest ==> x.data == latest[x.id])
  }

  /** Valid buffers hold the latest contents, and where the disk does not a dirty buffer does. */
  ghost predicate Coherent(bufs: seq<Buf>, disk: map<Id, Block>, latest: map<Id, Block>, locked: set<nat>,
      modified: set<nat>) {
    && disk.Keys == latest.Keys && Unique(bufs)
    && (forall b :: 0 <= b < |bufs| ==> BufOk(bufs[b], latest, b in locked, b in modified))
    && (forall id :: id in disk && id != ZERO && disk[id] != latest[id] ==> Dirty(bufs, id))
  }

  /** A buffer that is not dirty has the block's latest contents on disk. */
  lemma CleanOnDisk(bufs: seq<Buf>, disk: map<Id, Block>, latest: map<Id, Block>, locked: set<nat>,
      modified: set<nat>, b: nat)
    requires Coherent(bufs, disk, latest, locked, modified) && b < |bufs| && !bufs[b].dirty && bufs[b].id != ZERO && bufs[b].id in disk
    ensures disk[bufs[b].id] == latest[bufs[b].id]
  {
  }

  /** A change of one buffer that keeps its block. */
  lemma BufChanged(bufs: seq<Buf>, disk: map<Id, Block>, latest: map<Id, Block>, locked: set<nat>,
      modified: set<nat>, b: nat,
                   x: Buf, locked': set<nat>, modified': set<nat>)
    requires Coherent(bufs, disk, latest, locked, modified) && b < |bufs| && x.id == bufs[b].id && (bufs[b].dirty ==> x.dirty)
    requires locked' - {b} == locked - {b} && modified' - {b} == modified - {b} && BufOk(x, latest, b in locked', b in modified')
    ensures Coherent(bufs[b := x], disk, latest, locked', modified')
  {
    var bs := bufs[b := x];
    forall c | 0 <= c < |bs| ensures BufOk(bs[c], latest, c in locked', c in modified') {
      assert c != b ==> (c in locked' <==> c in locked' - {b}) && (c in modified' <==> c in modified' - {b});
      assert c != b ==> (c in locked <==> c in locked - {b}) && (c in modified <==> c in modified - {b});
    }
    forall id | id in disk && id != ZERO && disk[id] != latest[id] ensures Dirty(bs, id) {
      var c :| 0 <= c < |bufs| && bufs[c].id == id && bufs[c].dirty;
      assert bs[c].id == id && bs[c].dirty;
    }
  }

  /** A clean unused buffer given to a block that had none. */
  lemma Recycled(bufs: seq<Buf>, disk: map<Id, Block>, latest: map<Id, Block>, locked: set<nat>,
      modified: set<nat>, b: nat, id: Id)
    requires Coherent(bufs, disk, latest, locked, modified) && b < |bufs| && bufs[b].refcnt == 0 && !bufs[b].dirty
    requires forall c :: 0 <= c < |bufs| ==> bufs[c].id != id
    ensures Coherent(bufs[b := Buf(id, false, false, 1, bufs[b].data)], disk, latest, locked, modified) && b !in locked && b !in modified
  {
    var bs := bufs[b := Buf(id, false, false, 1, bufs[b].data)];
    assert BufOk(bufs[b], latest, b in locked, b in modified);
    forall k | k in disk && k != ZERO && disk[k] != latest[k] ensures Dirty(bs, k) {
      var c :| 0 <= c < |bufs| && bufs[c].id == k && bufs[c].dirty;
      assert bs[c].id == k && bs[c].dirty;
    }
  }

  /** New contents for the block of buffer b, dirty in the cache or written to disk. */
  lemma Published(bufs: seq<Buf>, disk: map<Id, Block>, latest: map<Id, Block>, locked: set<nat>,
      modified: set<nat>, b: nat, toDisk: bool)
    requires Coherent(bufs, disk, latest, locked, modified) && b < |bufs| && b in locked && bufs[b].valid && bufs[b].id in disk && bufs[b].id != ZERO
    ensures var x := bufs[b];
      Coherent(bufs[b := x.(dirty := !toDisk)], if toDisk then disk[x.id := x.data] else disk, latest[x.id := x.data], locked, modified - {b})
  {
    var x := bufs[b];
    var bs, d, l := bufs[b := x.(dirty := !toDisk)], if toDisk then disk[x.id := x.data] else disk, latest[x.id := x.data];
    forall c | 0 <= c < |bs| ensures BufOk(bs[c], l, c in locked, c in modified - {b}) {
      assert BufOk(bufs[c], latest, c in locked, c in modified);
      assert c != b ==> bufs[c].id != x.id;
    }
    forall k | k in d && k != ZERO && d[k] != l[k] ensures Dirty(bs, k) {
      if k == x.id {
        assert bs[b].id == k && bs[b].dirty;
      } else {
        var c :| 0 <= c < |bufs| && bufs[c].id == k && bufs[c].dirty;
        assert bs[c].id == k && bs[c].dirty;
      }
    }
  }

  class Bcache {
    const n: nat
    const next: array<nat>
    const prev: array<nat>
    const bufs: array<Buf>
    var disk: map<Id, Block>
    ghost var order: seq<nat>
    ghost var latest: map<Id, Block>
    ghost var locked: set<nat>
    ghost var modified: set<nat>

    ghost predicate Links()
      reads this, next, prev
    {
      next != prev && next.Length == prev.Length == n + 1 && Ring(next[..], prev[..], n, order)
    }

    ghost predicate Contents()
      reads this, bufs
    {
      bufs.Length == n && Coherent(bufs[..], disk, latest, locked, modified)
    }

    ghost predicate Valid()
      reads this, next, prev, bufs
    {
      Links() && Complete(order, n) && Contents()
    }

    /** binit's loop body: put buffer b in front of the list. */
    method PushFront(b: nat)
      requires Links() && b < n && b !in order
      modifies next, prev, this`order
      ensures Links() && order == [b] + old(order)
    {
      InsertRing(next[..], prev[..], n, order, b);
      var f := next[n];
      next[b] := f;
      prev[b] := n;
      prev[f] := b;
      next[n] := b;
      order := [b] + order;
      assert next[..] == old(next[..])[b := f][n := b];
      assert prev[..] == old(prev[..])[b := n][f := b];
    }

    /** Take b, which stands at place k, out of the ring by joining its two neighbours. */
    method Unlink(b: nat, ghost k: nat)
      requires Links() && k < |order| && b == order[k]
      modifies next, prev, this`order
      ensures Links() && order == Without(old(order), k) && b !in order
    {
      UnlinkRing(next[..], prev[..], n, order, k);
      var q, p := next[b], prev[b];
      prev[q] := p;
      next[p] := q;
      order := Without(order, k);
      assert next[..] == old(next[..])[p := q];
      assert prev[..] == old(prev[..])[q := p];
    }

    constructor (n: nat, disk: map<Id, Block>)
      ensures Valid() && this.n == n && this.disk == disk && latest == disk && locked == {}
      ensures fresh(next) && fresh(prev) && fresh(bufs)
    {
      this.n, this.disk := n, disk;
      next := new nat[n + 1](_ => n);
      prev := new nat[n + 1](_ => n);
      bufs := new Buf[n](_ => Buf(ZERO, false, false, 0, []));
      order, latest, locked, modified := [], disk, {}, {};
      new;
      var b := 0;
      while b < n
        invariant 0 <= b <= n && Links() && |order| == b && forall c :: 0 <= c < n ==> (c in order <==> c < b)
        invariant Contents() && this.disk == disk && latest == disk && locked == {} && fresh(next) && fresh(prev) && fresh(bufs)
      {
        PushFront(b);
        b := b + 1;
      }
    }

    /** The first search of bget: the buffer caching id, n if there is none. */
    method Find(id: Id) returns (p: nat, ghost k: nat)
      requires Valid()
      ensures p <= n && (p < n ==> k < n && p == order[k] && bufs[p].id == id)
      ensures p == n ==> forall b :: 0 <= b < n ==> bufs[b].id != id
      ensures forall j :: 0 <= j < (if p < n then k else n) ==> bufs[order[j]].id != id
    {
      assert LinkOk(next[..], prev[..], n, order, -1);
      p, k := next[n], 0;
      while p != n
        invariant 0 <= k <= n && p == At(order, n, k)
        invariant forall j :: 0 <= j < k ==> bufs[order[j]].id != id
        decreases n - k
      {
        if bufs[p].id == id {
          return;
        }
        assert LinkOk(next[..], prev[..], n, order, k);
        p, k := next[p], k + 1;
      }
      forall b | 0 <= b < n ensures bufs[b].id != id {
        assert b in order;
      }
    }

    /** The second search of bget: the least recently used buffer that is unused and clean, n if there is none. */
    method FindUnused() returns (p: nat, ghost k: int)
      requires Valid()
      ensures p <= n && (p < n ==> 0 <= k < n && p == order[k] && bufs[p].refcnt == 0 && !bufs[p].dirty)
      ensures p == n ==> forall b :: 0 <= b < n ==> bufs[b].refcnt > 0 || bufs[b].dirty
      ensures p < n ==> forall j :: k < j < n ==> bufs[order[j]].refcnt > 0 || bufs[order[j]].dirty
    {
      assert LinkOk(next[..], prev[..], n, order, -1);
      p, k := prev[n], n - 1;
      while p != n
        invariant -1 <= k < n && p == At(order, n, k)
        invariant forall j :: k < j < n ==> bufs[order[j]].refcnt > 0 || bufs[order[j]].dirty
        decreases k
      {
        if bufs[p].refcnt == 0 && !bufs[p].dirty {
          return;
        }
        assert LinkOk(next[..], prev[..], n, order, k);
        p, k := prev[p], k - 1;
      }
      forall b | 0 <= b < n ensures bufs[b].refcnt > 0 || bufs[b].dirty {
        assert b in order;
      }
    }

    /** A reference to the buffer for id: the one there is, or the one, at place k, that has been out of use longest and is not dirty. */
    method Bget(id: Id) returns (b: nat, panicked: bool, ghost k: int)
      requires Valid()
      modifies bufs
      ensures Valid()
      ensures panicked ==> bufs[..] == old(bufs[..]) && forall c :: 0 <= c < n ==> bufs[c].id != id && (bufs[c].refcnt > 0 || bufs[c].dirty)
      ensures !panicked ==> b < n && bufs[b].id == id && bufs[..] == old(bufs[..])[b := bufs[b]]
      ensures !panicked && old(bufs[..])[b].id == id ==> bufs[b] == old(bufs[b]).(refcnt := old(bufs[b]).refcnt + 1)
      ensures !panicked && old(bufs[..])[b].id != id ==>
        && (forall c :: 0 <= c < n ==> old(bufs[c]).id != id)
        && old(bufs[b]).refcnt == 0 && !old(bufs[b]).dirty && bufs[b] == Buf(id, false, false, 1, old(bufs[b]).data)
        && 0 <= k < n && order[k] == b && forall j :: k < j < n ==> old(bufs[..])[order[j]].refcnt > 0 || old(bufs[..])[order[j]].dirty
    {
      panicked := false;
      b, k := Find(id);
      if b < n {
        var x := bufs[b].(refcnt := bufs[b].refcnt + 1);
        BufChanged(bufs[..], disk, latest, locked, modified, b, x, locked, modified);
        bufs[b] := x;
        assert bufs[..] == old(bufs[..])[b := x];
        return;
      }
      b, k := FindUnused();
      if b < n {
        Recycled(bufs[..], disk, latest, locked, modified, b, id);
        bufs[b] := Buf(id, false, false, 1, bufs[b].data);
        assert bufs[..] == old(bufs[..])[b := bufs[b]];
        return;
      }
      panicked := true;
    }

    /** Sync the buffer with the disk: write it if it is dirty, else read it. */
    method Iderw(b: nat)
      requires b < bufs.Length && bufs[b].id in disk && (bufs[b].valid ==> bufs[b].dirty)
      modifies bufs, this`disk
      ensures var x := old(bufs[b]);
        && disk == (if x.dirty then old(disk)[x.id := x.data] else old(disk))
        && bufs[..] == old(bufs[..])[b := x.(valid := true, dirty := false, data := if x.dirty then x.data else old(disk)[x.id])]
    {
      if bufs[b].dirty {
        bufs[b] := bufs[b].(dirty := false);
        disk := disk[bufs[b].id := bufs[b].data];
      } else {
        bufs[b] := bufs[b].(data := disk[bufs[b].id]);
      }
      bufs[b] := bufs[b].(valid := true);
    }

    /** The caller of bget gets the buffer's sleep lock. */
    ghost method Lock(b: nat)
      requires Valid() && b < n && bufs[b].refcnt > 0 && b !in locked
      modifies this`locked
      ensures Valid() && locked == old(locked) + {b}
    {
      BufChanged(bufs[..], disk, latest, locked, modified, b, bufs[b], locked + {b}, modified);
      assert bufs[..][b := bufs[b]] == bufs[..];
      locked := locked + {b};
    }

    /** The rest of bread: afterwards the buffer holds the block's latest contents. */
    method Load(b: nat)
      requires Valid() && b in locked && b < n && b !in modified && bufs[b].id in disk && bufs[b].id != ZERO
      modifies bufs, this`disk
      ensures Valid() && disk == old(disk) && bufs[b].id == old(bufs[b]).id && bufs[b].id in latest && bufs[b].valid && bufs[b].data == latest[bufs[b].id]
      ensures bufs[..] == old(bufs[..])[b := old(bufs[b]).(valid := true, data := latest[bufs[b].id])]
    {
      assert BufOk(bufs[b], latest, b in locked, b in modified);
      if !bufs[b].valid {
        CleanOnDisk(bufs[..], disk, latest, locked, modified, b);
        var x := bufs[b].(valid := true, data := disk[bufs[b].id]);
        BufChanged(bufs[..], disk, latest, locked, modified, b, x, locked, modified);
        Iderw(b);
      } else {
        assert bufs[..] == bufs[..][b := bufs[b]];
      }
    }

    /** The holder of a buffer changes its data. */
    method Modify(b: nat, data: Block)
      requires Valid() && b in locked && b < n && bufs[b].valid
      modifies bufs, this`modified
      ensures Valid() && modified == old(modified) + {b} && bufs[..] == old(bufs[..])[b := old(bufs[b]).(data := data)]
    {
      BufChanged(bufs[..], disk, latest, locked, modified, b, bufs[b].(data := data), locked, modified + {b});
      bufs[b] := bufs[b].(data := data);
      modified := modified + {b};
      assert bufs[..] == old(bufs[..])[b := bufs[b]];
    }

    /** log_write's effect on the buffer: it stays in the cache until it is committed. */
    method LogWrite(b: nat)
      requires Valid() && b in locked && b < n && bufs[b].valid && bufs[b].id in disk && bufs[b].id != ZERO
      modifies bufs, this`latest, this`modified
      ensures Valid() && modified == old(modified) - {b} && latest == old(latest)[bufs[b].id := bufs[b].data]
      ensures bufs[..] == old(bufs[..])[b := old(bufs[b]).(dirty := true)]
    {
      Published(bufs[..], disk, latest, locked, modified, b, false);
      bufs[b] := bufs[b].(dirty := true);
      latest, modified := latest[bufs[b].id := bufs[b].data], modified - {b};
      assert bufs[..] == old(bufs[..])[b := bufs[b]];
    }

    /** Write the buffer to disk. */
    method Bwrite(b: nat)
      requires Valid() && b in locked && b < n && bufs[b].valid && bufs[b].id in disk && bufs[b].id != ZERO
      modifies bufs, this`disk, this`latest, this`modified
      ensures Valid() && modified == old(modified) - {b} && latest == old(latest)[bufs[b].id := bufs[b].data]
      ensures disk == old(disk)[bufs[b].id := bufs[b].data] && bufs[..] == old(bufs[..])[b := old(bufs[b]).(dirty := false)]
    {
      Published(bufs[..], disk, latest, locked, modified, b, true);
      bufs[b] := bufs[b].(dirty := true);
      Iderw(b);
      latest, modified := latest[bufs[b].id := bufs[b].data], modified - {b};
      assert bufs[..] == old(bufs[..])[b := bufs[b]];
    }

    /** First half of brelse: give up the sleep lock, every change having been passed to log_write or bwrite. */
    ghost method Unlock(b: nat)
      requires Valid() && b in locked && b < n && b !in modified
      modifies this`locked
      ensures Valid() && locked == old(locked) - {b}
    {
      BufChanged(bufs[..], disk, latest, locked, modified, b, bufs[b], locked - {b}, modified);
      assert bufs[..][b := bufs[b]] == bufs[..];
      locked := locked - {b};
    }

    /** Second half of brelse: drop the reference; an unused buffer moves to the front of the ring. */
    method Put(b: nat)
      requires Valid() && b < n && bufs[b].refcnt > if b in locked then 1 else 0
      modifies bufs, next, prev, this`order
      ensures Valid() && bufs[..] == old(bufs[..])[b := old(bufs[b]).(refcnt := old(bufs[b]).refcnt - 1)]
      ensures bufs[b].refcnt > 0 ==> order == old(order)
      ensures bufs[b].refcnt == 0 ==> exists k :: 0 <= k < n && old(order)[k] == b && order == [b] + Without(old(order), k)
    {
      var x := bufs[b].(refcnt := bufs[b].refcnt - 1);
      BufChanged(bufs[..], disk, latest, locked, modified, b, x, locked, modified);
      bufs[b] := x;
      assert bufs[..] == old(bufs[..])[b := x];
      if bufs[b].refcnt == 0 {
        assert b in order;
        ghost var k :| 0 <= k < |order| && order[k] == b;
        ghost var order0 := order;
        Unlink(b, k);
        PushFront(b);
        MovedComplete(order0, n, k);
      }
    }
  }

  lemma MovedComplete(order: seq<nat>, n: nat, k: nat)
    requires Complete(order, n) && k < n
    ensures Complete([order[k]] + Without(order, k), n)
  {
    forall b | 0 <= b < n ensures b in [order[k]] + Without(order, k) {
      assert b in order;
      var j :| 0 <= j < n && order[j] == b;
      if j < k {
        assert Without(order, k)[j] == b;
      } else if j > k {
        assert Without(order, k)[j - 1] == b;
      }
    }
  }
}
