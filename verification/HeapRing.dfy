/**
 The free list of umalloc.c as values.  Addresses count header-sized units.  A unit of memory
 holds one header's worth of data; `free` and `alloc` are the free and allocated blocks by the
 address of their header, and `home` says for every unit obtained from sbrk which block it
 belongs to, so blocks never overlap and no unit is lost.
 */
module HeapRing {
  import opened Sets

  datatype Header = Header(ptr: nat, size: nat)

  type Mem = map<nat, Header>

  /** q follows p in the ring: the least node above p, or base when there is none. */
  ghost predicate Next(base: nat, free: set<nat>, p: nat, q: nat) {
    if q > p then q in free && forall x :: x in free ==> x <= p || q <= x
    else q == base && forall x :: x in free ==> x <= p
  }

  /** `base` lies below the heap and ptr leads around the nodes in address order, wrapping once. */
  ghost predicate Ring(base: nat, mem: Mem, free: set<nat>) {
    && base in mem && mem[base].size == 0
    && (forall p :: p in free ==> base < p && p in mem && mem[p].size > 0)
    && (forall p {:trigger Leads(base, mem, free, p)} :: p in free || p == base ==> Leads(base, mem, free, p))
  }

  ghost predicate Leads(base: nat, mem: Mem, free: set<nat>, p: nat) {
    p in mem && Next(base, free, p, mem[p].ptr)
  }

  /** No two free blocks touch, except perhaps x and y and what follows them. */
  ghost predicate ApartBut(mem: Mem, free: set<nat>, x: nat, y: nat) {
    forall p {:trigger Touches(mem, free, p)} :: p in free && p != x && p != y ==> !Touches(mem, free, p)
  }

  /** Block p ends where a free block starts. */
  ghost predicate Touches(mem: Mem, free: set<nat>, p: nat) {
    p in mem && p + mem[p].size in free
  }

  /** Every unit of block b belongs to b. */
  ghost predicate Covers(mem: Mem, home: map<nat, nat>, b: nat) {
    b in mem && mem[b].size > 0 && forall u :: b <= u < b + mem[b].size ==> Belongs(home, u, b)
  }

  ghost predicate Belongs(home: map<nat, nat>, u: nat, b: nat) {
    u in home && home[u] == b
  }

  ghost predicate Inside(base: nat, mem: Mem, blocks: set<nat>, home: map<nat, nat>, u: nat)
    requires u in home
  {
    base < u && u in mem && home[u] in blocks && home[u] in mem && home[u] <= u < home[u] + mem[home[u]].size
  }

  /** The blocks tile the units in home. */
  ghost predicate Tiled(base: nat, mem: Mem, blocks: set<nat>, home: map<nat, nat>) {
    && (forall b :: b in blocks ==> Covers(mem, home, b))
    && (forall u :: u in home ==> Inside(base, mem, blocks, home, u))
  }

  ghost predicate Sizes(mem: Mem, alloc: map<nat, nat>) {
    forall b :: b in alloc ==> b in mem && mem[b].size == alloc[b]
  }

  /** The allocator's invariant, except that x and y may touch the free block above them. */
  ghost predicate InvBut(base: nat, mem: Mem, free: set<nat>, alloc: map<nat, nat>, home: map<nat, nat>, x: nat,
      y: nat) {
    && base > 0 && Ring(base, mem, free) && ApartBut(mem, free, x, y) && free !! alloc.Keys
    && Tiled(base, mem, free + alloc.Keys, home) && Sizes(mem, alloc)
  }

  /** The allocator's invariant; base is not a block, so it touches nothing. */
  ghost predicate Inv(base: nat, mem: Mem, free: set<nat>, alloc: map<nat, nat>, home: map<nat, nat>) {
    InvBut(base, mem, free, alloc, home, base, base)
  }

  /** Units lo..lo+n now belong to block b. */
  ghost function Rehome(home: map<nat, nat>, lo: nat, n: nat, b: nat): map<nat, nat> {
    map u | u in home :: if lo <= u < lo + n then b else home[u]
  }

  predicate Within(u: nat, lo: nat, n: nat) {
    lo <= u < lo + n
  }

  ghost function Units(lo: nat, n: nat): set<nat> {
    set u | 0 <= u < lo + n && Within(u, lo, n)
  }

  ghost function NewHome(home: map<nat, nat>, lo: nat, n: nat): map<nat, nat> {
    map u | u in home.Keys + Units(lo, n) :: if lo <= u < lo + n then lo else home[u]
  }

  lemma StoredRing(base: nat, mem: Mem, free: set<nat>, u: nat, x: Header)
    requires Ring(base, mem, free) && u != base && u !in free
    ensures Ring(base, mem[u := x], free)
  {
    var m := mem[u := x];
    forall p | p in free || p == base ensures Leads(base, m, free, p) {
      assert Leads(base, mem, free, p);
      assert m[p] == mem[p];
    }
  }

  lemma StoredApart(base: nat, mem: Mem, free: set<nat>, u: nat, x: Header)
    requires ApartBut(mem, free, base, base) && u !in free
    ensures ApartBut(mem[u := x], free, base, base)
  {
    forall p | p in free && p != base ensures !Touches(mem[u := x], free, p) {
      assert !Touches(mem, free, p);
    }
  }

  lemma StoredTiled(base: nat, mem: Mem, blocks: set<nat>, home: map<nat, nat>, u: nat, x: Header)
    requires Tiled(base, mem, blocks, home) && u !in blocks && u in mem
    ensures Tiled(base, mem[u := x], blocks, home)
  {
    var m := mem[u := x];
    forall b | b in blocks ensures Covers(m, home, b) {
      assert Covers(mem, home, b);
    }
    forall v | v in home ensures Inside(base, m, blocks, home, v) {
      assert Inside(base, mem, blocks, home, v);
    }
  }

  /** A unit behind the header of its block is no header. */
  lemma NoHeader(base: nat, mem: Mem, blocks: set<nat>, home: map<nat, nat>, u: nat)
    requires Tiled(base, mem, blocks, home) && u in home && u != home[u]
    ensures u !in blocks && u != base && u in mem
  {
    assert Inside(base, mem, blocks, home, u);
    assert !Belongs(home, u, u);
    assert u in blocks ==> Covers(mem, home, u);
  }

  /** So what it holds does not matter. */
  lemma DataStored(base: nat, mem: Mem, free: set<nat>, alloc: map<nat, nat>, home: map<nat, nat>, u: nat, x: Header)
    requires Inv(base, mem, free, alloc, home) && u in home && u != home[u]
    ensures Inv(base, mem[u := x], free, alloc, home)
  {
    NoHeader(base, mem, free + alloc.Keys, home, u);
    StoredRing(base, mem, free, u, x);
    StoredApart(base, mem, free, u, x);
    StoredTiled(base, mem, free + alloc.Keys, home, u, x);
    assert Sizes(mem[u := x], alloc);
  }

  /** Where free's search stops: p is the last node below bp. */
  ghost predicate Before(base: nat, free: set<nat>, p: nat, bp: nat) {
    (p in free || p == base) && p < bp && forall x :: x in free ==> x <= p || bp <= x
  }

  lemma {:induction false} BeforeExists(base: nat, free: set<nat>, bp: nat) returns (p: nat)
    requires base < bp
    ensures Before(base, free, p, bp)
    decreases |free|
  {
    if exists x :: x in free && base < x < bp {
      var x :| x in free && base < x < bp;
      var rest := set y | y in free && y > x;
      assert rest <= free && x !in rest;
      Fewer(rest, free, x);
      p := BeforeExists(x, rest, bp);
      forall y | y in free ensures y <= p || bp <= y {
        assert y > x ==> y in rest;
      }
    } else {
      p := base;
    }
  }

  // ---------------------------------------------------------------- free

  /** Put block bp into the ring after p. */
  function Linked(mem: Mem, p: nat, bp: nat): (m: Mem)
    requires p in mem && bp in mem
  {
    var m := mem[bp := mem[bp].(ptr := mem[p].ptr)];
    m[p := m[p].(ptr := bp)]
  }

  lemma NextLinked(base: nat, free: set<nat>, p: nat, q: nat, bp: nat)
    requires Next(base, free, p, q) && Before(base, free, p, bp) && base < bp && bp !in free
    ensures Next(base, free + {bp}, p, bp) && Next(base, free + {bp}, bp, q)
  {
  }

  lemma NextOther(base: nat, free: set<nat>, p: nat, bp: nat, x: nat, y: nat)
    requires Before(base, free, p, bp) && base < bp && x != p && x in free + {base} && Next(base, free, x, y)
    requires forall z :: z in free ==> base < z
    ensures Next(base, free + {bp}, x, y)
  {
  }

  lemma LinkedRing(base: nat, mem: Mem, free: set<nat>, p: nat, bp: nat)
    requires Ring(base, mem, free) && bp !in free && base < bp && bp in mem && mem[bp].size > 0 && Before(base, free, p, bp)
    ensures Ring(base, Linked(mem, p, bp), free + {bp})
  {
    var m, f := Linked(mem, p, bp), free + {bp};
    assert Leads(base, mem, free, p);
    NextLinked(base, free, p, mem[p].ptr, bp);
    forall x | x in f || x == base ensures Leads(base, m, f, x) {
      assert x != bp ==> Leads(base, mem, free, x);
      if x != p && x != bp {
        NextOther(base, free, p, bp, x, mem[x].ptr);
      }
    }
  }

  lemma LinkedTiled(base: nat, mem: Mem, blocks: set<nat>, home: map<nat, nat>, p: nat, bp: nat)
    requires Tiled(base, mem, blocks, home) && p in mem && bp in mem
    ensures Tiled(base, Linked(mem, p, bp), blocks, home)
  {
    var m := Linked(mem, p, bp);
    forall b | b in blocks ensures Covers(m, home, b) {
      assert Covers(mem, home, b);
    }
    forall u | u in home ensures Inside(base, m, blocks, home, u) {
      assert Inside(base, mem, blocks, home, u);
    }
  }

  /** Join block b with the block q that follows it in the ring. */
  function Joined(mem: Mem, b: nat): (m: Mem)
    requires b in mem && mem[b].ptr in mem
  {
    mem[b := Header(mem[mem[b].ptr].ptr, mem[b].size + mem[mem[b].ptr].size)]
  }

  lemma NextJoined(base: nat, free: set<nat>, b: nat, q: nat, r: nat)
    requires Next(base, free, b, q) && Next(base, free, q, r) && base <= b < q
    requires forall z :: z in free ==> base < z
    ensures Next(base, free - {q}, b, r)
  {
  }

  lemma NextStays(base: nat, free: set<nat>, b: nat, q: nat, x: nat, y: nat)
    requires Next(base, free, b, q) && b in free && b < q && x != b && x in free + {base} && Next(base, free, x, y)
    requires forall z :: z in free ==> base < z
    ensures Next(base, free - {q}, x, y)
  {
  }

  lemma JoinedRing(base: nat, mem: Mem, free: set<nat>, b: nat)
    requires Ring(base, mem, free) && b in free && mem[b].ptr in free && b < mem[b].ptr
    ensures Ring(base, Joined(mem, b), free - {mem[b].ptr})
  {
    var q := mem[b].ptr;
    var m, f := Joined(mem, b), free - {q};
    assert Leads(base, mem, free, b) && Leads(base, mem, free, q);
    NextJoined(base, free, b, q, mem[q].ptr);
    forall x | x in f || x == base ensures Leads(base, m, f, x) {
      assert Leads(base, mem, free, x);
      if x != b {
        NextStays(base, free, b, q, x, mem[x].ptr);
      }
    }
  }

  lemma JoinedTiled(base: nat, mem: Mem, blocks: set<nat>, home: map<nat, nat>, b: nat)
    requires Tiled(base, mem, blocks, home) && b in blocks && mem[b].ptr in blocks && b + mem[b].size == mem[b].ptr
    ensures Tiled(base, Joined(mem, b), blocks - {mem[b].ptr}, Rehome(home, mem[b].ptr, mem[mem[b].ptr].size, b))
  {
    var q := mem[b].ptr;
    var m, bs, h := Joined(mem, b), blocks - {q}, Rehome(home, q, mem[q].size, b);
    assert Covers(mem, home, b) && Covers(mem, home, q);
    forall c | c in bs ensures Covers(m, h, c) {
      assert Covers(mem, home, c);
      forall u | c <= u < c + m[c].size ensures Belongs(h, u, c) {
        assert q <= u < q + mem[q].size ==> Belongs(home, u, q);
        assert u < q || c != b ==> Belongs(home, u, c);
      }
    }
    forall u | u in h ensures Inside(base, m, bs, h, u) {
      assert Inside(base, mem, blocks, home, u);
      assert q <= u < q + mem[q].size ==> Belongs(home, u, q);
    }
  }

  /** Blocks do not overlap. */
  lemma Disjoint(mem: Mem, home: map<nat, nat>, b: nat, c: nat)
    requires Covers(mem, home, b) && Covers(mem, home, c) && b <= c < b + mem[b].size
    ensures b == c
  {
    assert Belongs(home, c, b) && Belongs(home, c, c);
  }

  /** The free block that ends where bp starts can only be the node before bp. */
  lemma TouchingIsBefore(base: nat, mem: Mem, free: set<nat>, blocks: set<nat>, home: map<nat, nat>, p: nat,
      bp: nat, x: nat)
    requires Ring(base, mem, free) && free <= blocks && Tiled(base, mem, blocks, home)
    requires Before(base, free, p, bp) && x in free && x + mem[x].size == bp
    ensures x == p
  {
    if p in free && x <= p {
      Disjoint(mem, home, x, p);
    }
  }

  /** Units of other allocated blocks keep their block; the rest belong to free blocks. */
  ghost predicate OnlyFreed(free: set<nat>, alloc: map<nat, nat>, home: map<nat, nat>, home': map<nat, nat>) {
    && home'.Keys == home.Keys
    && forall u :: u in home ==> if home[u] in alloc then home'[u] == home[u] else home'[u] in free
  }

  lemma LinkStep(base: nat, mem: Mem, free: set<nat>, alloc: map<nat, nat>, home: map<nat, nat>, p: nat, bp: nat)
    requires Inv(base, mem, free, alloc, home) && bp in alloc && Before(base, free, p, bp) && base < bp
    ensures InvBut(base, Linked(mem, p, bp), free + {bp}, alloc - {bp}, home, p, bp)
  {
    assert Covers(mem, home, bp);
    LinkedRing(base, mem, free, p, bp);
    assert free + alloc.Keys == (free + {bp}) + (alloc - {bp}).Keys;
    LinkedTiled(base, mem, free + alloc.Keys, home, p, bp);
    var m := Linked(mem, p, bp);
    forall x | x in free && x != p && x != bp ensures !Touches(m, free + {bp}, x) {
      assert !Touches(mem, free, x);
      if x + mem[x].size == bp {
        TouchingIsBefore(base, mem, free, free + alloc.Keys, home, p, bp, x);
      }
    }
  }

  /** Joining x to the block it touches leaves only y as a possible exception. */
  lemma JoinStep(base: nat, mem: Mem, free: set<nat>, alloc: map<nat, nat>, home: map<nat, nat>, x: nat, y: nat)
    requires InvBut(base, mem, free, alloc, home, x, y) && x in free && x + mem[x].size == mem[x].ptr && x != y && y != mem[x].ptr && mem[x].ptr in free
    ensures InvBut(base, Joined(mem, x), free - {mem[x].ptr}, alloc, Rehome(home, mem[x].ptr, mem[mem[x].ptr].size, x), y, base)
  {
    var q := mem[x].ptr;
    JoinedRing(base, mem, free, x);
    var m := Joined(mem, x);
    forall z | z in free - {q} && z != y ensures !Touches(m, free - {q}, z) {
      assert !Touches(mem, free, if z == x then q else z);
    }
    JoinedTiled(base, mem, free + alloc.Keys, home, x);
    assert (free - {q}) + alloc.Keys == (free + alloc.Keys) - {q};
  }

  /** The free block that starts where x ends is x's successor in the ring. */
  lemma TouchingIsNext(base: nat, mem: Mem, free: set<nat>, home: map<nat, nat>, x: nat, y: nat)
    requires Ring(base, mem, free) && x in free && y in free && x + mem[x].size == y
    requires forall b :: b in free ==> Covers(mem, home, b)
    ensures mem[x].ptr == y
  {
    var q := mem[x].ptr;
    assert Leads(base, mem, free, x);
    if q < y {
      Disjoint(mem, home, x, q);
    }
  }

  lemma NoTouch(base: nat, mem: Mem, free: set<nat>, alloc: map<nat, nat>, home: map<nat, nat>, x: nat, y: nat)
    requires InvBut(base, mem, free, alloc, home, x, y) && x in free && x + mem[x].size != mem[x].ptr
    ensures InvBut(base, mem, free, alloc, home, y, base)
  {
    assert !Touches(mem, free, x) by {
      if Touches(mem, free, x) {
        TouchingIsNext(base, mem, free, home, x, x + mem[x].size);
      }
    }
  }

  /** Join x to its successor if they touch. */
  function Settled(mem: Mem, x: nat): (m: Mem)
    requires x in mem
  {
    if x + mem[x].size == mem[x].ptr && mem[x].ptr in mem then Joined(mem, x) else mem
  }

  lemma Settle(base: nat, mem: Mem, free: set<nat>, alloc: map<nat, nat>, home: map<nat, nat>, x: nat, y: nat)
    returns (free': set<nat>, home': map<nat, nat>)
    requires InvBut(base, mem, free, alloc, home, x, y) && x in free && y < x
    ensures InvBut(base, Settled(mem, x), free', alloc, home', y, base) && x in free' && (y in free ==> y in free')
    ensures free' == if x + mem[x].size == mem[x].ptr then free - {mem[x].ptr} else free
    ensures OnlyFreed(free', alloc, home, home')
  {
    free', home' := free, home;
    assert Leads(base, mem, free, x);
    if x + mem[x].size == mem[x].ptr {
      JoinStep(base, mem, free, alloc, home, x, y);
      free', home' := free - {mem[x].ptr}, Rehome(home, mem[x].ptr, mem[mem[x].ptr].size, x);
      JoinedOnly(base, mem, free, alloc, home, x);
    } else {
      NoTouch(base, mem, free, alloc, home, x, y);
      AllPlaced(base, mem, free, alloc, home);
    }
  }

  lemma AllPlaced(base: nat, mem: Mem, free: set<nat>, alloc: map<nat, nat>, home: map<nat, nat>)
    requires Tiled(base, mem, free + alloc.Keys, home)
    ensures OnlyFreed(free, alloc, home, home)
  {
    forall u | u in home && home[u] !in alloc ensures home[u] in free {
      assert Inside(base, mem, free + alloc.Keys, home, u);
    }
  }

  lemma JoinedOnly(base: nat, mem: Mem, free: set<nat>, alloc: map<nat, nat>, home: map<nat, nat>, x: nat)
    requires Tiled(base, mem, free + alloc.Keys, home) && free !! alloc.Keys
    requires x in free && x in mem && mem[x].ptr in free && mem[x].ptr in mem && x < mem[x].ptr
    ensures OnlyFreed(free - {mem[x].ptr}, alloc, home, Rehome(home, mem[x].ptr, mem[mem[x].ptr].size, x))
  {
    var q := mem[x].ptr;
    assert Covers(mem, home, q);
    forall u | u in home
      ensures if home[u] in alloc then !(q <= u < q + mem[q].size) else home[u] in free && (home[u] == q ==> q <= u < q + mem[q].size)
    {
      assert Inside(base, mem, free + alloc.Keys, home, u);
      assert q <= u < q + mem[q].size ==> Belongs(home, u, q);
    }
  }

  lemma OnlyFreedTrans(free: set<nat>, free': set<nat>, alloc: map<nat, nat>, h0: map<nat, nat>, h1: map<nat, nat>,
      h2: map<nat, nat>)
    requires OnlyFreed(free, alloc, h0, h1) && OnlyFreed(free', alloc, h1, h2) && free !! alloc.Keys
    ensures OnlyFreed(free', alloc, h0, h2)
  {
  }

  /** free's effect on the headers: bp goes after p and is joined to its neighbours where they touch. */
  function Freed(mem: Mem, p: nat, bp: nat): (m: Mem)
    requires p in mem && bp in mem && p != bp && mem[p].ptr in mem
  {
    var q := mem[p].ptr;
    var m := mem[bp := if bp + mem[bp].size == q then Header(mem[q].ptr, mem[bp].size + mem[q].size) else Header(q, mem[bp].size)];
    m[p := if p + m[p].size == bp then Header(m[bp].ptr, m[p].size + m[bp].size) else Header(bp, m[p].size)]
  }

  lemma FreedIsSettled(mem: Mem, p: nat, bp: nat)
    requires p in mem && bp in mem && p < bp && mem[p].ptr in mem && mem[p].ptr != bp
    requires bp + mem[bp].size == mem[p].ptr ==> mem[p].ptr != p
    ensures bp in Settled(Linked(mem, p, bp), bp) && p in Settled(Linked(mem, p, bp), bp)
    ensures Freed(mem, p, bp) == Settled(Settled(Linked(mem, p, bp), bp), p)
  {
  }

  /** What free leaves: the invariant, and no unit lost. */
  lemma FreedInv(base: nat, mem: Mem, free: set<nat>, alloc: map<nat, nat>, home: map<nat, nat>, p: nat, bp: nat)
    returns (free': set<nat>, home': map<nat, nat>)
    requires Inv(base, mem, free, alloc, home) && bp in alloc && Before(base, free, p, bp) && base < bp
    ensures p in mem && bp in mem && mem[p].ptr in mem
    ensures Inv(base, Freed(mem, p, bp), free', alloc - {bp}, home') && (p in free' || p == base)
    ensures OnlyFreed(free', alloc - {bp}, home, home')
    ensures var b := if p + mem[p].size == bp then p else bp; b in free' && Freed(mem, p, bp)[b].size >= mem[bp].size
  {
    assert Leads(base, mem, free, p) && Covers(mem, home, bp);
    var a := alloc - {bp};
    LinkStep(base, mem, free, alloc, home, p, bp);
    FreedIsSettled(mem, p, bp);
    var m1 := Linked(mem, p, bp);
    var f2, h2 := Settle(base, m1, free + {bp}, a, home, bp, p);
    var m2 := Settled(m1, bp);
    free', home' := f2, h2;
    if p != base {
      free', home' := Settle(base, m2, f2, a, h2, p, base);
      OnlyFreedTrans(f2, free', a, home, h2, home');
    }
  }

  /** free writes to no unit of a block that stays allocated. */
  lemma FreedFrame(base: nat, mem: Mem, free: set<nat>, alloc: map<nat, nat>, home: map<nat, nat>, p: nat, bp: nat,
      u: nat)
    requires Inv(base, mem, free, alloc, home) && bp in alloc && Before(base, free, p, bp) && base < bp
    requires u in home && home[u] in alloc - {bp}
    ensures p in mem && bp in mem && mem[p].ptr in mem && u in mem && Freed(mem, p, bp)[u] == mem[u]
  {
    assert Leads(base, mem, free, p) && Covers(mem, home, bp) && Belongs(home, bp, bp);
    assert Inside(base, mem, free + alloc.Keys, home, u);
    if p in free {
      assert Covers(mem, home, p) && Belongs(home, p, p);
    }
  }

  // ---------------------------------------------------------------- malloc

  /** Take block p, which follows prev, out of the ring. */
  function Unlinked(mem: Mem, prev: nat, p: nat): (m: Mem)
    requires prev in mem && p in mem
  {
    mem[prev := mem[prev].(ptr := mem[p].ptr)]
  }

  lemma NextUnlinked(base: nat, free: set<nat>, prev: nat, p: nat, r: nat)
    requires Next(base, free, prev, p) && Next(base, free, p, r) && p in free && (prev in free || prev == base)
    requires forall z :: z in free ==> base < z
    ensures Next(base, free - {p}, prev, r)
  {
  }

  lemma NextKept(base: nat, free: set<nat>, prev: nat, p: nat, x: nat, y: nat)
    requires Next(base, free, prev, p) && p in free && (prev in free || prev == base) && (x in free || x == base) && x != prev && x != p
    requires Next(base, free, x, y) && forall z :: z in free ==> base < z
    ensures Next(base, free - {p}, x, y)
  {
  }

  lemma UnlinkedRing(base: nat, mem: Mem, free: set<nat>, prev: nat, p: nat)
    requires Ring(base, mem, free) && p in free && (prev in free || prev == base) && prev in mem && mem[prev].ptr == p
    ensures Ring(base, Unlinked(mem, prev, p), free - {p})
  {
    var m, f := Unlinked(mem, prev, p), free - {p};
    assert Leads(base, mem, free, prev) && Leads(base, mem, free, p);
    NextUnlinked(base, free, prev, p, mem[p].ptr);
    forall x | x in f || x == base ensures Leads(base, m, f, x) {
      assert Leads(base, mem, free, x);
      if x != prev {
        NextKept(base, free, prev, p, x, mem[x].ptr);
      }
    }
  }

  /** Taking a whole block. */
  lemma TakeWhole(base: nat, mem: Mem, free: set<nat>, alloc: map<nat, nat>, home: map<nat, nat>, prev: nat, p: nat)
    requires Inv(base, mem, free, alloc, home) && p in free && (prev in free || prev == base) && mem[prev].ptr == p
    ensures Inv(base, Unlinked(mem, prev, p), free - {p}, alloc[p := mem[p].size], home)
  {
    var m, f, a := Unlinked(mem, prev, p), free - {p}, alloc[p := mem[p].size];
    UnlinkedRing(base, mem, free, prev, p);
    assert f + a.Keys == free + alloc.Keys;
    SameSizes(base, mem, m, free + alloc.Keys, home);
    forall x | x in f && x != base ensures !Touches(m, f, x) {
      assert !Touches(mem, free, x);
    }
  }

  lemma SameSizes(base: nat, mem: Mem, m: Mem, blocks: set<nat>, home: map<nat, nat>)
    requires Tiled(base, mem, blocks, home) && mem.Keys <= m.Keys
    requires forall b :: b in mem && b in blocks ==> m[b].size == mem[b].size
    ensures Tiled(base, m, blocks, home)
  {
    forall b | b in blocks ensures Covers(m, home, b) {
      assert Covers(mem, home, b);
    }
    forall u | u in home ensures Inside(base, m, blocks, home, u) {
      assert Inside(base, mem, blocks, home, u);
    }
  }

  /** Cut the last n units off block p. */
  function Cut(mem: Mem, p: nat, n: nat): (m: Mem)
    requires p in mem && 0 < n < mem[p].size && p + mem[p].size - n in mem
  {
    var t := p + mem[p].size - n;
    var m := mem[p := mem[p].(size := mem[p].size - n)];
    m[t := m[t].(size := n)]
  }

  lemma CutTiled(base: nat, mem: Mem, blocks: set<nat>, home: map<nat, nat>, p: nat, n: nat, t: nat)
    requires Tiled(base, mem, blocks, home) && p in blocks && p in mem && 0 < n < mem[p].size && t == p + mem[p].size - n && t in mem
    ensures Tiled(base, Cut(mem, p, n), blocks + {t}, Rehome(home, t, n, t)) && t !in blocks
  {
    var m, bs, h := Cut(mem, p, n), blocks + {t}, Rehome(home, t, n, t);
    assert Covers(mem, home, p);
    assert t !in blocks by {
      if t in blocks {
        Disjoint(mem, home, p, t);
      }
    }
    forall u | t <= u < t + n ensures Belongs(home, u, p) {
    }
    forall c | c in bs ensures Covers(m, h, c) {
      if c != t {
        assert Covers(mem, home, c);
        forall u: nat | c <= u < c + m[c].size ensures Belongs(h, u, c) {
          assert Belongs(home, u, c);
          assert t <= u < t + n ==> Belongs(home, u, p);
        }
      } else {
        forall u | t <= u < t + n ensures Belongs(h, u, t) {
          assert Belongs(home, u, p);
        }
      }
    }
    forall u | u in h ensures Inside(base, m, bs, h, u) {
      assert Inside(base, mem, blocks, home, u);
    }
  }

  lemma CutRing(base: nat, mem: Mem, free: set<nat>, p: nat, n: nat, t: nat)
    requires Ring(base, mem, free) && p in free && 0 < n < mem[p].size && t == p + mem[p].size - n && t in mem && t !in free && t != base
    ensures Ring(base, Cut(mem, p, n), free)
  {
    var m := Cut(mem, p, n);
    forall x | x in free || x == base ensures Leads(base, m, free, x) {
      assert Leads(base, mem, free, x);
    }
  }

  lemma CutApart(base: nat, mem: Mem, m: Mem, free: set<nat>, p: nat, n: nat)
    requires ApartBut(mem, free, base, base) && p in free && p in mem && p in m && n < mem[p].size && m[p].size == mem[p].size - n
    requires forall b :: b in free && b != p ==> b in m && b in mem && m[b] == mem[b]
    requires p + m[p].size !in free
    ensures ApartBut(m, free, base, base)
  {
    forall x | x in free && x != base ensures !Touches(m, free, x) {
      assert !Touches(mem, free, x);
    }
  }

  /** Taking the tail of a larger block. */
  lemma TakeTail(base: nat, mem: Mem, free: set<nat>, alloc: map<nat, nat>, home: map<nat, nat>, p: nat, n: nat, t: nat)
    requires Inv(base, mem, free, alloc, home) && p in free && 0 < n < mem[p].size && t == p + mem[p].size - n
    ensures t in mem && t !in alloc && t in home && home[t] == p
    ensures Inv(base, Cut(mem, p, n), free, alloc[t := n], Rehome(home, t, n, t))
  {
    var blocks := free + alloc.Keys;
    assert Covers(mem, home, p) && Belongs(home, t, p);
    assert Inside(base, mem, blocks, home, t);
    CutTiled(base, mem, blocks, home, p, n, t);
    CutRing(base, mem, free, p, n, t);
    TailTaken(base, mem, Cut(mem, p, n), free, alloc, home, Rehome(home, t, n, t), p, n, t);
  }

  lemma TailTaken(base: nat, mem: Mem, m: Mem, free: set<nat>, alloc: map<nat, nat>, home: map<nat, nat>,
      h: map<nat, nat>, p: nat, n: nat, t: nat)
    requires Inv(base, mem, free, alloc, home) && p in free && 0 < n < mem[p].size && t == p + mem[p].size - n
    requires Ring(base, m, free) && Tiled(base, m, (free + alloc.Keys) + {t}, h) && t !in free + alloc.Keys
    requires t in m && m[t].size == n && m[p].size == mem[p].size - n
    requires forall b :: b in free + alloc.Keys && b != p ==> b in m && b in mem && m[b] == mem[b]
    ensures Inv(base, m, free, alloc[t := n], h)
  {
    assert free + alloc[t := n].Keys == (free + alloc.Keys) + {t};
    CutApart(base, mem, m, free, p, n);
  }

  /** No unit of an allocated block is a ring node or lies in a free block. */
  lemma TakenFrame(base: nat, mem: Mem, free: set<nat>, alloc: map<nat, nat>, home: map<nat, nat>, x: nat, u: nat)
    requires Inv(base, mem, free, alloc, home) && u in home && home[u] in alloc
    requires x in free || x == base || (x in home && home[x] in free)
    ensures u in mem && u != x
  {
    assert Inside(base, mem, free + alloc.Keys, home, u);
    if x in free {
      assert Covers(mem, home, x) && Belongs(home, x, x);
    }
  }

  lemma TailFrame(base: nat, mem: Mem, free: set<nat>, alloc: map<nat, nat>, home: map<nat, nat>, p: nat, n: nat,
      t: nat, u: nat)
    requires Inv(base, mem, free, alloc, home) && p in free && 0 < n < mem[p].size && t == p + mem[p].size - n && t in mem
    requires u in home && home[u] in alloc
    ensures u in mem && Cut(mem, p, n)[u] == mem[u] && Rehome(home, t, n, t)[u] == home[u]
  {
    TakenFrame(base, mem, free, alloc, home, p, u);
    assert Covers(mem, home, p) && (p <= u < p + mem[p].size ==> Belongs(home, u, p));
  }

  /** Unit u belongs to the same block as before and holds the same data. */
  ghost predicate UnitKept(home: map<nat, nat>, mem: Mem, home': map<nat, nat>, mem': Mem, u: nat)
    requires u in home
  {
    u in home' && home'[u] == home[u] && u in mem && u in mem' && mem'[u] == mem[u]
  }

  /** So it is with all units of the blocks a. */
  ghost predicate UnitsKept(a: set<nat>, home: map<nat, nat>, mem: Mem, home': map<nat, nat>, mem': Mem) {
    forall u {:trigger UnitKept(home, mem, home', mem', u)} :: u in home && home[u] in a ==> UnitKept(home, mem, home', mem', u)
  }

  lemma UnitsTrans(a: set<nat>, home: map<nat, nat>, mem: Mem, home1: map<nat, nat>, mem1: Mem, home2: map<nat, nat>, mem2: Mem)
    requires UnitsKept(a, home, mem, home1, mem1) && UnitsKept(a, home1, mem1, home2, mem2)
    ensures UnitsKept(a, home, mem, home2, mem2)
  {
    forall u | u in home && home[u] in a ensures UnitKept(home, mem, home2, mem2, u) {
      assert UnitKept(home, mem, home1, mem1, u);
      assert UnitKept(home1, mem1, home2, mem2, u);
    }
  }

  lemma TailKept(base: nat, mem: Mem, free: set<nat>, alloc: map<nat, nat>, home: map<nat, nat>, p: nat, n: nat, t: nat)
    requires Inv(base, mem, free, alloc, home) && p in free && 0 < n < mem[p].size && t == p + mem[p].size - n && t in mem
    ensures UnitsKept(alloc.Keys, home, mem, Rehome(home, t, n, t), Cut(mem, p, n))
  {
    var h, m := Rehome(home, t, n, t), Cut(mem, p, n);
    forall u | u in home && home[u] in alloc.Keys ensures UnitKept(home, mem, h, m, u) {
      TailFrame(base, mem, free, alloc, home, p, n, t, u);
    }
  }

  /** Cutting the tail off a block, with all that follows from it. */
  lemma TailDone(base: nat, mem: Mem, free: set<nat>, alloc: map<nat, nat>, home: map<nat, nat>, p: nat, n: nat, t: nat)
      returns (m: Mem, h: map<nat, nat>)
    requires Inv(base, mem, free, alloc, home) && p in free && 0 < n < mem[p].size && t == p + mem[p].size - n
    ensures t in mem && t !in alloc && h.Keys == home.Keys && m == Cut(mem, p, n)
    ensures Inv(base, m, free, alloc[t := n], h) && UnitsKept(alloc.Keys, home, mem, h, m)
  {
    TakeTail(base, mem, free, alloc, home, p, n, t);
    TailKept(base, mem, free, alloc, home, p, n, t);
    m, h := Cut(mem, p, n), Rehome(home, t, n, t);
  }

  lemma WholeKept(base: nat, mem: Mem, free: set<nat>, alloc: map<nat, nat>, home: map<nat, nat>, prevp: nat, h: Header)
    requires Inv(base, mem, free, alloc, home) && (prevp in free || prevp == base)
    ensures UnitsKept(alloc.Keys, home, mem, home, mem[prevp := h])
  {
    var m := mem[prevp := h];
    forall u | u in home && home[u] in alloc.Keys ensures UnitKept(home, mem, home, m, u) {
      TakenFrame(base, mem, free, alloc, home, prevp, u);
    }
  }

  lemma FreedKept(base: nat, mem: Mem, free: set<nat>, alloc: map<nat, nat>, home: map<nat, nat>, home': map<nat, nat>, p: nat, bp: nat,
      free': set<nat>)
    requires Inv(base, mem, free, alloc, home) && bp in alloc && Before(base, free, p, bp) && base < bp
    requires OnlyFreed(free', alloc - {bp}, home, home')
    ensures p in mem && bp in mem && mem[p].ptr in mem && UnitsKept((alloc - {bp}).Keys, home, mem, home', Freed(mem, p, bp))
  {
    FreedLinks(base, mem, free, alloc, home, p, bp);
    var m := Freed(mem, p, bp);
    forall u | u in home && home[u] in (alloc - {bp}).Keys ensures UnitKept(home, mem, home', m, u) {
      FreedFrame(base, mem, free, alloc, home, p, bp, u);
    }
  }

  lemma FreedLinks(base: nat, mem: Mem, free: set<nat>, alloc: map<nat, nat>, home: map<nat, nat>, p: nat, bp: nat)
    requires Inv(base, mem, free, alloc, home) && bp in alloc && Before(base, free, p, bp)
    ensures p in mem && bp in mem && p != bp && mem[p].ptr in mem && mem[p].ptr != bp
  {
    assert Leads(base, mem, free, p) && Covers(mem, home, bp);
  }

  lemma CoreKept(base: nat, mem: Mem, free: set<nat>, alloc: map<nat, nat>, home: map<nat, nat>, hp: nat, n: nat)
    requires Inv(base, mem, free, alloc, home) && Units(hp, n) !! home.Keys
    ensures UnitsKept(alloc.Keys, home, mem, NewHome(home, hp, n), WithCore(mem, hp, n))
  {
    var h, m := NewHome(home, hp, n), WithCore(mem, hp, n);
    forall u | u in home && home[u] in alloc.Keys ensures UnitKept(home, mem, h, m, u) {
      assert Inside(base, mem, free + alloc.Keys, home, u);
      CoreKeeps(mem, home, hp, n, u);
    }
  }

  // ---------------------------------------------------------------- morecore

  /** Fresh memory from sbrk, with its first header filled in. */
  function WithCore(mem: Mem, hp: nat, n: nat): (m: Mem) {
    mem + (map u | 0 <= u < hp + n && Within(u, hp, n) :: if u == hp then Header(0, n) else Header(0, 0))
  }

  lemma CoreKeeps(mem: Mem, home: map<nat, nat>, hp: nat, n: nat, u: nat)
    requires Units(hp, n) !! home.Keys && u in home && u in mem
    ensures u in WithCore(mem, hp, n) && WithCore(mem, hp, n)[u] == mem[u] && NewHome(home, hp, n)[u] == home[u]
  {
    assert u !in Units(hp, n);
  }

  lemma CoreTiled(base: nat, mem: Mem, blocks: set<nat>, home: map<nat, nat>, hp: nat, n: nat)
    requires Tiled(base, mem, blocks, home) && n > 0 && base < hp && Units(hp, n) !! home.Keys
    ensures Tiled(base, WithCore(mem, hp, n), blocks + {hp}, NewHome(home, hp, n)) && hp !in blocks
    ensures forall b :: b in blocks ==> b in mem && WithCore(mem, hp, n)[b] == mem[b]
  {
    var m, h := WithCore(mem, hp, n), NewHome(home, hp, n);
    forall b | b in blocks ensures Covers(m, h, b) && b in mem && m[b] == mem[b] && b != hp {
      assert Covers(mem, home, b) && Belongs(home, b, b);
      CoreKeeps(mem, home, hp, n, b);
      assert hp in Units(hp, n);
      forall u | b <= u < b + m[b].size ensures Belongs(h, u, b) {
        assert Belongs(home, u, b);
        assert Inside(base, mem, blocks, home, u);
        CoreKeeps(mem, home, hp, n, u);
      }
    }
    forall u | hp <= u < hp + n ensures Belongs(h, u, hp) {
      assert u in Units(hp, n);
    }
    forall u | u in h ensures Inside(base, m, blocks + {hp}, h, u) {
      if u in home {
        assert Inside(base, mem, blocks, home, u);
        CoreKeeps(mem, home, hp, n, u);
      }
    }
  }

  /** New memory enters as an allocated block, which morecore then frees. */
  lemma CoreAdded(base: nat, mem: Mem, free: set<nat>, alloc: map<nat, nat>, home: map<nat, nat>, hp: nat, n: nat)
    requires Inv(base, mem, free, alloc, home) && n > 0 && base < hp && Units(hp, n) !! home.Keys
    ensures Inv(base, WithCore(mem, hp, n), free, alloc[hp := n], NewHome(home, hp, n)) && hp !in alloc
  {
    CoreTiled(base, mem, free + alloc.Keys, home, hp, n);
    BlockAdded(base, mem, WithCore(mem, hp, n), free, alloc, home, NewHome(home, hp, n), hp, n);
  }

  lemma BlockAdded(base: nat, mem: Mem, m: Mem, free: set<nat>, alloc: map<nat, nat>, home: map<nat, nat>,
      h: map<nat, nat>, hp: nat, n: nat)
    requires Inv(base, mem, free, alloc, home) && Tiled(base, m, (free + alloc.Keys) + {hp}, h) && hp !in free + alloc.Keys
    requires base in m && m[base] == mem[base] && hp in m && m[hp].size == n
    requires forall b :: b in free + alloc.Keys ==> b in m && b in mem && m[b] == mem[b]
    ensures Inv(base, m, free, alloc[hp := n], h)
  {
    assert free + alloc[hp := n].Keys == (free + alloc.Keys) + {hp};
    CoreRing(base, mem, m, free);
    SameApart(base, mem, m, free);
  }

  lemma SameApart(base: nat, mem: Mem, m: Mem, free: set<nat>)
    requires ApartBut(mem, free, base, base) && forall b :: b in free ==> b in m && b in mem && m[b] == mem[b]
    ensures ApartBut(m, free, base, base)
  {
    forall x | x in free && x != base ensures !Touches(m, free, x) {
      assert !Touches(mem, free, x);
    }
  }

  lemma CoreRing(base: nat, mem: Mem, m: Mem, free: set<nat>)
    requires Ring(base, mem, free) && base in m && m[base] == mem[base] && forall b :: b in free ==> b in m && m[b] == mem[b]
    ensures Ring(base, m, free)
  {
    forall x | x in free || x == base ensures Leads(base, m, free, x) {
      assert Leads(base, mem, free, x);
    }
  }

  // ---------------------------------------------------------------- walking the ring

  /** x lies strictly between f and p going round the ring upwards from f. */
  ghost predicate Passed(f: nat, p: nat, x: nat) {
    if f < p then f < x < p else f < x || x < p
  }

  /** Going from p to its successor passes p and nothing else. */
  lemma PassedNext(base: nat, free: set<nat>, f: nat, p: nat, q: nat, x: nat)
    requires Next(base, free, p, q) && (p in free || p == base) && (x in free || x == base)
    requires (f in free || f == base) && p != f && (forall z :: z in free ==> base < z) && Passed(f, q, x)
    ensures Passed(f, p, x) || x == p
  {
  }

  /** Everything but f is passed once the walk is back at f. */
  lemma PassedAll(f: nat, x: nat)
    ensures Passed(f, f, x) || x == f
  {
  }

  /** How far a walk at p still is from t, in a ring below top. */
  ghost function Distance(t: nat, p: nat, top: nat): int {
    if p <= t then t - p else top + 1 + (top - p)
  }

  lemma Closer(base: nat, free: set<nat>, t: nat, p: nat, q: nat, top: nat)
    requires Next(base, free, p, q) && p != t && (t in free || t == base) && (p in free || p == base)
    requires (forall z :: z in free ==> base < z <= top) && base <= top
    ensures 0 <= Distance(t, q, top) < Distance(t, p, top)
  {
  }

  lemma {:induction false} Top(base: nat, free: set<nat>) returns (top: nat)
    ensures base <= top && forall z :: z in free ==> z <= top
    decreases |free|
  {
    if free == {} {
      top := base;
    } else {
      var x :| x in free;
      top := Top(base, free - {x});
      top := if x > top then x else top;
      forall z | z in free ensures z <= top {
        assert z == x || z in free - {x};
      }
    }
  }

  // ---------------------------------------------------------------- what the invariant means

  /** Follow ptr k times. */
  ghost function Follow(mem: Mem, p: nat, k: nat): nat
    decreases k
  {
    if k == 0 || p !in mem then p else Follow(mem, mem[p].ptr, k - 1)
  }

  lemma {:induction false} FollowOneMore(mem: Mem, p: nat, k: nat)
    requires Follow(mem, p, k) in mem
    ensures Follow(mem, p, k + 1) == mem[Follow(mem, p, k)].ptr
    decreases k
  {
    if k > 0 && p in mem {
      FollowOneMore(mem, mem[p].ptr, k - 1);
    }
  }

  /** Following ptr from base visits every free block: the list is one ring. */
  lemma {:induction false} OneRing(base: nat, mem: Mem, free: set<nat>, x: nat) returns (k: nat)
    requires Ring(base, mem, free) && (x in free || x == base)
    ensures Follow(mem, base, k) == x
    decreases x
  {
    if x == base {
      k := 0;
    } else {
      var y := BeforeExists(base, free, x);
      var j := OneRing(base, mem, free, y);
      assert Leads(base, mem, free, y);
      FollowOneMore(mem, base, j);
      k := j + 1;
    }
  }

  /** The ring wraps once: only the highest node leads down, and it leads to base. */
  lemma WrapsOnce(base: nat, mem: Mem, free: set<nat>, p: nat)
    requires Ring(base, mem, free) && (p in free || p == base)
    ensures mem[p].ptr <= p <==> forall x :: x in free ==> x <= p
    ensures mem[p].ptr <= p ==> mem[p].ptr == base
  {
    assert Leads(base, mem, free, p);
  }

  /** Distinct blocks, free or allocated, share no unit, and free blocks never touch. */
  lemma BlocksApart(base: nat, mem: Mem, free: set<nat>, alloc: map<nat, nat>, home: map<nat, nat>, b: nat, c: nat)
    requires Inv(base, mem, free, alloc, home) && b in free + alloc.Keys && c in free + alloc.Keys && b < c
    ensures b + mem[b].size <= c && (b in free && c in free ==> b + mem[b].size < c)
  {
    assert Covers(mem, home, b) && Covers(mem, home, c);
    if c < b + mem[b].size {
      Disjoint(mem, home, b, c);
    }
    assert b in free ==> !Touches(mem, free, b);
  }
}
