/** kalloc.c and vm.c: the physical page allocator and the page tables built from it. */
module Vm {
  import opened VmPages
  import opened PageCount

  const PTE_W := 2
  const PTE_U := 4

  const PGSIZE := 4096
  const KERNBASE := 0x8000_0000

  /** PGROUNDUP(sz) in pages. */
  function PagesUp(sz: nat): nat {
    (sz + PGSIZE - 1) / PGSIZE
  }

  lemma Below(i: nat, sz: nat)
    ensures i * PGSIZE < sz <==> i < PagesUp(sz)
  {
  }

  class Machine {
    const data: nat
    var mem: Mem
    var head: nat
    ghost var freelist: seq<nat>
    ghost var owner: Owners

    constructor (data: nat, mem: Mem, pool: set<nat>)
      requires forall p :: p in pool ==> 0 < p && p in mem && |mem[p]| == ENTRIES
      ensures Valid() && this.data == data && freelist == [] && owner == map p | p in pool :: Held
    {
      this.data, this.mem, head, freelist := data, mem, 0, [];
      owner := map p | p in pool :: Held;
    }

    /** Every allocatable page is in exactly one place, and `owner` says which; the free ones are linked from head. */
    ghost predicate Valid()
      reads this
    {
      Good(mem, owner) && FreeList(freelist, owner) && Threaded(mem, head, freelist)
    }

    /** Free the page p, filling it with junk and linking it in. */
    method Kfree(p: nat)
      requires p in owner && !owner[p].Free? && FreeList(freelist, owner) && Threaded(mem, head, freelist)
      modifies this
      ensures mem == old(mem)[p := Junk(old(head))] && freelist == [p] + old(freelist) && owner == old(owner)[p := Free]
      ensures FreeList(freelist, owner) && Threaded(mem, head, freelist)
    {
      ThreadPush(mem, head, freelist, p);
      mem := mem[p := Junk(head)];
      head := p;
      freelist := [p] + freelist;
      owner := owner[p := Free];
    }

    /** The pages lo..hi have become free. */
    static ghost function Ranged(owner: Owners, lo: nat, hi: nat): Owners {
      map p | p in owner :: if lo <= p < hi then Free else owner[p]
    }

    static lemma RangedNext(owner: Owners, lo: nat, hi: nat, next: nat)
      requires lo <= hi && next == hi + 1 && hi in owner
      ensures Ranged(owner, lo, next) == Ranged(owner, lo, hi)[hi := Free]
    {
    }

    /** Free the whole pages between two byte addresses. */
    method Freerange(vstart: nat, vend: nat)
      requires Valid() && forall p :: PagesUp(vstart) <= p < vend / PGSIZE ==> p in owner && owner[p].Held?
      modifies this
      ensures Valid() && owner == Ranged(old(owner), PagesUp(vstart), vend / PGSIZE)
    {
      var p := PagesUp(vstart);
      ghost var lo, o0 := p, owner;
      assert owner == Ranged(o0, lo, p);
      while p * PGSIZE + PGSIZE <= vend
        invariant lo <= p && Valid() && owner == Ranged(o0, lo, p)
        invariant p <= vend / PGSIZE || p == lo
        decreases vend - p * PGSIZE
      {
        assert p < vend / PGSIZE;
        ghost var next := p + 1;
        RangedNext(o0, lo, p, next);
        Release(p, 0);
        p := p + 1;
      }
    }

    /** Take a page, 0 if there is none. */
    method Kalloc() returns (p: nat)
      requires Valid()
      modifies this`head, this`freelist, this`owner
      ensures Valid()
      ensures p == 0 <==> old(freelist) == []
      ensures p == 0 ==> freelist == old(freelist) && owner == old(owner)
      ensures p != 0 ==> old(freelist) == [p] + freelist && p in old(owner) && old(owner)[p].Free? && owner == old(owner)[p := Held]
    {
      p := head;
      if p == 0 {
        assert 0 !in freelist;
        return 0;
      }
      assert p in freelist;
      ThreadPop(mem, head, freelist);
      DataChanged(mem, owner, mem, owner[p := Held]);
      head := mem[p][0];
      freelist := freelist[1..];
      owner := owner[p := Held];
    }

    /** The page table holding the entry for virtual page v, created if asked; 0 if there is none. */
    method Walkpgdir(pd: nat, v: nat, alloc: bool) returns (t: nat)
      requires Valid() && IsDir(owner, pd) && v < VPAGES
      modifies this
      ensures Valid() && OnlyTables(old(owner), owner, pd)
      ensures SameMaps(old(mem), old(owner), mem, 0) && SameData(old(mem), old(owner), mem)
      ensures t == 0 <==> !Present(Pde(mem, pd, v))
      ensures t != 0 ==> t == Addr(Pde(mem, pd, v)) && t in mem && |mem[t]| == ENTRIES && IsDir(owner, pd)
      ensures !alloc || t == 0 ==> mem == old(mem) && freelist == old(freelist) && owner == old(owner)
      ensures alloc && t == 0 ==> freelist == [] && TableOf(v) !in Tabs(mem, pd)
      ensures alloc && t != 0 ==> OneTable(|old(freelist)|, Tabs(old(mem), pd), |freelist|, Tabs(mem, pd), TableOf(v))
    {
      var i := v / ENTRIES;
      var pde := mem[pd][i];
      if Present(pde) {
        assert DirOk(mem, owner, pd, i);
        TableThere(|freelist|, Tabs(mem, pd), i);
        return Addr(pde);
      }
      if !alloc {
        return 0;
      }
      t := AddTable(pd, v, i);
    }

    /** A zeroed page becomes the table for virtual page v. */
    method AddTable(pd: nat, v: nat, i: nat) returns (t: nat)
      requires Valid() && IsDir(owner, pd) && v < VPAGES && i == v / ENTRIES && !Present(Pde(mem, pd, v))
      modifies this
      ensures Valid() && OnlyTables(old(owner), owner, pd)
      ensures SameMaps(old(mem), old(owner), mem, 0) && SameData(old(mem), old(owner), mem)
      ensures t == 0 <==> !Present(Pde(mem, pd, v))
      ensures t != 0 ==> t == Addr(Pde(mem, pd, v)) && t in mem && |mem[t]| == ENTRIES && IsDir(owner, pd)
      ensures t == 0 ==> mem == old(mem) && freelist == old(freelist) == [] && owner == old(owner)
      ensures t != 0 ==> OneTable(|old(freelist)|, Tabs(old(mem), pd), |freelist|, Tabs(mem, pd), i)
    {
      ghost var m0, o0, f0 := mem, owner, |freelist|;
      t := Kalloc();
      if t == 0 {
        return 0;
      }
      NewTable(m0, o0, pd, v, t);
      EntryParts(t, PTE_W + PTE_U);
      ThreadOther(mem, head, freelist, t, Zeros());
      mem := mem[t := Zeros()];
      var row: Page := mem[pd][i := Entry(t, PTE_W + PTE_U)];
      ThreadOther(mem, head, freelist, pd, row);
      mem := mem[pd := row];
      owner := owner[t := Tab(pd, i)];
      assert owner == o0[t := Tab(pd, i)];
      TableBought(m0, mem, pd, i, Entry(t, PTE_W + PTE_U), f0, |freelist|);
    }

    /** One step of mappages; a page that is mapped already makes it panic. */
    method MapPage(pd: nat, v: nat, pa: nat, perm: nat) returns (ok: bool, panicked: bool)
      requires Valid() && IsDir(owner, pd) && v < VPAGES && perm < 4096
      requires v < UPAGES ==> pa in owner && owner[pa].Held?
      modifies this
      ensures panicked <==> IsMapped(old(mem), pd, v)
      ensures !panicked ==> Valid() && IsDir(owner, pd)
      ensures !panicked && !ok ==> mem == old(mem) && freelist == old(freelist) == [] && owner == old(owner) && TableOf(v) !in Tabs(mem, pd)
      ensures !panicked && ok ==> OneTable(|old(freelist)|, Tabs(old(mem), pd), |freelist|, Tabs(mem, pd), TableOf(v))
      ensures !panicked && ok ==> MapsRange(old(mem), mem, pd, v, 1, pa, perm) && OnlyTables(Assigned(old(owner), pd, v, pa, 1), owner, pd)
      ensures !panicked && ok ==> SameMaps(old(mem), old(owner), mem, pd) && SameData(old(mem), old(owner), mem)
    {
      var t := Walkpgdir(pd, v, true);
      if t == 0 {
        return false, false;
      }
      assert Mapped(mem, pd, v) == Mapped(old(mem), pd, v);
      if Present(mem[t][v % ENTRIES]) {
        return false, true;
      }
      ghost var m1, o1 := mem, owner;
      SetEntry(pd, v, t, pa, perm);
      TableThenPage(old(mem), old(owner), m1, o1, mem, pd, v, pa, perm);
      return true, false;
    }

    /** Store the entry for v in its table t. */
    method SetEntry(pd: nat, v: nat, t: nat, pa: nat, perm: nat)
      requires Valid() && IsDir(owner, pd) && v < VPAGES && perm < 4096 && Mapped(mem, pd, v) == 0
      requires Present(Pde(mem, pd, v)) && t == Addr(Pde(mem, pd, v)) && (v < UPAGES ==> pa in owner && owner[pa].Held?)
      modifies this`mem, this`owner
      ensures Valid() && owner == Assigned(old(owner), pd, v, pa, 1) && MapsRange(old(mem), mem, pd, v, 1, pa, perm)
      ensures Tabs(mem, pd) == Tabs(old(mem), pd)
      ensures SameMaps(old(mem), old(owner), mem, pd) && SameData(old(mem), old(owner), mem)
    {
      OnePage(mem, owner, pd, v, pa, perm);
      var row: Page := mem[t][v % ENTRIES := Entry(pa, perm)];
      ThreadOther(mem, head, freelist, t, row);
      mem := mem[t := row];
      TabsSame(old(mem), mem, pd);
      owner := Assigned(owner, pd, v, pa, 1);
    }

    /** Virtual pages va..va+k of pd have been mapped since the state (m0, o0). */
    ghost predicate Mapping(m0: Mem, o0: Owners, pd: nat, va: nat, k: nat, pa: nat, perm: nat)
      reads this
    {
      Valid() && IsDir(owner, pd) && RunMapped(m0, o0, mem, owner, pd, va, k, pa, perm)
    }

    /** One more page mapped. */
    method MapNext(pd: nat, v: nat, q: nat, perm: nat, ghost va: nat, ghost pa: nat, ghost k: nat, ghost next: nat, ghost m0: Mem,
        ghost o0: Owners, ghost f0: nat, ghost t0: set<nat>, ghost v': nat) returns (ok: bool, panicked: bool)
      requires Mapping(m0, o0, pd, va, k, pa, perm) && Spent(f0, t0, |freelist|, Tabs(mem, pd), va, v, 0) && next == k + 1 && v' == v + 1 && v == va + k < VPAGES && q == pa + k && perm < 4096
      requires v < UPAGES ==> q in o0 && o0[q].Held?
      modifies this
      ensures panicked <==> IsMapped(m0, pd, v)
      ensures !panicked && ok ==> Mapping(m0, o0, pd, va, next, pa, perm) && Spent(f0, t0, |freelist|, Tabs(mem, pd), va, v', 0)
      ensures !panicked && !ok ==> Valid() && freelist == [] && mem == old(mem) && freelist == old(freelist) && owner == old(owner) && TableOf(v) !in Tabs(mem, pd)
    {
      ghost var m1, o1, f1 := mem, owner, |freelist|;
      RunAhead(m0, o0, m1, o1, pd, va, k, pa, perm, v, q);
      ok, panicked := MapPage(pd, v, q, perm);
      if ok && !panicked {
        RunNext(m0, o0, m1, o1, mem, owner, pd, va, k, next, pa, perm, v, q);
        SpentNext(f0, t0, f1, Tabs(m1, pd), |freelist|, Tabs(mem, pd), va, v, v', 0, 0);
      }
    }

    /** The number of pages that the bytes from va on, size of them, lie in. */
    static function Spanned(va: nat, size: nat): (n: nat)
      requires size > 0
      ensures n > 0
    {
      (va + size - 1) / PGSIZE - va / PGSIZE + 1
    }

    static lemma WholePages(va: nat, n: nat, b: nat, size: nat)
      requires n > 0 && b == va * PGSIZE && size == n * PGSIZE
      ensures b / PGSIZE == va && Spanned(b, size) == n && (b + size - 1) / PGSIZE + 1 == va + n
    {
      var last := va + n - 1;
      assert b + size - 1 == last * PGSIZE + (PGSIZE - 1);
    }

    /**
     Map the pages that the size bytes from va lie in to the physical pages from pa.  `done` counts
     those mapped when memory runs out, or when the next one, `at`, is mapped already and the call
     panics.
     */
    method Mappages(pd: nat, va: nat, size: nat, pa: nat, perm: nat)
      returns (ok: bool, panicked: bool, ghost done: nat, ghost a: nat, ghost at: nat, ghost end: nat)
      requires Valid() && IsDir(owner, pd) && 0 < size && va + size <= VPAGES * PGSIZE && perm < 4096
      requires forall p :: pa <= p < pa + Spanned(va, size) && va / PGSIZE + (p - pa) < UPAGES ==> p in owner && owner[p].Held?
      modifies this
      ensures done <= Spanned(va, size) && (ok <==> done == Spanned(va, size))
      ensures a == va / 4096 && end == (va + size - 1) / 4096 + 1 && at == a + done
      ensures NoneMapped(old(mem), pd, a, at)
      ensures panicked ==> !ok && IsMapped(old(mem), pd, at)
      ensures !panicked ==> Mapping(old(mem), old(owner), pd, a, done, pa, perm) && (!ok ==> freelist == [])
      ensures !panicked && done == 0 ==> mem == old(mem) && freelist == old(freelist) && owner == old(owner)
      ensures !panicked ==> (ok <==> |old(freelist)| >= |TabsOf(a, end) - Tabs(old(mem), pd)|)
      ensures !panicked ==> Spent(|old(freelist)|, Tabs(old(mem), pd), |freelist|, Tabs(mem, pd), a, at, 0)
    {
      var first, last := va / PGSIZE, (va + size - 1) / PGSIZE;
      ghost var f0, t0, n := |freelist|, Tabs(mem, pd), Spanned(va, size);
      a, end := first, last + 1;
      ok, panicked, done, at := MapLoop(pd, first, last, n, pa, perm);
      if !panicked {
        RunCounted(f0, t0, |freelist|, Tabs(mem, pd), a, at, end);
      }
    }

    /** The loop of mappages, from page a to page last, n pages in all. */
    method MapLoop(pd: nat, a: nat, last: nat, ghost n: nat, pa: nat, perm: nat) returns (ok: bool, panicked: bool, ghost done: nat, ghost at: nat)
      requires Valid() && IsDir(owner, pd) && a + n == last + 1 <= VPAGES && perm < 4096
      requires forall p :: pa <= p < pa + n && a + (p - pa) < UPAGES ==> p in owner && owner[p].Held?
      modifies this
      ensures done <= n && (ok <==> done == n) && NoneMapped(old(mem), pd, a, at)
      ensures at == a + done && (panicked ==> !ok && IsMapped(old(mem), pd, at))
      ensures !panicked ==> Mapping(old(mem), old(owner), pd, a, done, pa, perm)
      ensures !panicked && !ok ==> freelist == [] && TableOf(at) !in Tabs(mem, pd)
      ensures !panicked ==> Spent(|old(freelist)|, Tabs(old(mem), pd), |freelist|, Tabs(mem, pd), a, at, 0)
      ensures !panicked && done == 0 ==> mem == old(mem) && freelist == old(freelist) && owner == old(owner)
    {
      panicked, done, at := false, 0, a;
      var v, q, mapped := a, pa, true;
      ghost var m0, o0, f0, t0 := mem, owner, |freelist|, Tabs(mem, pd);
      RunStart(m0, o0, pd, a, pa, perm);
      SpentNothing(f0, t0, a);
      while v <= last
        invariant 0 <= done <= n && v == at == a + done && q == pa + done && !panicked && mapped
        invariant Mapping(m0, o0, pd, a, done, pa, perm) && NoneMapped(m0, pd, a, at) && Spent(f0, t0, |freelist|, Tabs(mem, pd), a, at, 0)
        invariant done == 0 ==> mem == old(mem) && freelist == old(freelist) && owner == old(owner)
      {
        ghost var next, at' := done + 1, at + 1;
        mapped, panicked := MapNext(pd, v, q, perm, a, pa, done, next, m0, o0, f0, t0, at');
        if panicked || !mapped {
          break;
        }
        NoneMappedNext(m0, pd, a, at, at');
        v, q, done, at := v + 1, q + 1, next, at';
      }
      ok := v > last;
    }

    /** mappages of n whole pages that are not mapped. */
    method MapRun(pd: nat, va: nat, n: nat, ghost end: nat, pa: nat, perm: nat) returns (ok: bool, ghost done: nat)
      requires Valid() && IsDir(owner, pd) && 0 < n && va + n == end <= VPAGES && perm < 4096
      requires forall v :: va <= v < va + n ==> Mapped(mem, pd, v) == 0
      requires forall p :: pa <= p < pa + n && va + (p - pa) < UPAGES ==> p in owner && owner[p].Held?
      modifies this
      ensures done <= n && (ok <==> done == n) && (!ok ==> freelist == [])
      ensures done == 0 ==> mem == old(mem) && freelist == old(freelist) && owner == old(owner)
      ensures Mapping(old(mem), old(owner), pd, va, done, pa, perm)
      ensures ok ==> Spent(|old(freelist)|, Tabs(old(mem), pd), |freelist|, Tabs(mem, pd), va, end, 0)
      ensures !ok ==> Short(|old(freelist)|, Tabs(old(mem), pd), va, end, 0)
    {
      var b, size := va * PGSIZE, n * PGSIZE;
      WholePages(va, n, b, size);
      var panicked;
      ghost var a, at, last;
      ghost var f0, t0 := |freelist|, Tabs(mem, pd);
      ok, panicked, done, a, at, last := Mappages(pd, b, size, pa, perm);
      assert a == va && last == end;
      if !ok {
        IsShort(f0, t0, a, last, va, end);
      }
    }

    /** Pages lo..e of pd have been unmapped since the state (m0, o0, f0), as if one by one. */
    ghost predicate Unmapped(m0: Mem, o0: Owners, f0: seq<nat>, pd: nat, lo: nat, e: nat)
      reads this
    {
      && lo <= e && Valid() && IsDir(owner, pd)
      && ClearsRange(m0, mem, pd, lo, e) && owner == Unassigned(o0, pd, lo, e) && freelist == Pushed(m0, pd, lo, e, f0)
      && SameMaps(m0, o0, mem, pd) && SameData(m0, owner, mem)
    }

    lemma UnmappedSkip(m0: Mem, o0: Owners, f0: seq<nat>, pd: nat, lo: nat, e: nat, e': nat)
      requires Unmapped(m0, o0, f0, pd, lo, e) && e <= e' <= UPAGES && forall v :: e <= v < e' ==> Mapped(mem, pd, v) == 0
      ensures Unmapped(m0, o0, f0, pd, lo, e')
    {
      NothingThere(mem, owner, pd, e, e');
      ClearsTrans(m0, mem, mem, pd, lo, e, e');
      UnassignedTrans(o0, pd, lo, e, e');
      forall v | e <= v < e' ensures Mapped(m0, pd, v) == 0 {
        assert Mapped(mem, pd, v) == 0;
      }
      PushedNothing(m0, pd, lo, e, e', f0);
    }

    /** Unmap one mapped page, whose table is t. */
    method Unmap(pd: nat, v: nat, t: nat, ghost next: nat, ghost m0: Mem, ghost o0: Owners, ghost f0: seq<nat>,
        ghost lo: nat)
      requires Unmapped(m0, o0, f0, pd, lo, v) && v < UPAGES && next == v + 1
      requires Present(Pde(mem, pd, v)) && t == Addr(Pde(mem, pd, v)) && Present(Pte(mem, pd, v))
      modifies this
      ensures Unmapped(m0, o0, f0, pd, lo, next)
    {
      OneUnmapped(mem, owner, pd, v, Junk(head));
      ghost var m1, o1 := mem, owner;
      var p := Addr(mem[t][v % ENTRIES]);
      assert Mapped(m1, pd, v) == Mapped(m0, pd, v) == m1[t][v % ENTRIES];
      Kfree(p);
      var row: Page := mem[t][v % ENTRIES := 0];
      ThreadOther(mem, head, freelist, t, row);
      mem := mem[t := row];
      ClearsTrans(m0, m1, mem, pd, lo, v, next);
      UnassignedTrans(o0, pd, lo, v, next);
      SameMapsTrans(m0, o0, m1, o1, mem, pd);
    }

    /** A page whose table is there: unmap it if it is mapped. */
    method UnmapOne(pd: nat, v: nat, t: nat, ghost next: nat, ghost m0: Mem, ghost o0: Owners, ghost f0: seq<nat>, ghost lo: nat)
      requires Unmapped(m0, o0, f0, pd, lo, v) && v < UPAGES && next == v + 1
      requires Present(Pde(mem, pd, v)) && t == Addr(Pde(mem, pd, v)) && t in mem && |mem[t]| == ENTRIES
      modifies this
      ensures Unmapped(m0, o0, f0, pd, lo, next)
    {
      if Present(mem[t][v % ENTRIES]) {
        Unmap(pd, v, t, next, m0, o0, f0, lo);
      } else {
        UnmappedSkip(m0, o0, f0, pd, lo, v, next);
      }
    }

    /** The pages up to e that one missing table would cover. */
    lemma UnmappedTable(m0: Mem, o0: Owners, f0: seq<nat>, pd: nat, lo: nat, v: nat, e: nat)
      requires Unmapped(m0, o0, f0, pd, lo, v) && !Present(Pde(mem, pd, v)) && v <= e <= UPAGES && e <= (v / ENTRIES + 1) * ENTRIES
      ensures Unmapped(m0, o0, f0, pd, lo, e)
    {
      forall x | v <= x < e ensures Mapped(mem, pd, x) == 0 {
        NoTable(mem, pd, v, x);
      }
      UnmappedSkip(m0, o0, f0, pd, lo, v, e);
    }

    /** The skipping loop of deallocuvm has the effect of unmapping every page of the range one by one. */
    method Deallocuvm(pd: nat, oldsz: nat, newsz: nat) returns (r: nat)
      requires Valid() && IsDir(owner, pd) && oldsz <= KERNBASE
      modifies this
      ensures r == if newsz >= oldsz then oldsz else newsz
      ensures newsz >= oldsz ==> mem == old(mem) && owner == old(owner) && freelist == old(freelist)
      ensures newsz < oldsz ==> PagesUp(newsz) <= PagesUp(oldsz) <= UPAGES
      ensures newsz < oldsz ==> Unmapped(old(mem), old(owner), old(freelist), pd, PagesUp(newsz), PagesUp(oldsz))
    {
      if newsz >= oldsz {
        return oldsz;
      }
      var v := PagesUp(newsz);
      ghost var lo, hi := v, PagesUp(oldsz);
      ghost var m0, o0, f0 := mem, owner, freelist;
      NothingThere(mem, owner, pd, lo, lo);
      ghost var e := lo;
      while v * PGSIZE < oldsz
        invariant lo <= v && e == (if v < hi then v else hi) && Unmapped(m0, o0, f0, pd, lo, e)
        decreases hi - v
      {
        var t := Walkpgdir(pd, v, false);
        if t == 0 {
          ghost var next := (v / ENTRIES + 1) * ENTRIES;
          e := if next < hi then next else hi;
          UnmappedTable(m0, o0, f0, pd, lo, v, e);
          v := (v / ENTRIES + 1) * ENTRIES - 1;
        } else {
          e := v + 1;
          UnmapOne(pd, v, t, e, m0, o0, f0, lo);
        }
        v := v + 1;
      }
      r := newsz;
    }

    /** Tables below entry i of pd have been freed since the state (m1, o1). */
    ghost predicate Sweeping(m1: Mem, o1: Owners, pd: nat, i: nat)
      reads this
    {
      && Valid() && owner == Swept(o1, pd, i) && pd in mem && pd in m1 && mem[pd] == m1[pd]
      && SameMaps(m1, o1, mem, pd) && SameData(m1, owner, mem)
    }

    /** Free the page p in the caller's hands. */
    method Release(p: nat, ghost but: nat)
      requires Valid() && p in owner && owner[p].Held?
      modifies this
      ensures Valid() && owner == old(owner)[p := Free] && mem == old(mem)[p := Junk(old(head))]
      ensures SameMaps(old(mem), old(owner), mem, but) && SameData(old(mem), owner, mem)
    {
      HeldFreed(mem, owner, p, Junk(head));
      Kfree(p);
    }

    method SweepNext(pd: nat, i: nat, ghost next: nat, ghost m1: Mem, ghost o1: Owners)
      requires Sweeping(m1, o1, pd, i) && Good(m1, o1) && IsDir(o1, pd) && i < ENTRIES && next == i + 1
      modifies this
      ensures Sweeping(m1, o1, pd, next)
    {
      SweptStep(m1, o1, pd, i, next);
      if Present(mem[pd][i]) {
        ghost var m2, o2 := mem, owner;
        Release(Addr(mem[pd][i]), pd);
        SameMapsTrans(m1, o1, m2, o2, mem, pd);
      }
    }

    /** Free the tables of pd and pd itself once it maps no user page. */
    method Sweep(pd: nat)
      requires Valid() && IsDir(owner, pd) && forall v :: 0 <= v < UPAGES ==> Mapped(mem, pd, v) == 0
      modifies this
      ensures Valid() && owner == Swept(old(owner), pd, ENTRIES)[pd := Free]
      ensures SameMaps(old(mem), old(owner), mem, pd) && SameData(old(mem), owner, mem)
    {
      ghost var m1, o1 := mem, owner;
      forall v | 0 <= v < UPAGES ensures !Present(Pte(mem, pd, v)) {
        assert Mapped(mem, pd, v) == 0;
      }
      DismantledGood(mem, owner, pd);
      SweptStart(owner, pd);
      owner := Dismantled(owner, pd);
      SweepTables(pd, m1, o1);
      SweepDir(pd, m1, o1);
    }

    /** The loop of freevm over the tables. */
    method SweepTables(pd: nat, ghost m1: Mem, ghost o1: Owners)
      requires Sweeping(m1, o1, pd, 0) && Good(m1, o1) && IsDir(o1, pd)
      modifies this
      ensures Sweeping(m1, o1, pd, ENTRIES)
    {
      var i := 0;
      while i < ENTRIES
        invariant 0 <= i <= ENTRIES && Sweeping(m1, o1, pd, i)
      {
        ghost var next := i + 1;
        SweepNext(pd, i, next, m1, o1);
        i := i + 1;
      }
    }

    /** At last the directory itself. */
    method SweepDir(pd: nat, ghost m1: Mem, ghost o1: Owners)
      requires Sweeping(m1, o1, pd, ENTRIES) && IsDir(o1, pd)
      modifies this
      ensures Valid() && owner == Swept(o1, pd, ENTRIES)[pd := Free]
      ensures SameMaps(m1, o1, mem, pd) && SameData(m1, owner, mem)
    {
      ghost var m2, o2 := mem, owner;
      assert pd in o2 && o2[pd].Held?;
      Release(pd, pd);
      SameMapsTrans(m1, o1, m2, o2, mem, pd);
    }

    /** Free pd, its tables and its user pages: exactly its pages become free. */
    method Freevm(pd: nat)
      requires Valid() && IsDir(owner, pd)
      modifies this
      ensures Valid() && owner == Reclaimed(old(owner), pd)
      ensures SameMaps(old(mem), old(owner), mem, pd) && SameData(old(mem), owner, mem)
    {
      UserPart(pd);
      ghost var m1, o1 := mem, owner;
      Sweep(pd);
      AllReclaimed(old(mem), old(owner), m1, o1, mem, owner, pd);
    }

    /** deallocuvm of the whole user part. */
    method UserPart(pd: nat)
      requires Valid() && IsDir(owner, pd)
      modifies this
      ensures Valid() && IsDir(owner, pd) && owner == Unassigned(old(owner), pd, 0, UPAGES)
      ensures SameMaps(old(mem), old(owner), mem, pd) && SameData(old(mem), owner, mem)
      ensures forall v :: 0 <= v < UPAGES ==> Mapped(mem, pd, v) == 0
    {
      var _ := Deallocuvm(pd, KERNBASE, 0);
      assert PagesUp(0) == 0 && PagesUp(KERNBASE) == UPAGES;
    }

    /** pd is a new directory holding the first k regions, its pages taken from the free list of (m0, o0). */
    ghost predicate Building(m0: Mem, o0: Owners, pd: nat, rs: seq<Region>, k: nat)
      reads this
    {
      Valid() && Built(m0, o0, mem, owner, pd, rs, k)
    }

    /** f0 pages were free when the building of pd began; the first k regions' tables have been taken from them. */
    ghost predicate Paid(f0: nat, pd: nat, rs: seq<Region>, k: nat)
      reads this
    {
      k <= |rs| && Tabs(mem, pd) == RegionTabs(rs, k) && |freelist| + |Tabs(mem, pd)| == f0
    }

    method MapRegion(pd: nat, rs: seq<Region>, k: nat, ghost next: nat, ghost m0: Mem, ghost o0: Owners, ghost f0: nat) returns (ok: bool)
      requires Building(m0, o0, pd, rs, k) && Paid(f0, pd, rs, k) && Ordered(rs) && k < |rs| && next == k + 1
      modifies this
      ensures ok ==> Building(m0, o0, pd, rs, next) && Paid(f0, pd, rs, next)
      ensures !ok ==> f0 < |RegionTabs(rs, |rs|)|
      ensures !ok ==> Valid() && OnlyTables(o0[pd := Dir], owner, pd) && freelist == []
      ensures SameMaps(m0, o0, mem, pd) && SameData(m0, o0, mem)
    {
      ghost var m1, o1, f1 := mem, owner, |freelist|;
      var r := rs[k];
      RegionFree(m0, o0, m1, o1, pd, rs, k);
      ghost var done;
      ghost var end := r.va + r.n;
      ok, done := MapRun(pd, r.va, r.n, end, r.pa, r.perm);
      RegionKept(m0, o0, m1, o1, mem, owner, pd, rs, k, done);
      if ok {
        RegionNext(m0, o0, m1, o1, mem, owner, pd, rs, k, next);
        RegionSpent(f0, f1, Tabs(m1, pd), |freelist|, Tabs(mem, pd), rs, k, next, end);
      } else {
        RegionShort(f0, f1, Tabs(m1, pd), rs, k, next, end, |rs|);
      }
    }

    /** Take down a directory under construction: every page goes back where it was. */
    method Abandon(pd: nat, ghost m0: Mem, ghost o0: Owners)
      requires Valid() && IsDir(owner, pd) && Good(m0, o0) && pd in o0 && !o0[pd].Dir? && Reclaimed(owner, pd) == o0
      requires SameMaps(m0, o0, mem, pd) && SameData(m0, o0, mem) && forall d :: IsDir(o0, d) ==> IsDir(owner, d)
      modifies this
      ensures Valid() && owner == o0 && SameMaps(m0, o0, mem, 0) && SameData(m0, o0, mem)
    {
      ghost var m1, o1 := mem, owner;
      Freevm(pd);
      SameMapsTrans(m0, o0, m1, o1, mem, pd);
      SameDataTrans(m0, o0, m1, o0, mem);
    }

    /** The loop of setupkvm over kmap. */
    method MapAll(pd: nat, rs: seq<Region>, ghost m0: Mem, ghost o0: Owners, ghost f0: nat) returns (ok: bool)
      requires Building(m0, o0, pd, rs, 0) && Paid(f0, pd, rs, 0) && Ordered(rs)
      modifies this
      ensures ok ==> Building(m0, o0, pd, rs, |rs|) && Paid(f0, pd, rs, |rs|)
      ensures !ok ==> f0 < |RegionTabs(rs, |rs|)| && Valid() && OnlyTables(o0[pd := Dir], owner, pd)
      ensures !ok ==> SameMaps(m0, o0, mem, pd) && SameData(m0, o0, mem)
    {
      var k := 0;
      ok := true;
      while k < |rs|
        invariant 0 <= k <= |rs| && ok && Building(m0, o0, pd, rs, k) && Paid(f0, pd, rs, k)
      {
        ghost var next := k + 1;
        ok := MapRegion(pd, rs, k, next, m0, o0, f0);
        if !ok {
          break;
        }
        k := k + 1;
      }
    }

    /** The regions of kmap, or every page given back. */
    method MapRegions(pd: nat, rs: seq<Region>, ghost m0: Mem, ghost o0: Owners, ghost f0: nat) returns (ok: bool)
      requires Building(m0, o0, pd, rs, 0) && Paid(f0, pd, rs, 0) && Ordered(rs) && Good(m0, o0)
      modifies this
      ensures ok ==> Building(m0, o0, pd, rs, |rs|) && Paid(f0, pd, rs, |rs|)
      ensures !ok ==> f0 < |RegionTabs(rs, |rs|)|
      ensures !ok ==> Valid() && owner == o0 && SameMaps(m0, o0, mem, 0) && SameData(m0, o0, mem)
    {
      ok := MapAll(pd, rs, m0, o0, f0);
      if !ok {
        ReclaimedNew(m0, o0, owner, pd);
        Abandon(pd, m0, o0);
      }
    }

    /** A zeroed page, a directory with no region yet. */
    method EmptyDir(ghost rs: seq<Region>) returns (pd: nat)
      requires Valid()
      modifies this
      ensures pd == 0 ==> Valid() && old(freelist) == [] && owner == old(owner) && mem == old(mem)
      ensures pd != 0 ==> Building(old(mem), old(owner), pd, rs, 0) && Paid(|old(freelist)| - 1, pd, rs, 0)
    {
      ghost var m0, o0 := mem, owner;
      pd := Kalloc();
      if pd != 0 {
        BuiltStart(m0, o0, pd, rs);
        ThreadOther(mem, head, freelist, pd, Zeros());
        mem := mem[pd := Zeros()];
        owner := owner[pd := Dir];
        assert owner == o0[pd := Dir];
        NoTabs(mem, pd);
      }
    }

    /** A new directory with the kernel half mapped, or 0 with every page given back: it takes 65 pages. */
    method Setupkvm() returns (pd: nat)
      requires Valid() && 0x8_0100 < data < 0x8_e000
      modifies this
      ensures pd == 0 ==> Valid() && owner == old(owner) && SameMaps(old(mem), old(owner), mem, 0) && SameData(old(mem), old(owner), mem)
      ensures pd != 0 ==> Building(old(mem), old(owner), pd, Kmap(data), 4)
      ensures pd != 0 <==> |old(freelist)| >= 65
      ensures pd != 0 ==> |freelist| == |old(freelist)| - 65 && Tabs(mem, pd) == RegionTabs(Kmap(data), 4)
    {
      ghost var m0, o0, f0 := mem, owner, |freelist|;
      var rs := Kmap(data);
      KmapOrdered(data);
      KernelTabs(data);
      pd := EmptyDir(rs);
      if pd == 0 {
        return;
      }
      var ok := MapRegions(pd, rs, m0, o0, f0 - 1);
      if !ok {
        return 0;
      }
    }

    /** kalloc a page, copy `row` into it and map it at v.  p is 0 if there was no page, and in hand if there was no table. */
    method FillPage(pd: nat, v: nat, row: Page, perm: nat,
                    ghost next: nat, ghost lo: nat, ghost m0: Mem, ghost o0: Owners, ghost page: nat -> Page, ghost flags: nat -> nat)
      returns (ok: bool, p: nat)
      requires Valid() && IsDir(owner, pd) && Grown(m0, o0, mem, owner, pd, lo, v, page, flags, 0)
      requires lo <= v < UPAGES && next == v + 1 && Mapped(m0, pd, v) == 0 && perm < 4096
      requires |row| == ENTRIES && row == page(v) && flags(v) == (if Present(perm) then perm else perm + 1)
      modifies this
      ensures Valid() && IsDir(owner, pd)
      ensures ok ==> Grown(m0, o0, mem, owner, pd, lo, next, page, flags, 0)
      ensures !ok ==> freelist == [] && Grown(m0, o0, mem, owner, pd, lo, v, page, flags, p)
      ensures !ok && p != 0 ==> p in owner && owner[p].Held? && p in o0 && o0[p].Free?
      ensures ok ==> OnePageIn(|old(freelist)|, Tabs(old(mem), pd), |freelist|, Tabs(mem, pd), v)
      ensures !ok ==> NoRoom(|old(freelist)|, Tabs(old(mem), pd), v)
    {
      ghost var m1, o1 := mem, owner;
      p := Kalloc();
      if p == 0 {
        return false, 0;
      }
      GrownHand(m0, o0, m1, o1, pd, lo, v, page, flags, p, row);
      ThreadOther(mem, head, freelist, p, row);
      mem := mem[p := row];
      TabsSame(m1, mem, pd);
      assert Mapped(m1, pd, v) == 0;
      ok := MapHand(pd, v, p, perm, next, lo, m0, o0, page, flags);
    }

    /** Map the page p in hand at v. */
    method MapHand(pd: nat, v: nat, p: nat, perm: nat, ghost next: nat, ghost lo: nat, ghost m0: Mem, ghost o0: Owners,
        ghost page: nat -> Page, ghost flags: nat -> nat) returns (ok: bool)
      requires Valid() && IsDir(owner, pd) && Grown(m0, o0, mem, owner, pd, lo, v, page, flags, p)
      requires lo <= v < UPAGES && next == v + 1 && Mapped(mem, pd, v) == 0 && perm < 4096
      requires p in owner && owner[p].Held? && p in o0 && o0[p].Free? && p in mem && mem[p] == page(v)
      requires flags(v) == (if Present(perm) then perm else perm + 1)
      modifies this
      ensures Valid() && IsDir(owner, pd)
      ensures ok ==> Grown(m0, o0, mem, owner, pd, lo, next, page, flags, 0)
      ensures !ok ==> freelist == old(freelist) == [] && owner == old(owner) && mem == old(mem) && TableOf(v) !in Tabs(mem, pd)
      ensures ok ==> OneTable(|old(freelist)|, Tabs(old(mem), pd), |freelist|, Tabs(mem, pd), TableOf(v))
    {
      ghost var m2, o2, f2 := mem, owner, |freelist|;
      ghost var done;
      ok, done := MapRun(pd, v, 1, next, p, perm);
      OneRun(f2, Tabs(m2, pd), |freelist|, Tabs(mem, pd), v, next);
      if ok {
        GrownNext(m0, o0, m2, o2, mem, owner, pd, lo, v, next, page, flags, p, perm);
      }
    }

    /** Unwind of a failed allocuvm: unmap what was mapped and return the page in hand. */
    method Unwind(pd: nat, oldsz: nat, newsz: nat, p: nat,
                  ghost v: nat, ghost m0: Mem, ghost o0: Owners, ghost page: nat -> Page, ghost flags: nat -> nat)
      requires Valid() && IsDir(owner, pd) && Good(m0, o0) && IsDir(o0, pd) && oldsz < newsz <= KERNBASE
      requires PagesUp(oldsz) <= v <= PagesUp(newsz) && Grown(m0, o0, mem, owner, pd, PagesUp(oldsz), v, page, flags, p)
      requires forall x :: PagesUp(oldsz) <= x < PagesUp(newsz) ==> Mapped(m0, pd, x) == 0
      requires p != 0 ==> p in owner && owner[p].Held? && p in o0 && o0[p].Free?
      modifies this
      ensures Valid() && SameMaps(m0, o0, mem, 0) && SameData(m0, o0, mem) && OnlyTables(o0, owner, pd)
    {
      ghost var lo, hi := PagesUp(oldsz), PagesUp(newsz);
      ghost var m1, o1 := mem, owner;
      var _ := Deallocuvm(pd, newsz, oldsz);
      GrownUndone(m0, o0, m1, o1, mem, owner, pd, lo, v, hi, page, flags, p);
      ghost var m2, o2 := mem, owner;
      if p != 0 {
        HandReturned(o0, owner, pd, lo, lo, p);
        Release(p, 0);
        TakenNoUsers(o0, owner, pd, lo);
        assert forall d :: IsDir(o0, d) ==> IsDir(o2, d);
        SameMapsTrans(m0, o0, m2, o2, mem, 0);
      } else {
        TakenNoUsers(o0, owner, pd, lo);
      }
    }

    /** The loop of allocuvm, up to the page v that memory does not do for; p is the page then in hand. */
    method GrowLoop(pd: nat, oldsz: nat, newsz: nat, ghost lo: nat, ghost hi: nat, ghost all: nat) returns (ok: bool, p: nat, ghost v: nat)
      requires Valid() && IsDir(owner, pd) && oldsz <= newsz < KERNBASE && lo == PagesUp(oldsz) && hi == PagesUp(newsz) && all == hi - lo
      requires forall v :: lo <= v < hi ==> Mapped(mem, pd, v) == 0
      modifies this
      ensures Valid() && IsDir(owner, pd) && lo <= v <= hi && (ok <==> v == hi) && (ok ==> p == 0)
      ensures Grown(old(mem), old(owner), mem, owner, pd, lo, v, ZeroPage, UserRw, p)
      ensures !ok && p != 0 ==> p in owner && owner[p].Held? && p in old(owner) && old(owner)[p].Free?
      ensures ok ==> Spent(|old(freelist)|, Tabs(old(mem), pd), |freelist|, Tabs(mem, pd), lo, v, all)
      ensures !ok ==> Short(|old(freelist)|, Tabs(old(mem), pd), lo, hi, all)
    {
      ghost var m0, o0, f0, t0 := mem, owner, |freelist|, Tabs(mem, pd);
      var a := PagesUp(oldsz);
      ghost var got := 0;
      ok, p, v := true, 0, lo;
      SpentNothing(f0, t0, lo);
      while a * PGSIZE < newsz
        invariant lo <= v == a <= hi && v == lo + got && ok && p == 0
        invariant Valid() && IsDir(owner, pd) && Grown(m0, o0, mem, owner, pd, lo, v, ZeroPage, UserRw, 0)
        invariant Spent(f0, t0, |freelist|, Tabs(mem, pd), lo, v, got)
      {
        ghost var next, more, f1, t1 := v + 1, got + 1, |freelist|, Tabs(mem, pd);
        Below(a, newsz);
        ok, p := FillPage(pd, a, Zeros(), PTE_W + PTE_U, next, lo, m0, o0, ZeroPage, UserRw);
        if !ok {
          SpentShort(f0, t0, f1, t1, lo, v, hi, got, more, all);
          return;
        }
        SpentNext(f0, t0, f1, t1, |freelist|, Tabs(mem, pd), lo, v, next, got, more);
        a, got, v, p := a + 1, more, next, 0;
      }
      Below(a, newsz);
    }

    /** The loop of allocuvm and its unwinding. */
    method Grow(pd: nat, oldsz: nat, newsz: nat, ghost lo: nat, ghost hi: nat, ghost all: nat) returns (ok: bool)
      requires Valid() && IsDir(owner, pd) && oldsz <= newsz < KERNBASE && lo == PagesUp(oldsz) && hi == PagesUp(newsz) && all == hi - lo
      requires forall v :: lo <= v < hi ==> Mapped(mem, pd, v) == 0
      modifies this
      ensures Valid()
      ensures !ok ==> SameMaps(old(mem), old(owner), mem, 0) && SameData(old(mem), old(owner), mem) && OnlyTables(old(owner), owner, pd)
      ensures ok ==> Grown(old(mem), old(owner), mem, owner, pd, lo, hi, ZeroPage, UserRw, 0)
      ensures ok ==> Spent(|old(freelist)|, Tabs(old(mem), pd), |freelist|, Tabs(mem, pd), lo, hi, all)
      ensures !ok ==> Short(|old(freelist)|, Tabs(old(mem), pd), lo, hi, all)
    {
      ghost var m0, o0, v := mem, owner, 0;
      var p;
      ok, p, v := GrowLoop(pd, oldsz, newsz, lo, hi, all);
      if !ok {
        Unwind(pd, oldsz, newsz, p, v, m0, o0, ZeroPage, UserRw);
      }
    }

    /**
     Grow the user part from oldsz to newsz bytes with zeroed pages.  When memory runs out the
     user mapping is exactly what it was, and only page tables may have been taken.
     */
    method Allocuvm(pd: nat, oldsz: nat, newsz: nat) returns (r: nat, ghost ok: bool, ghost lo: nat, ghost hi: nat)
      requires Valid() && IsDir(owner, pd)
      requires newsz < KERNBASE ==> forall v :: PagesUp(oldsz) <= v < PagesUp(newsz) ==> Mapped(mem, pd, v) == 0
      modifies this
      ensures Valid() && r == if newsz >= KERNBASE then 0 else if newsz < oldsz then oldsz else if ok then newsz else 0
      ensures newsz >= KERNBASE || newsz < oldsz ==> !ok && mem == old(mem) && owner == old(owner) && freelist == old(freelist)
      ensures !ok ==> SameMaps(old(mem), old(owner), mem, 0) && SameData(old(mem), old(owner), mem) && OnlyTables(old(owner), owner, pd)
      ensures ok ==> Grown(old(mem), old(owner), mem, owner, pd, PagesUp(oldsz), PagesUp(newsz), ZeroPage, UserRw, 0)
      ensures lo == (oldsz + 4095) / 4096 && hi == (newsz + 4095) / 4096
      ensures oldsz <= newsz < KERNBASE ==> (ok <==> |old(freelist)| >= hi - lo + |TabsOf(lo, hi) - Tabs(old(mem), pd)|)
      ensures ok ==> |freelist| == |old(freelist)| - (hi - lo) - |TabsOf(lo, hi) - Tabs(old(mem), pd)|
    {
      ok, lo, hi := false, PagesUp(oldsz), PagesUp(newsz);
      if newsz >= KERNBASE {
        return 0, false, lo, hi;
      }
      if newsz < oldsz {
        return oldsz, false, lo, hi;
      }
      ghost var f0, t0, all := |freelist|, Tabs(mem, pd), hi - lo;
      var grown := Grow(pd, oldsz, newsz, lo, hi, all);
      if grown {
        SpentEnough(f0, t0, |freelist|, Tabs(mem, pd), lo, hi, all);
      }
      ok := grown;
      r := if grown then newsz else 0;
    }

    /** Return the page in hand, if any, after a failed step. */
    method ReturnHand(d: nat, p: nat, ghost i: nat, ghost m0: Mem, ghost o0: Owners, ghost page: nat -> Page,
        ghost flags: nat -> nat)
      requires Valid() && IsDir(owner, d) && Grown(m0, o0, mem, owner, d, 0, i, page, flags, p) && 0 !in o0
      requires p != 0 ==> p in owner && owner[p].Held? && p in o0 && o0[p].Free?
      modifies this
      ensures Valid() && IsDir(owner, d) && Taken(o0, owner, d, 0, i, 0) && SameMaps(m0, o0, mem, d) && SameData(m0, o0, mem)
    {
      if p != 0 {
        ghost var m1, o1 := mem, owner;
        HandReturned(o0, owner, d, 0, i, p);
        TakenData(o0, o1, d, 0, i, p);
        Release(p, d);
        TakenData(o0, owner, d, 0, i, 0);
        SameMapsTrans(m0, o0, m1, o1, mem, d);
        SameDataTrans(m0, o0, m1, owner, mem);
      }
    }

    /** One iteration of copyuvm, once the entry pte of the parent's page has been found present. */
    method CopyPage(pd: nat, d: nat, i: nat, pte: nat, ghost next: nat, ghost m0: Mem, ghost o0: Owners,
        ghost page: nat -> Page, ghost flags: nat -> nat) returns (ok: bool)
      requires Valid() && IsDir(owner, d) && Grown(m0, o0, mem, owner, d, 0, i, page, flags, 0)
      requires Good(m0, o0) && IsDir(o0, pd) && pd != d && i < UPAGES && next == i + 1
      requires ToCopy(m0, pd, d, page, flags, i) && pte == Mapped(m0, pd, i)
      modifies this
      ensures Valid() && IsDir(owner, d)
      ensures ok ==> Grown(m0, o0, mem, owner, d, 0, next, page, flags, 0)
      ensures !ok ==> Taken(o0, owner, d, 0, i, 0) && SameMaps(m0, o0, mem, d) && SameData(m0, o0, mem)
      ensures ok ==> OnePageIn(|old(freelist)|, Tabs(old(mem), d), |freelist|, Tabs(mem, d), i)
      ensures !ok ==> NoRoom(|old(freelist)|, Tabs(old(mem), d), i)
    {
      ParentSame(m0, o0, mem, owner, pd, d, i, page, flags, i);
      var p;
      ok, p := FillPage(d, i, mem[Addr(pte)], Flags(pte), next, 0, m0, o0, page, flags);
      if !ok {
        ReturnHand(d, p, i, m0, o0, page, flags);
      }
    }

    /** The parent's entry for page i, 0 if there is none; the child d being filled does not change it. */
    method ParentEntry(pd: nat, d: nat, i: nat, ghost m0: Mem, ghost o0: Owners, ghost page: nat -> Page, ghost flags: nat -> nat) returns (pte: nat)
      requires Valid() && IsDir(owner, pd) && pd != d && i < UPAGES && IsDir(o0, pd) && Grown(m0, o0, mem, owner, d, 0, i, page, flags, 0)
      modifies this
      ensures Valid() && mem == old(mem) && owner == old(owner) && freelist == old(freelist)
      ensures Present(pte) <==> Mapped(m0, pd, i) != 0
      ensures Present(pte) ==> pte == Mapped(m0, pd, i)
    {
      assert SameMaps(m0, o0, mem, d);
      assert Mapped(mem, pd, i) == Mapped(m0, pd, i);
      var t := Walkpgdir(pd, i, false);
      pte := if t == 0 then 0 else mem[t][i % ENTRIES];
    }

    /** Pages 0..i of the child d have been filled since (m0, o0), when f0 pages were free and d had the tables t0. */
    ghost predicate Copying(m0: Mem, o0: Owners, d: nat, i: nat, page: nat -> Page, flags: nat -> nat, f0: nat, t0: set<nat>)
      reads this
    {
      && Valid() && IsDir(owner, d) && Grown(m0, o0, mem, owner, d, 0, i, page, flags, 0)
      && Spent(f0, t0, |freelist|, Tabs(mem, d), 0, i, i)
    }

    /** A child that memory has run out for, no page in hand. */
    ghost predicate Unfinished(m0: Mem, o0: Owners, d: nat, i: nat)
      reads this
    {
      Valid() && IsDir(owner, d) && Taken(o0, owner, d, 0, i, 0) && SameMaps(m0, o0, mem, d) && SameData(m0, o0, mem)
    }

    /** One turn of copyuvm's loop; m is the number of pages mapped in the parent. */
    method CopyTurn(pd: nat, d: nat, i: nat, ghost next: nat, ghost m0: Mem, ghost o0: Owners, ghost n: nat, ghost m: nat,
        ghost page: nat -> Page, ghost flags: nat -> nat, ghost f0: nat, ghost t0: set<nat>) returns (ok: bool, panicked: bool)
      requires Copying(m0, o0, d, i, page, flags, f0, t0) && Good(m0, o0) && IsDir(o0, pd) && pd != d && i <= m <= n && i < n <= UPAGES && next == i + 1
      requires MappedUpTo(m0, pd, m, n) && AllToCopy(m0, pd, d, page, flags, m)
      modifies this
      ensures panicked <==> i == m
      ensures panicked ==> !ok && freelist == old(freelist) && mem == old(mem)
      ensures ok ==> Copying(m0, o0, d, next, page, flags, f0, t0)
      ensures !ok && !panicked ==> Unfinished(m0, o0, d, i) && Short(f0, t0, 0, m, m)
    {
      ghost var f1, t1 := |freelist|, Tabs(mem, d);
      TakenData(o0, owner, d, 0, i, 0);
      var pte := ParentEntry(pd, d, i, m0, o0, page, flags);
      if !Present(pte) {
        return false, true;
      }
      panicked := false;
      assert ToCopy(m0, pd, d, page, flags, i);
      ok := CopyPage(pd, d, i, pte, next, m0, o0, page, flags);
      if ok {
        SpentNext(f0, t0, f1, t1, |freelist|, Tabs(mem, d), 0, i, next, i, next);
      } else {
        SpentShort(f0, t0, f1, t1, 0, i, m, i, next, m);
      }
    }

    /** The loop of copyuvm over the n pages below sz, the first m of which are mapped: v counts the pages copied. */
    method CopyPages(pd: nat, d: nat, sz: nat, ghost n: nat, ghost m: nat, ghost page: nat -> Page, ghost flags: nat -> nat)
      returns (ok: bool, panicked: bool, ghost v: nat)
      requires Valid() && IsDir(owner, pd) && IsDir(owner, d) && pd != d && n == PagesUp(sz) <= UPAGES
      requires MappedUpTo(mem, pd, m, n) && AllToCopy(mem, pd, d, page, flags, m)
      modifies this
      ensures v <= m && (ok ==> v == n) && (panicked ==> !ok && v == m < n)
      ensures ok ==> Copying(old(mem), old(owner), d, v, page, flags, |old(freelist)|, Tabs(old(mem), d))
      ensures !ok && !panicked ==> Unfinished(old(mem), old(owner), d, v) && Short(|old(freelist)|, Tabs(old(mem), d), 0, m, m)
      ensures panicked ==> Spent(|old(freelist)|, Tabs(old(mem), d), |freelist|, Tabs(mem, d), 0, v, v)
    {
      ghost var m0, o0, f0, t0 := mem, owner, |freelist|, Tabs(mem, d);
      var i := 0;
      ok, panicked, v := true, false, 0;
      SpentNothing(f0, t0, 0);
      while i * PGSIZE < sz
        invariant 0 <= i <= m && v == i && ok && !panicked && Copying(m0, o0, d, v, page, flags, f0, t0)
      {
        Below(i, sz);
        ghost var next := i + 1;
        ok, panicked := CopyTurn(pd, d, i, next, m0, o0, n, m, page, flags, f0, t0);
        if !ok {
          return;
        }
        i, v := i + 1, next;
      }
      Below(i, sz);
    }

    /**
     A copy of the user part of pd, sz bytes long: the same bytes with the same flags on pages
     that were free, and the kernel half.  The n pages below sz need as many pages, a table for
     every 1024 of them, 64 tables for the kernel half and the directory; with fewer free pages,
     and only then, the result is 0 and every page is back where it was.  If only the first m
     of them are mapped the call panics, unless there are too few pages even for those.
     */
    method Copyuvm(pd: nat, sz: nat) returns (d: nat, panicked: bool, ghost n: nat, ghost m: nat)
      requires Valid() && IsDir(owner, pd) && sz <= KERNBASE && 0x8_0100 < data < 0x8_e000
      modifies this
      ensures n == (sz + 4095) / 4096 && MappedUpTo(old(mem), pd, m, n)
      ensures panicked <==> m < n && |old(freelist)| >= m + (m + 1023) / 1024 + 65
      ensures !panicked ==> Valid() && SameMaps(old(mem), old(owner), mem, 0) && SameData(old(mem), old(owner), mem)
      ensures !panicked ==> (d != 0 <==> m == n && |old(freelist)| >= n + (n + 1023) / 1024 + 65)
      ensures !panicked && d == 0 ==> owner == old(owner)
      ensures !panicked && d != 0 ==> Copied(old(mem), old(owner), mem, owner, pd, d, n, data)
      ensures !panicked && d != 0 ==> |freelist| == |old(freelist)| - n - (n + 1023) / 1024 - 65
    {
      n, panicked := PagesUp(sz), false;
      m := FirstGap(mem, pd, n);
      ghost var m0, o0 := mem, owner;
      d := Setupkvm();
      if d == 0 {
        return;
      }
      var ok;
      ok, panicked := CopyInto(pd, d, sz, n, m, m0, o0);
      if !ok {
        d := 0;
      }
    }

    /** Fill the new directory d with the pages of pd, or take it down again. */
    method CopyInto(pd: nat, d: nat, sz: nat, ghost n: nat, ghost m: nat, ghost m0: Mem, ghost o0: Owners) returns (ok: bool, panicked: bool)
      requires 0x8_0100 < data < 0x8_e000 && Building(m0, o0, d, Kmap(data), 4) && Tabs(mem, d) == RegionTabs(Kmap(data), 4)
      requires Good(m0, o0) && IsDir(o0, pd) && sz <= KERNBASE && n == PagesUp(sz) && MappedUpTo(m0, pd, m, n)
      modifies this
      ensures panicked <==> m < n && |old(freelist)| >= m + (m + 1023) / 1024
      ensures ok <==> m == n && |old(freelist)| >= n + (n + 1023) / 1024
      ensures !panicked ==> Valid() && SameMaps(m0, o0, mem, 0) && SameData(m0, o0, mem)
      ensures !panicked && !ok ==> owner == o0
      ensures ok ==> Copied(m0, o0, mem, owner, pd, d, n, data) && |freelist| == |old(freelist)| - n - (n + 1023) / 1024
    {
      ghost var m1, o1, f1 := mem, owner, |freelist|;
      ghost var page, flags := (v: nat) => PageAt(m1, pd, v), (v: nat) => Flags(Mapped(m1, pd, v));
      NothingCopied(m0, o0, m1, o1, pd, d, m, data, page, flags);
      StillUpTo(m0, o0, m1, pd, d, m, n);
      ghost var v;
      ok, panicked, v := CopyPages(pd, d, sz, n, m, page, flags);
      CopyCounted(f1, Tabs(m1, d), |freelist|, Tabs(mem, d), m, data, ok || panicked);
      if ok {
        CopiedAll(m0, o0, m1, o1, mem, owner, pd, d, n, data, page, flags);
      } else if !panicked {
        CopyUndone(m0, o0, m1, o1, mem, owner, d, Kmap(data), v);
        Abandon(d, m0, o0);
      }
    }
  }
}
