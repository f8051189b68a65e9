/** malloc, free and morecore (umalloc.c). */
module Umalloc {
  import opened Params
  import opened HeapRing

  const HEADER := 8
  const NALLOC := 4096

  /** Units for nbytes of data and the header, in unsigned arithmetic. */
  function Nunits(nbytes: nat): (n: nat)
    ensures n > 0
  {
    (nbytes + HEADER - 1) % UINT_MOD / HEADER + 1
  }

  /** The units hold nbytes, with less than one to spare, exactly if rounding up does not wrap around. */
  lemma EnoughIff(nbytes: nat)
    requires nbytes < UINT_MOD
    ensures nbytes <= (Nunits(nbytes) - 1) * HEADER <==> nbytes + HEADER - 1 < UINT_MOD
    ensures nbytes + HEADER - 1 < UINT_MOD ==> (Nunits(nbytes) - 1) * HEADER < nbytes + HEADER
  {
    var r := (nbytes + HEADER - 1) % UINT_MOD;
    if nbytes + HEADER - 1 < UINT_MOD {
      assert r == nbytes + HEADER - 1;
    } else {
      assert r == nbytes + HEADER - 1 - UINT_MOD;
    }
  }

  function CoreUnits(nu: nat): nat {
    if nu < NALLOC then NALLOC else nu
  }

  datatype Snapshot = Snapshot(mem: Mem, free: set<nat>, alloc: map<nat, nat>, home: map<nat, nat>, sbrks: nat)

  lemma TakenBack(m: map<nat, nat>, k: nat, v: nat)
    requires k !in m
    ensures m[k := v] - {k} == m
  {
  }

  /** No free block has n units. */
  ghost predicate AllSmall(mem: Mem, free: set<nat>, n: nat) {
    forall b :: b in free ==> b in mem && mem[b].size < n
  }

  class Heap {
    const base: nat
    var freep: nat
    var mem: Mem
    ghost var free: set<nat>
    ghost var alloc: map<nat, nat>
    ghost var home: map<nat, nat>
    ghost var sbrks: nat

    constructor (base: nat)
      requires base > 0
      ensures Valid() && this.base == base && alloc == map[] && home == map[] && sbrks == 0
    {
      this.base := base;
      freep, mem := 0, map[base := Header(0, 0)];
      free, alloc, home, sbrks := {}, map[], map[], 0;
    }

    /** A nil freep means that nothing has been allocated yet. */
    ghost predicate Valid()
      reads this
    {
      && base > 0
      && if freep == 0 then base in mem && free == {} && alloc == map[] && home == map[]
         else Inv(base, mem, free, alloc, home) && (freep in free || freep == base)
    }

    /** The blocks a still have the units and the data they had. */
    ghost predicate DataKept(a: set<nat>, home0: map<nat, nat>, mem0: Mem)
      reads this
    {
      UnitsKept(a, home0, mem0, home, mem)
    }

    /** The program stores into the data of a block it has been given. */
    method Store(u: nat, x: Header)
      requires Valid() && freep != 0 && u in home && home[u] in alloc && u != home[u]
      modifies this`mem
      ensures Valid() && mem == old(mem)[u := x]
    {
      DataStored(base, mem, free, alloc, home, u, x);
      mem := mem[u := x];
    }

    /** The node after which bp belongs. */
    method Search(bp: nat) returns (p: nat)
      requires Valid() && freep != 0 && base < bp && bp !in free
      ensures Before(base, free, p, bp)
    {
      p := freep;
      ghost var t := BeforeExists(base, free, bp);
      ghost var top := Top(base, free);
      while true
        invariant p in free || p == base
        decreases Distance(t, p, top)
      {
        assert Leads(base, mem, free, p);
        if bp > p && bp < mem[p].ptr {
          break;
        }
        if p >= mem[p].ptr && (bp > p || bp < mem[p].ptr) {
          break;
        }
        Closer(base, free, t, p, mem[p].ptr, top);
        p := mem[p].ptr;
      }
    }

    /** Put bp into the ring after p, joining neighbours. */
    method Relink(p: nat, bp: nat)
      requires p in mem && bp in mem && p != bp && mem[p].ptr in mem && mem[p].ptr != bp
      modifies this`mem, this`freep
      ensures mem == Freed(old(mem), p, bp) && freep == p
    {
      var q := mem[p].ptr;
      if bp + mem[bp].size == q {
        mem := mem[bp := mem[bp].(size := mem[bp].size + mem[q].size)];
        mem := mem[bp := mem[bp].(ptr := mem[q].ptr)];
      } else {
        mem := mem[bp := mem[bp].(ptr := q)];
      }
      if p + mem[p].size == bp {
        mem := mem[p := mem[p].(size := mem[p].size + mem[bp].size)];
        mem := mem[p := mem[p].(ptr := mem[bp].ptr)];
      } else {
        mem := mem[p := mem[p].(ptr := bp)];
      }
      freep := p;
    }

    /** Return the block whose data starts at ap. */
    method Free(ap: nat)
      requires Valid() && freep != 0 && ap > 0 && ap - 1 in alloc
      modifies this`mem, this`freep, this`free, this`alloc, this`home
      ensures Valid() && freep != 0 && alloc == old(alloc) - {ap - 1} && OnlyFreed(free, alloc, old(home), home)
      ensures DataKept(alloc.Keys, old(home), old(mem))
      ensures !AllSmall(mem, free, old(alloc)[ap - 1])
    {
      var bp := ap - 1;
      assert base < bp by {
        assert Covers(mem, home, bp) && Belongs(home, bp, bp);
        assert Inside(base, mem, free + alloc.Keys, home, bp);
      }
      var p := Search(bp);
      ghost var free', home' := FreedInv(base, mem, free, alloc, home, p, bp);
      FreedLinks(base, mem, free, alloc, home, p, bp);
      FreedKept(base, mem, free, alloc, home, home', p, bp, free');
      Relink(p, bp);
      free, alloc, home := free', alloc - {bp}, home';
    }

    /** sbrk's memory as a block of n units, header filled in. */
    method AddCore(core: nat, n: nat)
      requires Valid() && freep != 0 && n > 0 && base < core && Units(core, n) !! home.Keys
      modifies this`mem, this`alloc, this`home
      ensures Valid() && alloc == old(alloc)[core := n] && core !in old(alloc) && home.Keys == old(home.Keys) + Units(core, n)
      ensures DataKept(old(alloc.Keys), old(home), old(mem))
    {
      CoreAdded(base, mem, free, alloc, home, core, n);
      CoreKept(base, mem, free, alloc, home, core, n);
      mem, alloc, home := WithCore(mem, core, n), alloc[core := n], NewHome(home, core, n);
    }

    /** Ask for more memory.  `core` is where sbrk puts it, 0 when it fails. */
    method Morecore(nu: nat, core: nat) returns (p: nat)
      requires Valid() && freep != 0 && nu > 0
      requires core != 0 ==> base < core && Units(core, CoreUnits(nu)) !! home.Keys
      modifies this`mem, this`freep, this`free, this`alloc, this`home, this`sbrks
      ensures Valid() && freep != 0 && alloc == old(alloc) && sbrks == old(sbrks) + 1
      ensures core == 0 ==> p == 0 && freep == old(freep) && mem == old(mem) && free == old(free) && home == old(home)
      ensures core != 0 ==> p == freep && home.Keys == old(home.Keys) + Units(core, CoreUnits(nu))
      ensures core != 0 ==> !AllSmall(mem, free, nu)
      ensures core != 0 ==> DataKept(alloc.Keys, old(home), old(mem))
    {
      var n := if nu < NALLOC then NALLOC else nu;
      sbrks := sbrks + 1;
      if core == 0 {
        return 0;
      }
      ghost var a := alloc;
      AddCore(core, n);
      TakenBack(a, core, n);
      ghost var home1, mem1 := home, mem;
      Free(core + 1);
      UnitsTrans(a.Keys, old(home), old(mem), home1, mem1, home, mem);
      return freep;
    }

    /** Unlink the block p, which is exactly as large as asked for. */
    method TakeBlock(prevp: nat, p: nat)
      requires Valid() && freep != 0 && p in free && (prevp in free || prevp == base) && mem[prevp].ptr == p
      modifies this`mem, this`freep, this`free, this`alloc
      ensures Valid() && freep != 0 && p !in old(alloc) && alloc == old(alloc)[p := old(mem)[p].size]
      ensures DataKept(old(alloc.Keys), old(home), old(mem))
    {
      TakeWhole(base, mem, free, alloc, home, prevp, p);
      assert Leads(base, mem, free, prevp);
      ghost var n := mem[p].size;
      WholeKept(base, mem, free, alloc, home, prevp, mem[prevp].(ptr := mem[p].ptr));
      mem := mem[prevp := mem[prevp].(ptr := mem[p].ptr)];
      free, alloc := free - {p}, alloc[p := n];
      freep := prevp;
    }

    /** Cut n units off the end of the larger block p. */
    method SplitBlock(prevp: nat, p: nat, n: nat) returns (t: nat)
      requires Valid() && freep != 0 && p in free && (prevp in free || prevp == base) && 0 < n < mem[p].size
      modifies this`mem, this`freep, this`alloc, this`home
      ensures Valid() && freep != 0 && t !in old(alloc) && alloc == old(alloc)[t := n] && home.Keys == old(home.Keys)
      ensures DataKept(old(alloc.Keys), old(home), old(mem))
    {
      ghost var t0 := p + mem[p].size - n;
      ghost var m1, h1 := TailDone(base, mem, free, alloc, home, p, n, t0);
      t := CutTail(p, n);
      alloc, home := alloc[t := n], h1;
      freep := prevp;
    }

    /** Shorten p by n units and give what is cut off a header. */
    method CutTail(p: nat, n: nat) returns (t: nat)
      requires p in mem && 0 < n < mem[p].size && p + mem[p].size - n in mem
      modifies this`mem
      ensures t == p + old(mem)[p].size - n && mem == Cut(old(mem), p, n)
    {
      mem := mem[p := mem[p].(size := mem[p].size - n)];
      t := p + mem[p].size;
      mem := mem[t := mem[t].(size := n)];
    }

    /** Every node the walk has passed since freep is too small. */
    ghost predicate Looked(prevp: nat, p: nat, n: nat)
      reads this
    {
      && Valid() && freep != 0 && (prevp in free || prevp == base) && (p in free || p == base)
      && mem[prevp].ptr == p
      && forall x :: (x in free || x == base) && Passed(freep, p, x) ==> mem[x].size < n
    }

    lemma LookStart(n: nat)
      requires Valid() && freep != 0
      ensures Looked(freep, mem[freep].ptr, n)
    {
      assert Leads(base, mem, free, freep);
    }

    lemma LookNext(prevp: nat, p: nat, n: nat, top: nat)
      requires Looked(prevp, p, n) && p != freep && mem[p].size < n && base <= top && forall z :: z in free ==> z <= top
      ensures Looked(p, mem[p].ptr, n) && 0 <= Distance(freep, mem[p].ptr, top) < Distance(freep, p, top)
    {
      assert Leads(base, mem, free, p);
      Closer(base, free, freep, p, mem[p].ptr, top);
      var q := mem[p].ptr;
      forall x | (x in free || x == base) && Passed(freep, q, x) ensures mem[x].size < n {
        PassedNext(base, free, freep, p, q, x);
      }
    }

    /** Back at freep with nothing found, every free block is too small. */
    lemma LookedAll(prevp: nat, n: nat)
      requires Looked(prevp, freep, n) && mem[freep].size < n
      ensures AllSmall(mem, free, n)
    {
      forall b | b in free ensures mem[b].size < n {
        PassedAll(freep, b);
      }
    }

    /** Take n units from p, the whole block or its tail. */
    method Take(prevp: nat, p: nat, n: nat) returns (b: nat)
      requires Valid() && freep != 0 && p in free && (prevp in free || prevp == base) && mem[prevp].ptr == p && 0 < n <= mem[p].size
      modifies this`mem, this`freep, this`free, this`alloc, this`home
      ensures Valid() && freep != 0 && b !in old(alloc) && alloc == old(alloc)[b := n] && home.Keys == old(home.Keys)
      ensures DataKept(old(alloc.Keys), old(home), old(mem))
    {
      if mem[p].size == n {
        TakeBlock(prevp, p);
        b := p;
      } else {
        b := SplitBlock(prevp, p, n);
      }
    }

    /** The state of the heap when malloc was called, compared with now. */
    ghost predicate Since(before: Snapshot, core: nat, n: nat, grown: bool)
      reads this
    {
      && alloc == before.alloc && DataKept(alloc.Keys, before.home, before.mem)
      && (!grown ==> sbrks == before.sbrks && home == before.home && free == before.free)
      && (!grown ==> forall b :: b in free ==> b in before.mem && b in mem && mem[b] == before.mem[b])
      && (grown ==> sbrks == before.sbrks + 1 && core != 0 && home.Keys == before.home.Keys + Units(core, CoreUnits(n)))
      && (grown ==> AllSmall(before.mem, before.free, n) && !AllSmall(mem, free, n))
    }

    ghost function Now(): Snapshot
      reads this
    {
      Snapshot(mem, free, alloc, home, sbrks)
    }

    /** The first call sets up the ring. */
    method Init()
      requires Valid()
      modifies this`mem, this`freep
      ensures Valid() && freep != 0 && Since(old(Now()), 0, 1, false)
    {
      if freep == 0 {
        mem := mem[base := Header(base, 0)];
        freep := base;
        assert Leads(base, mem, free, base);
      } else {
        forall u | u in home ensures u in mem {
          assert Inside(base, mem, free + alloc.Keys, home, u);
        }
      }
    }

    /** What malloc leaves, compared with the heap when it was called. */
    ghost predicate Outcome(before: Snapshot, core: nat, n: nat, ap: nat)
      reads this
    {
      && Valid() && freep != 0 && before.sbrks <= sbrks <= before.sbrks + 1
      && DataKept(before.alloc.Keys, before.home, before.mem)
      && (ap == 0 <==> core == 0 && AllSmall(before.mem, before.free, n))
      && (ap == 0 ==> alloc == before.alloc && home == before.home && AllSmall(mem, free, n))
      && (ap != 0 ==> ap - 1 !in before.alloc && alloc == before.alloc[ap - 1 := n])
      && home.Keys == before.home.Keys + (if sbrks == before.sbrks || core == 0 then {} else Units(core, CoreUnits(n)))
      && (sbrks > before.sbrks <==> AllSmall(before.mem, before.free, n))
    }

    /** Nothing was found: get more memory and go on from there. */
    method Grow(ghost prevp: nat, n: nat, core: nat, ghost before: Snapshot) returns (p: nat)
      requires Looked(prevp, freep, n) && mem[freep].size < n && Since(before, core, n, false)
      requires core != 0 ==> base < core && Units(core, CoreUnits(n)) !! home.Keys
      modifies this`mem, this`freep, this`free, this`alloc, this`home, this`sbrks
      ensures p == 0 ==> Outcome(before, core, n, 0)
      ensures p != 0 ==> p == freep && p in mem && Since(before, core, n, true) && Looked(p, mem[p].ptr, n)
    {
      LookedAll(prevp, n);
      assert AllSmall(before.mem, before.free, n);
      ghost var a, home1, mem1 := alloc, home, mem;
      p := Morecore(n, core);
      if core != 0 {
        UnitsTrans(a.Keys, before.home, before.mem, home1, mem1, home, mem);
      }
      LookStart(n);
    }

    /** The walk has found p large enough. */
    method Serve(prevp: nat, p: nat, n: nat, ghost core: nat, ghost before: Snapshot,
        ghost grown: bool) returns (ap: nat)
      requires Looked(prevp, p, n) && 0 < n <= mem[p].size && Since(before, core, n, grown)
      modifies this`mem, this`freep, this`free, this`alloc, this`home
      ensures ap != 0 && Outcome(before, core, n, ap)
    {
      ghost var a, home1, mem1 := alloc, home, mem;
      var b := Take(prevp, p, n);
      UnitsTrans(a.Keys, before.home, before.mem, home1, mem1, home, mem);
      ap := b + 1;
    }

    /** The loop of malloc. */
    method Walk(nunits: nat, core: nat, ghost before: Snapshot) returns (ap: nat)
      requires Valid() && freep != 0 && nunits > 0 && Since(before, core, nunits, false)
      requires core != 0 ==> base < core && Units(core, CoreUnits(nunits)) !! home.Keys
      modifies this`mem, this`freep, this`free, this`alloc, this`home, this`sbrks
      ensures Outcome(before, core, nunits, ap)
    {
      var prevp := freep;
      ghost var grown := false;
      ghost var top := Top(base, free);
      LookStart(nunits);
      var p := mem[prevp].ptr;
      while true
        invariant Looked(prevp, p, nunits) && Since(before, core, nunits, grown)
        invariant base <= top && forall z :: z in free ==> z <= top
        decreases !grown, Distance(freep, p, top)
      {
        if mem[p].size >= nunits {
          ap := Serve(prevp, p, nunits, core, before, grown);
          return;
        }
        if p == freep {
          LookedAll(prevp, nunits);
          p := Grow(prevp, nunits, core, before);
          if p == 0 {
            return 0;
          }
          grown := true;
          top := Top(base, free);
        } else {
          LookNext(prevp, p, nunits, top);
        }
        prevp, p := p, mem[p].ptr;
      }
    }

    /**
     Allocate nbytes.  `core` is where sbrk would put more memory, 0 if it would fail; sbrk is
     asked at most once, exactly if no free block is large enough.  The call fails exactly if
     sbrk does then, and leaves the allocated blocks as they were.
     */
    method Malloc(nbytes: nat, core: nat) returns (ap: nat)
      requires Valid() && nbytes < UINT_MOD
      requires core != 0 ==> base < core && Units(core, CoreUnits(Nunits(nbytes))) !! home.Keys
      modifies this`mem, this`freep, this`free, this`alloc, this`home, this`sbrks
      ensures Valid() && freep != 0 && old(sbrks) <= sbrks <= old(sbrks) + 1
      ensures DataKept(old(alloc.Keys), old(home), old(mem))
      ensures ap == 0 <==> core == 0 && AllSmall(old(mem), old(free), Nunits(nbytes))
      ensures ap == 0 ==> alloc == old(alloc) && home == old(home) && AllSmall(mem, free, Nunits(nbytes))
      ensures ap != 0 ==> ap - 1 !in old(alloc) && alloc == old(alloc)[ap - 1 := Nunits(nbytes)]
      ensures home.Keys == old(home.Keys) + if sbrks == old(sbrks) || core == 0 then {} else Units(core, CoreUnits(Nunits(nbytes)))
      ensures sbrks > old(sbrks) <==> AllSmall(old(mem), old(free), Nunits(nbytes))
    {
      var nunits := (nbytes + HEADER - 1) % UINT_MOD / HEADER + 1;
      ghost var before := Now();
      Init();
      ap := Walk(nunits, core, before);
    }
  }
}
