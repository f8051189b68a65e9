/**
 Two-level page tables over physical pages (vm.c), and which page is used for what.  Addresses
 are counted in pages; a page holds 1024 32-bit words, so page tables and user data share one
 memory.  `owner` gives every allocatable page exactly one use.
 */
module VmPages {
  const ENTRIES := 1024
  const UPAGES := 0x8_0000
  const VPAGES := 0x10_0000

  type Page = seq<nat>
  type Mem = map<nat, Page>

  /** Free, a page directory, the table of a directory's entry i, a user page at v, or in a caller's hands. */
  datatype Owner = Free | Dir | Tab(dir: nat, i: nat) | User(dir: nat, v: nat) | Held

  type Owners = map<nat, Owner>

  predicate Present(w: nat) {
    w % 2 == 1
  }

  function Addr(w: nat): nat {
    w / 4096
  }

  function Flags(w: nat): nat {
    w % 4096
  }

  /** pa | perm | PTE_P for a page-aligned pa. */
  function Entry(pa: nat, perm: nat): nat {
    pa * 4096 + if Present(perm) then perm else perm + 1
  }

  lemma EntryParts(pa: nat, perm: nat)
    requires perm < 4096
    ensures Present(Entry(pa, perm)) && Addr(Entry(pa, perm)) == pa
    ensures Flags(Entry(pa, perm)) == if Present(perm) then perm else perm + 1
  {
  }

  function Zeros(): (p: Page)
    ensures |p| == ENTRIES && forall i :: 0 <= i < 1024 ==> p[i] == 0
  {
    seq(ENTRIES, _ => 0)
  }

  /** What kfree leaves in a page: bytes of 1, and in the first word the next free page. */
  function Junk(next: nat): (p: Page)
    ensures |p| == ENTRIES && p[0] == next && forall i :: 1 <= i < 1024 ==> p[i] == 0x0101_0101
  {
    [next] + seq(ENTRIES - 1, _ => 0x0101_0101)
  }

  function Word(mem: Mem, p: nat, i: nat): nat {
    if p in mem && i < |mem[p]| then mem[p][i] else 0
  }

  function Pde(mem: Mem, pd: nat, v: nat): nat {
    Word(mem, pd, v / ENTRIES)
  }

  /** The page-table entry for virtual page v, 0 when there is no table. */
  function Pte(mem: Mem, pd: nat, v: nat): nat {
    if Present(Pde(mem, pd, v)) then Word(mem, Addr(Pde(mem, pd, v)), v % ENTRIES) else 0
  }

  /** The translation of virtual page v, 0 when it is not mapped. */
  function Mapped(mem: Mem, pd: nat, v: nat): nat {
    if Present(Pte(mem, pd, v)) then Pte(mem, pd, v) else 0
  }

  ghost predicate IsDir(owner: Owners, pd: nat) {
    pd in owner && owner[pd].Dir?
  }

  /** Entry i of directory pd, if present, is a page owned as that table. */
  ghost predicate DirOk(mem: Mem, owner: Owners, pd: nat, i: nat) {
    var w := Word(mem, pd, i);
    Present(w) ==> Addr(w) in owner && owner[Addr(w)] == Tab(pd, i)
  }

  /** A page owned as a table is the one its directory entry names. */
  ghost predicate TabOk(mem: Mem, owner: Owners, t: nat)
    requires t in owner && owner[t].Tab?
  {
    var pd, i := owner[t].dir, owner[t].i;
    IsDir(owner, pd) && i < ENTRIES && Present(Word(mem, pd, i)) && Addr(Word(mem, pd, i)) == t
  }

  /** User page v of directory pd, if mapped, is a page owned as that user page. */
  ghost predicate PteOk(mem: Mem, owner: Owners, pd: nat, v: nat) {
    var w := Pte(mem, pd, v);
    Present(w) ==> Addr(w) in owner && owner[Addr(w)] == User(pd, v)
  }

  ghost predicate UserOk(mem: Mem, owner: Owners, p: nat)
    requires p in owner && owner[p].User?
  {
    var pd, v := owner[p].dir, owner[p].v;
    IsDir(owner, pd) && v < UPAGES && Present(Pte(mem, pd, v)) && Addr(Pte(mem, pd, v)) == p
  }

  /** Directory entries and pages owned as tables correspond one to one. */
  ghost predicate Tables(mem: Mem, owner: Owners) {
    && (forall pd, i {:trigger DirOk(mem, owner, pd, i)} :: IsDir(owner, pd) && 0 <= i < ENTRIES ==> DirOk(mem, owner, pd, i))
    && (forall t {:trigger TabOk(mem, owner, t)} :: t in owner && owner[t].Tab? ==> TabOk(mem, owner, t))
  }

  /** User-half mappings and pages owned as user pages correspond one to one. */
  ghost predicate Users(mem: Mem, owner: Owners) {
    && (forall pd, v {:trigger PteOk(mem, owner, pd, v)} :: IsDir(owner, pd) && 0 <= v < UPAGES ==> PteOk(mem, owner, pd, v))
    && (forall p {:trigger UserOk(mem, owner, p)} :: p in owner && owner[p].User? ==> UserOk(mem, owner, p))
  }

  ghost predicate Pages(mem: Mem, owner: Owners) {
    forall p :: p in owner ==> 0 < p && p in mem && |mem[p]| == ENTRIES
  }

  ghost predicate FreeList(freelist: seq<nat>, owner: Owners) {
    && (forall p :: p in owner && owner[p].Free? <==> p in freelist)
    && (forall i, j :: 0 <= i < j < |freelist| ==> freelist[i] != freelist[j])
  }

  ghost predicate LinkAt(mem: Mem, list: seq<nat>, i: nat)
    requires i < |list|
  {
    Word(mem, list[i], 0) == if i + 1 < |list| then list[i + 1] else 0
  }

  /** The free pages are linked through their first words from head, 0 being nil. */
  ghost predicate Threaded(mem: Mem, head: nat, list: seq<nat>) {
    && head == (if list == [] then 0 else list[0])
    && forall i {:trigger LinkAt(mem, list, i)} :: 0 <= i < |list| ==> LinkAt(mem, list, i)
  }

  lemma ThreadPush(mem: Mem, head: nat, list: seq<nat>, p: nat)
    requires Threaded(mem, head, list) && p !in list
    ensures Threaded(mem[p := Junk(head)], p, [p] + list)
  {
    var m, l := mem[p := Junk(head)], [p] + list;
    forall i | 0 <= i < |l| ensures LinkAt(m, l, i) {
      if i > 0 {
        assert LinkAt(mem, list, i - 1);
      }
    }
  }

  lemma ThreadPop(mem: Mem, head: nat, list: seq<nat>)
    requires Threaded(mem, head, list) && list != []
    ensures head == list[0] && Threaded(mem, Word(mem, head, 0), list[1..])
  {
    assert LinkAt(mem, list, 0);
    forall i | 0 <= i < |list| - 1 ensures LinkAt(mem, list[1..], i) {
      assert LinkAt(mem, list, i + 1);
    }
  }

  /** Writing a page that is not free leaves the list alone. */
  lemma ThreadOther(mem: Mem, head: nat, list: seq<nat>, q: nat, row: Page)
    requires Threaded(mem, head, list) && q !in list
    ensures Threaded(mem[q := row], head, list)
  {
    var m := mem[q := row];
    forall i | 0 <= i < |list| ensures LinkAt(m, list, i) {
      assert LinkAt(mem, list, i);
    }
  }

  ghost predicate Good(mem: Mem, owner: Owners) {
    Pages(mem, owner) && Tables(mem, owner) && Users(mem, owner)
  }

  // ---------------------------------------------------------------- changes

  /** Directories and tables are the same pages with the same contents. */
  ghost predicate SameTables(mem: Mem, owner: Owners, mem': Mem, owner': Owners) {
    && owner'.Keys == owner.Keys
    && forall p :: p in owner ==>
         (owner[p].Dir? || owner[p].Tab? || owner'[p].Dir? || owner'[p].Tab? ==> owner'[p] == owner[p] && p in mem && p in mem' && mem'[p] == mem[p])
  }

  lemma SamePte(mem: Mem, owner: Owners, mem': Mem, owner': Owners, pd: nat, v: nat)
    requires Tables(mem, owner) && SameTables(mem, owner, mem', owner') && IsDir(owner, pd) && v < VPAGES
    ensures Pde(mem', pd, v) == Pde(mem, pd, v) && Pte(mem', pd, v) == Pte(mem, pd, v)
  {
    assert DirOk(mem, owner, pd, v / ENTRIES);
  }

  /** Changing the contents or the use of pages that are neither directories nor tables keeps the tables. */
  lemma TablesKept(mem: Mem, owner: Owners, mem': Mem, owner': Owners)
    requires Tables(mem, owner) && SameTables(mem, owner, mem', owner')
    ensures Tables(mem', owner')
  {
    forall pd, i | IsDir(owner', pd) && 0 <= i < ENTRIES ensures DirOk(mem', owner', pd, i) {
      assert IsDir(owner, pd) && DirOk(mem, owner, pd, i);
    }
    forall t | t in owner' && owner'[t].Tab? ensures TabOk(mem', owner', t) {
      assert TabOk(mem, owner, t);
    }
  }

  /** ... and with the same user pages, everything. */
  lemma DataChanged(mem: Mem, owner: Owners, mem': Mem, owner': Owners)
    requires Good(mem, owner) && SameTables(mem, owner, mem', owner') && Pages(mem', owner')
    requires forall p :: p in owner && (owner[p].User? || owner'[p].User?) ==> owner'[p] == owner[p]
    ensures Good(mem', owner')
  {
    TablesKept(mem, owner, mem', owner');
    forall pd, v | IsDir(owner', pd) && 0 <= v < UPAGES ensures PteOk(mem', owner', pd, v) {
      assert IsDir(owner, pd) && PteOk(mem, owner, pd, v);
      SamePte(mem, owner, mem', owner', pd, v);
    }
    forall p | p in owner' && owner'[p].User? ensures UserOk(mem', owner', p) {
      assert UserOk(mem, owner, p);
      SamePte(mem, owner, mem', owner', owner[p].dir, owner[p].v);
    }
  }

  /** Page table t of pd gets a new entry j for virtual page v. */
  ghost function Poked(mem: Mem, pd: nat, v: nat, w: nat): Mem
    requires Addr(Pde(mem, pd, v)) in mem && |mem[Addr(Pde(mem, pd, v))]| == ENTRIES
  {
    var t := Addr(Pde(mem, pd, v));
    var row: Page := mem[t][v % ENTRIES := w];
    mem[t := row]
  }

  lemma PokedPte(mem: Mem, owner: Owners, pd: nat, v: nat, w: nat, pd': nat, v': nat)
    requires Good(mem, owner) && IsDir(owner, pd) && v < VPAGES && Present(Pde(mem, pd, v)) && IsDir(owner, pd') && v' < VPAGES
    ensures var t := Addr(Pde(mem, pd, v)); t in mem && |mem[t]| == ENTRIES && t in owner && owner[t] == Tab(pd, v / ENTRIES)
    ensures Pde(Poked(mem, pd, v, w), pd', v') == Pde(mem, pd', v')
    ensures Pte(Poked(mem, pd, v, w), pd', v') == if pd' == pd && v' == v then w else Pte(mem, pd', v')
  {
    assert DirOk(mem, owner, pd, v / ENTRIES) && DirOk(mem, owner, pd', v' / ENTRIES);
    var t := Addr(Pde(mem, pd, v));
    assert owner[t] == Tab(pd, v / ENTRIES);
    if Present(Pde(mem, pd', v')) && Addr(Pde(mem, pd', v')) == t && v' % ENTRIES == v % ENTRIES {
      assert v' / ENTRIES == v / ENTRIES;
    }
  }

  lemma PokedTables(mem: Mem, owner: Owners, pd: nat, v: nat, w: nat, owner': Owners)
    requires Good(mem, owner) && IsDir(owner, pd) && v < VPAGES && Present(Pde(mem, pd, v))
    requires owner'.Keys == owner.Keys
    requires forall p :: p in owner && (owner[p].Dir? || owner[p].Tab? || owner'[p].Dir? || owner'[p].Tab?) ==> owner'[p] == owner[p]
    ensures var t := Addr(Pde(mem, pd, v)); t in mem && |mem[t]| == ENTRIES
    ensures Tables(Poked(mem, pd, v, w), owner') && Pages(Poked(mem, pd, v, w), owner')
  {
    PokedPte(mem, owner, pd, v, w, pd, v);
    var m := Poked(mem, pd, v, w);
    forall p, i | IsDir(owner', p) && 0 <= i < ENTRIES ensures DirOk(m, owner', p, i) {
      assert IsDir(owner, p) && DirOk(mem, owner, p, i);
    }
    forall t | t in owner' && owner'[t].Tab? ensures TabOk(m, owner', t) {
      assert TabOk(mem, owner, t);
    }
  }

  /** Map user page v to the held page p. */
  lemma UserMapped(mem: Mem, owner: Owners, pd: nat, v: nat, p: nat, perm: nat)
    requires Good(mem, owner) && IsDir(owner, pd) && v < UPAGES && Present(Pde(mem, pd, v)) && !Present(Pte(mem, pd, v))
    requires p in owner && owner[p].Held? && perm < 4096
    ensures var t := Addr(Pde(mem, pd, v)); t in mem && |mem[t]| == ENTRIES
    ensures Good(Poked(mem, pd, v, Entry(p, perm)), owner[p := User(pd, v)])
  {
    var w, o := Entry(p, perm), owner[p := User(pd, v)];
    EntryParts(p, perm);
    PokedTables(mem, owner, pd, v, w, o);
    var m := Poked(mem, pd, v, w);
    forall d, x | IsDir(o, d) && 0 <= x < UPAGES ensures PteOk(m, o, d, x) {
      assert PteOk(mem, owner, d, x);
      PokedPte(mem, owner, pd, v, w, d, x);
    }
    forall q | q in o && o[q].User? ensures UserOk(m, o, q) {
      assert q != p ==> UserOk(mem, owner, q);
      PokedPte(mem, owner, pd, v, w, o[q].dir, o[q].v);
    }
  }

  /** Map a kernel page: whatever it refers to, no owner changes. */
  lemma KernelMapped(mem: Mem, owner: Owners, pd: nat, v: nat, w: nat)
    requires Good(mem, owner) && IsDir(owner, pd) && UPAGES <= v < VPAGES && Present(Pde(mem, pd, v))
    ensures var t := Addr(Pde(mem, pd, v)); t in mem && |mem[t]| == ENTRIES
    ensures Good(Poked(mem, pd, v, w), owner)
  {
    PokedTables(mem, owner, pd, v, w, owner);
    var m := Poked(mem, pd, v, w);
    forall d, x | IsDir(owner, d) && 0 <= x < UPAGES ensures PteOk(m, owner, d, x) {
      assert PteOk(mem, owner, d, x);
      PokedPte(mem, owner, pd, v, w, d, x);
    }
    forall q | q in owner && owner[q].User? ensures UserOk(m, owner, q) {
      assert UserOk(mem, owner, q);
      PokedPte(mem, owner, pd, v, w, owner[q].dir, owner[q].v);
    }
  }

  /** Clear the entry of user page v; its page becomes free. */
  lemma UserUnmapped(mem: Mem, owner: Owners, pd: nat, v: nat)
    requires Good(mem, owner) && IsDir(owner, pd) && v < UPAGES && Present(Pte(mem, pd, v))
    ensures Present(Pde(mem, pd, v)) && var t := Addr(Pde(mem, pd, v)); t in mem && |mem[t]| == ENTRIES
    ensures var p := Addr(Pte(mem, pd, v)); p in owner && owner[p] == User(pd, v) && Good(Poked(mem, pd, v, 0), owner[p := Free])
  {
    assert PteOk(mem, owner, pd, v);
    var p := Addr(Pte(mem, pd, v));
    var o := owner[p := Free];
    PokedTables(mem, owner, pd, v, 0, o);
    var m := Poked(mem, pd, v, 0);
    forall d, x | IsDir(o, d) && 0 <= x < UPAGES ensures PteOk(m, o, d, x) {
      assert PteOk(mem, owner, d, x);
      PokedPte(mem, owner, pd, v, 0, d, x);
    }
    forall q | q in o && o[q].User? ensures UserOk(m, o, q) {
      assert UserOk(mem, owner, q);
      PokedPte(mem, owner, pd, v, 0, o[q].dir, o[q].v);
    }
  }

  /** Entry i of directory pd now names table t. */
  ghost function WithTable(mem: Mem, pd: nat, i: nat, t: nat): Mem
    requires pd in mem && i < |mem[pd]|
  {
    var row: Page := mem[pd][i := Entry(t, 6)];
    mem[pd := row]
  }

  lemma WithTablePte(mem: Mem, owner: Owners, pd: nat, i: nat, t: nat, d: nat, v: nat)
    requires Good(mem, owner) && IsDir(owner, pd) && i < ENTRIES && !Present(Word(mem, pd, i))
    requires t in owner && owner[t].Held? && mem[t] == Zeros() && IsDir(owner, d) && v < VPAGES
    ensures Pde(WithTable(mem, pd, i, t), d, v) == if d == pd && v / ENTRIES == i then Entry(t, 6) else Pde(mem, d, v)
    ensures Pte(WithTable(mem, pd, i, t), d, v) == Pte(mem, d, v)
  {
    assert DirOk(mem, owner, d, v / ENTRIES);
    EntryParts(t, 6);
  }

  /** A zeroed page in the caller's hands becomes a page table. */
  lemma TableAdded(mem: Mem, owner: Owners, pd: nat, i: nat, t: nat)
    requires Good(mem, owner) && IsDir(owner, pd) && i < ENTRIES && !Present(Word(mem, pd, i))
    requires t in owner && owner[t].Held? && mem[t] == Zeros()
    ensures Good(WithTable(mem, pd, i, t), owner[t := Tab(pd, i)])
  {
    var m, o := WithTable(mem, pd, i, t), owner[t := Tab(pd, i)];
    EntryParts(t, 6);
    forall d, k | IsDir(o, d) && 0 <= k < ENTRIES ensures DirOk(m, o, d, k) {
      assert DirOk(mem, owner, d, k);
    }
    forall x | x in o && o[x].Tab? ensures TabOk(m, o, x) {
      assert x != t ==> TabOk(mem, owner, x);
    }
    forall d, v | IsDir(o, d) && 0 <= v < UPAGES ensures PteOk(m, o, d, v) {
      assert PteOk(mem, owner, d, v);
      WithTablePte(mem, owner, pd, i, t, d, v);
    }
    forall p | p in o && o[p].User? ensures UserOk(m, o, p) {
      assert UserOk(mem, owner, p);
      WithTablePte(mem, owner, pd, i, t, o[p].dir, o[p].v);
    }
  }

  /** A zeroed page becomes a page directory that maps nothing. */
  lemma DirAdded(mem: Mem, owner: Owners, pd: nat)
    requires Good(mem, owner) && pd in owner && owner[pd].Held? && mem[pd] == Zeros()
    ensures Good(mem, owner[pd := Dir]) && forall v :: 0 <= v < VPAGES ==> Pte(mem, pd, v) == 0
  {
    var o := owner[pd := Dir];
    forall d, k | IsDir(o, d) && 0 <= k < ENTRIES ensures DirOk(mem, o, d, k) {
      assert d != pd ==> DirOk(mem, owner, d, k);
    }
    forall x | x in o && o[x].Tab? ensures TabOk(mem, o, x) {
      assert TabOk(mem, owner, x);
    }
    forall d, v | IsDir(o, d) && 0 <= v < UPAGES ensures PteOk(mem, o, d, v) {
      assert d != pd ==> PteOk(mem, owner, d, v);
    }
    forall p | p in o && o[p].User? ensures UserOk(mem, o, p) {
      assert UserOk(mem, owner, p);
    }
  }

  /** Directory pd and its tables become pages in the caller's hands. */
  ghost function Dismantled(owner: Owners, pd: nat): Owners {
    map p | p in owner :: if p == pd || (owner[p].Tab? && owner[p].dir == pd) then Held else owner[p]
  }

  lemma DismantledGood(mem: Mem, owner: Owners, pd: nat)
    requires Good(mem, owner) && IsDir(owner, pd) && forall v :: 0 <= v < UPAGES ==> !Present(Pte(mem, pd, v))
    ensures Good(mem, Dismantled(owner, pd))
  {
    var o := Dismantled(owner, pd);
    forall d, k | IsDir(o, d) && 0 <= k < ENTRIES ensures DirOk(mem, o, d, k) {
      assert IsDir(owner, d) && DirOk(mem, owner, d, k);
    }
    forall x | x in o && o[x].Tab? ensures TabOk(mem, o, x) {
      assert TabOk(mem, owner, x);
    }
    forall d, v | IsDir(o, d) && 0 <= v < UPAGES ensures PteOk(mem, o, d, v) {
      assert IsDir(owner, d) && PteOk(mem, owner, d, v);
    }
    forall p | p in o && o[p].User? ensures UserOk(mem, o, p) {
      assert UserOk(mem, owner, p);
    }
  }

  // ---------------------------------------------------------------- what operations promise

  /** Pages of `owner` keep their use, except that free ones may have become tables of pd. */
  ghost predicate OnlyTables(owner: Owners, owner': Owners, pd: nat) {
    && owner'.Keys == owner.Keys
    && forall p :: p in owner ==> owner'[p] == owner[p] || (owner[p].Free? && owner'[p].Tab? && owner'[p].dir == pd)
  }

  /** Every directory but `but` translates as before. */
  ghost predicate SameMaps(mem: Mem, owner: Owners, mem': Mem, but: nat) {
    forall d, v {:trigger Mapped(mem', d, v)} :: IsDir(owner, d) && d != but && 0 <= v < VPAGES ==> Mapped(mem', d, v) == Mapped(mem, d, v)
  }

  /** User pages and pages in the caller's hands keep their contents. */
  ghost predicate SameData(mem: Mem, owner: Owners, mem': Mem) {
    forall p :: p in owner && (owner[p].User? || owner[p].Held?) ==> p in mem && p in mem' && mem'[p] == mem[p]
  }

  lemma DataChangedMaps(mem: Mem, owner: Owners, mem': Mem, owner': Owners)
    requires Tables(mem, owner) && SameTables(mem, owner, mem', owner')
    ensures SameMaps(mem, owner, mem', 0)
  {
    forall d, v | IsDir(owner, d) && 0 <= v < VPAGES ensures Mapped(mem', d, v) == Mapped(mem, d, v) {
      SamePte(mem, owner, mem', owner', d, v);
    }
  }

  lemma TableAddedMaps(mem: Mem, owner: Owners, pd: nat, i: nat, t: nat)
    requires Good(mem, owner) && IsDir(owner, pd) && i < ENTRIES && !Present(Word(mem, pd, i))
    requires t in owner && owner[t].Held? && mem[t] == Zeros()
    ensures SameMaps(mem, owner, WithTable(mem, pd, i, t), 0)
  {
    forall d, v | IsDir(owner, d) && 0 <= v < VPAGES ensures Mapped(WithTable(mem, pd, i, t), d, v) == Mapped(mem, d, v) {
      WithTablePte(mem, owner, pd, i, t, d, v);
    }
  }

  /** A free page t, zeroed, becomes the table for virtual page v of pd. */
  lemma NewTable(mem: Mem, owner: Owners, pd: nat, v: nat, t: nat)
    requires Good(mem, owner) && IsDir(owner, pd) && v < VPAGES && !Present(Pde(mem, pd, v)) && t in owner && owner[t].Free?
    ensures t != pd && var m0 := mem[t := Zeros()]; pd in m0 && |m0[pd]| == ENTRIES
    ensures var m, o := WithTable(mem[t := Zeros()], pd, v / ENTRIES, t), owner[t := Tab(pd, v / ENTRIES)];
      Good(m, o) && SameMaps(mem, owner, m, 0) && Pde(m, pd, v) == Entry(t, 6) && OnlyTables(owner, o, pd) && SameData(mem, owner, m)
  {
    var m0, o0 := mem[t := Zeros()], owner[t := Held];
    DataChanged(mem, owner, m0, o0);
    DataChangedMaps(mem, owner, m0, o0);
    SamePte(mem, owner, m0, o0, pd, v);
    TableAdded(m0, o0, pd, v / ENTRIES, t);
    TableAddedMaps(m0, o0, pd, v / ENTRIES, t);
    WithTablePte(m0, o0, pd, v / ENTRIES, t, pd, v);
    assert o0[t := Tab(pd, v / ENTRIES)] == owner[t := Tab(pd, v / ENTRIES)];
    var m := WithTable(m0, pd, v / ENTRIES, t);
    forall d, x | IsDir(owner, d) && 0 <= x < VPAGES ensures Mapped(m, d, x) == Mapped(mem, d, x) {
      assert IsDir(o0, d) && Mapped(m0, d, x) == Mapped(mem, d, x);
    }
  }

  /** Of the pages pa..pa+n, those mapped below UPAGES have become user pages of pd; kernel mappings give no page away. */
  ghost function Assigned(owner: Owners, pd: nat, va: nat, pa: nat, n: nat): Owners {
    map p | p in owner :: if pa <= p < pa + n && va + (p - pa) < UPAGES then User(pd, va + (p - pa)) else owner[p]
  }

  /** In pd, virtual pages va..va+n now map to pa..pa+n; the rest is as before. */
  ghost predicate MapsRange(mem: Mem, mem': Mem, pd: nat, va: nat, n: nat, pa: nat, perm: nat) {
    forall v {:trigger Mapped(mem', pd, v)} :: 0 <= v < VPAGES ==>
      Mapped(mem', pd, v) == if va <= v < va + n then Entry(pa + (v - va), perm) else Mapped(mem, pd, v)
  }

  lemma MapsRangeExtend(m0: Mem, m1: Mem, m2: Mem, pd: nat, va: nat, k: nat, pa: nat, perm: nat, v: nat, q: nat,
      next: nat)
    requires MapsRange(m0, m1, pd, va, k, pa, perm) && v == va + k && q == pa + k && next == k + 1 && MapsRange(m1, m2, pd, v, 1, q, perm)
    ensures MapsRange(m0, m2, pd, va, next, pa, perm)
  {
    forall x | 0 <= x < VPAGES
      ensures Mapped(m2, pd, x) == if va <= x < va + next then Entry(pa + (x - va), perm) else Mapped(m0, pd, x)
    {
      assert Mapped(m1, pd, x) == if va <= x < va + k then Entry(pa + (x - va), perm) else Mapped(m0, pd, x);
    }
  }

  lemma SameMapsTrans(m0: Mem, o0: Owners, m1: Mem, o1: Owners, m2: Mem, but: nat)
    requires SameMaps(m0, o0, m1, but) && SameMaps(m1, o1, m2, but) && forall d :: IsDir(o0, d) && d != but ==> IsDir(o1, d)
    ensures SameMaps(m0, o0, m2, but)
  {
    forall d, v | IsDir(o0, d) && d != but && 0 <= v < VPAGES ensures Mapped(m2, d, v) == Mapped(m0, d, v) {
      assert Mapped(m1, d, v) == Mapped(m0, d, v);
    }
  }

  lemma SameDataTrans(m0: Mem, o0: Owners, m1: Mem, o1: Owners, m2: Mem)
    requires SameData(m0, o0, m1) && SameData(m1, o1, m2)
    requires forall p :: p in o0 && (o0[p].User? || o0[p].Held?) ==> p in o1 && (o1[p].User? || o1[p].Held?)
    ensures SameData(m0, o0, m2)
  {
  }

  lemma AssignedAt(o0: Owners, o1: Owners, o2: Owners, pd: nat, va: nat, pa: nat, k: nat, v: nat, q: nat,
      next: nat, p: nat)
    requires v == va + k && q == pa + k && next == k + 1 && (v < UPAGES ==> q in o0 && o0[q].Held?) && p in o0
    requires OnlyTables(Assigned(o0, pd, va, pa, k), o1, pd) && OnlyTables(Assigned(o1, pd, v, q, 1), o2, pd)
    ensures var c := Assigned(o0, pd, va, pa, next); o2[p] == c[p] || (c[p].Free? && o2[p].Tab? && o2[p].dir == pd)
  {
    var a, b := Assigned(o0, pd, va, pa, k), Assigned(o1, pd, v, q, 1);
    assert o1[p] == a[p] || (a[p].Free? && o1[p].Tab? && o1[p].dir == pd);
    assert o2[p] == b[p] || (b[p].Free? && o2[p].Tab? && o2[p].dir == pd);
  }

  lemma AssignOneMore(o0: Owners, o1: Owners, o2: Owners, pd: nat, va: nat, pa: nat, k: nat, v: nat, q: nat, next: nat)
    requires v == va + k && q == pa + k && next == k + 1 && (v < UPAGES ==> q in o0 && o0[q].Held?)
    requires OnlyTables(Assigned(o0, pd, va, pa, k), o1, pd) && OnlyTables(Assigned(o1, pd, v, q, 1), o2, pd)
    ensures OnlyTables(Assigned(o0, pd, va, pa, next), o2, pd)
  {
    var c := Assigned(o0, pd, va, pa, next);
    forall p | p in c ensures o2[p] == c[p] || (c[p].Free? && o2[p].Tab? && o2[p].dir == pd) {
      AssignedAt(o0, o1, o2, pd, va, pa, k, v, q, next, p);
    }
  }

  /** A table made at (m1, o1), if one was needed, then page v mapped to q. */
  lemma TableThenPage(m0: Mem, o0: Owners, m1: Mem, o1: Owners, m2: Mem, pd: nat, v: nat, q: nat, perm: nat)
    requires OnlyTables(o0, o1, pd) && IsDir(o1, pd) && SameMaps(m0, o0, m1, 0) && SameData(m0, o0, m1) && IsDir(o0, pd) && 0 !in o0
    requires v < UPAGES ==> q in o0 && o0[q].Held?
    requires MapsRange(m1, m2, pd, v, 1, q, perm) && SameMaps(m1, o1, m2, pd) && SameData(m1, o1, m2)
    ensures OnlyTables(Assigned(o0, pd, v, q, 1), Assigned(o1, pd, v, q, 1), pd) && IsDir(Assigned(o1, pd, v, q, 1), pd)
    ensures MapsRange(m0, m2, pd, v, 1, q, perm) && SameMaps(m0, o0, m2, pd) && SameData(m0, o0, m2)
  {
    SameMapsTrans(m0, o0, m1, o1, m2, pd);
    SameDataTrans(m0, o0, m1, o1, m2);
    forall x | 0 <= x < VPAGES ensures Mapped(m2, pd, x) == if v <= x < v + 1 then Entry(q + (x - v), perm) else Mapped(m0, pd, x) {
      assert Mapped(m1, pd, x) == Mapped(m0, pd, x);
    }
  }

  /** User page or kernel page v of pd mapped to q: the effect of one step of mappages once the table is there. */
  lemma OnePage(mem: Mem, owner: Owners, pd: nat, v: nat, q: nat, perm: nat)
    requires Good(mem, owner) && IsDir(owner, pd) && v < VPAGES && Present(Pde(mem, pd, v)) && Mapped(mem, pd, v) == 0 && perm < 4096
    requires v < UPAGES ==> q in owner && owner[q].Held?
    ensures var t := Addr(Pde(mem, pd, v)); t in mem && |mem[t]| == ENTRIES && t in owner && owner[t].Tab?
    ensures var m, o := Poked(mem, pd, v, Entry(q, perm)), Assigned(owner, pd, v, q, 1);
      Good(m, o) && MapsRange(mem, m, pd, v, 1, q, perm) && SameMaps(mem, owner, m, pd) && SameData(mem, owner, m)
  {
    var w := Entry(q, perm);
    EntryParts(q, perm);
    PokedPte(mem, owner, pd, v, w, pd, v);
    var m, o := Poked(mem, pd, v, w), Assigned(owner, pd, v, q, 1);
    if v < UPAGES {
      UserMapped(mem, owner, pd, v, q, perm);
      assert o == owner[q := User(pd, v)];
    } else {
      KernelMapped(mem, owner, pd, v, w);
      assert o == owner;
    }
    forall d, x | IsDir(owner, d) && 0 <= x < VPAGES
      ensures Mapped(m, d, x) == if d == pd && x == v then w else Mapped(mem, d, x)
    {
      PokedPte(mem, owner, pd, v, w, d, x);
    }
  }

  /** From (m0, o0) to (m, o), virtual pages va..va+k of pd have been mapped to the pages from pa on. */
  ghost predicate RunMapped(m0: Mem, o0: Owners, m: Mem, o: Owners, pd: nat, va: nat, k: nat, pa: nat, perm: nat) {
    && MapsRange(m0, m, pd, va, k, pa, perm) && OnlyTables(Assigned(o0, pd, va, pa, k), o, pd)
    && SameMaps(m0, o0, m, pd) && SameData(m0, o0, m)
    && (forall p :: pa <= p < pa + k && va + (p - pa) < UPAGES ==> p in o0 && o0[p].Held?)
  }

  lemma RunStart(m: Mem, o: Owners, pd: nat, va: nat, pa: nat, perm: nat)
    requires Good(m, o)
    ensures RunMapped(m, o, m, o, pd, va, 0, pa, perm)
  {
    assert Assigned(o, pd, va, pa, 0) == o;
  }

  /** One more page of the run. */
  lemma RunNext(m0: Mem, o0: Owners, m1: Mem, o1: Owners, m2: Mem, o2: Owners, pd: nat, va: nat, k: nat, next: nat, pa: nat, perm: nat,
      v: nat, q: nat)
    requires RunMapped(m0, o0, m1, o1, pd, va, k, pa, perm) && v == va + k && q == pa + k && next == k + 1
    requires v < UPAGES ==> q in o0 && o0[q].Held?
    requires MapsRange(m1, m2, pd, v, 1, q, perm) && OnlyTables(Assigned(o1, pd, v, q, 1), o2, pd)
    requires SameMaps(m1, o1, m2, pd) && SameData(m1, o1, m2)
    ensures RunMapped(m0, o0, m2, o2, pd, va, next, pa, perm)
  {
    assert MapsRange(m0, m2, pd, va, next, pa, perm) by {
      MapsRangeExtend(m0, m1, m2, pd, va, k, pa, perm, v, q, next);
    }
    assert OnlyTables(Assigned(o0, pd, va, pa, next), o2, pd) by {
      AssignOneMore(o0, o1, o2, pd, va, pa, k, v, q, next);
    }
    RunTrans(m0, o0, m1, o1, m2, pd, va, k, pa);
  }

  lemma RunTrans(m0: Mem, o0: Owners, m1: Mem, o1: Owners, m2: Mem, pd: nat, va: nat, k: nat, pa: nat)
    requires OnlyTables(Assigned(o0, pd, va, pa, k), o1, pd)
    requires forall p :: pa <= p < pa + k && va + (p - pa) < UPAGES ==> p in o0 && o0[p].Held?
    requires SameMaps(m0, o0, m1, pd) && SameData(m0, o0, m1) && SameMaps(m1, o1, m2, pd) && SameData(m1, o1, m2)
    ensures SameMaps(m0, o0, m2, pd) && SameData(m0, o0, m2)
  {
    StillData(o0, o1, pd, va, pa, k);
    SameMapsTrans(m0, o0, m1, o1, m2, pd);
    SameDataTrans(m0, o0, m1, o1, m2);
  }

  /** The next page of a run is still in hand, and its address still has the translation it had. */
  lemma RunAhead(m0: Mem, o0: Owners, m1: Mem, o1: Owners, pd: nat, va: nat, k: nat, pa: nat, perm: nat, v: nat, q: nat)
    requires RunMapped(m0, o0, m1, o1, pd, va, k, pa, perm) && v == va + k < VPAGES && q == pa + k && (v < UPAGES ==> q in o0 && o0[q].Held?)
    ensures Mapped(m1, pd, v) == Mapped(m0, pd, v) && (v < UPAGES ==> q in o1 && o1[q].Held?)
  {
    assert v < UPAGES ==> q in Assigned(o0, pd, va, pa, k) && Assigned(o0, pd, va, pa, k)[q].Held?;
  }

  ghost predicate IsMapped(m: Mem, pd: nat, v: nat) {
    Mapped(m, pd, v) != 0
  }

  ghost predicate NoneMapped(m: Mem, pd: nat, lo: nat, hi: nat) {
    forall v {:trigger Mapped(m, pd, v)} :: lo <= v < hi ==> Mapped(m, pd, v) == 0
  }

  lemma NoneMappedNext(m: Mem, pd: nat, lo: nat, hi: nat, next: nat)
    requires NoneMapped(m, pd, lo, hi) && Mapped(m, pd, hi) == 0 && next == hi + 1
    ensures NoneMapped(m, pd, lo, next)
  {
  }

  // ---------------------------------------------------------------- unmapping

  /** In pd, virtual pages lo..hi are no longer mapped; the rest is as before. */
  ghost predicate ClearsRange(mem: Mem, mem': Mem, pd: nat, lo: nat, hi: nat) {
    forall v {:trigger Mapped(mem', pd, v)} :: 0 <= v < VPAGES ==>
      Mapped(mem', pd, v) == if lo <= v < hi then 0 else Mapped(mem, pd, v)
  }

  /** The user pages lo..hi of pd have become free. */
  ghost function Unassigned(owner: Owners, pd: nat, lo: nat, hi: nat): Owners {
    map p | p in owner :: if owner[p].User? && owner[p].dir == pd && lo <= owner[p].v < hi then Free else owner[p]
  }

  /** The free list after freeing the pages mapped at lo..hi one virtual page at a time. */
  ghost function Pushed(mem: Mem, pd: nat, lo: nat, hi: nat, freelist: seq<nat>): seq<nat>
    requires lo <= hi
    decreases hi - lo
  {
    if lo == hi then freelist
    else
      var rest := Pushed(mem, pd, lo, hi - 1, freelist);
      var w := Mapped(mem, pd, hi - 1);
      if w != 0 then [Addr(w)] + rest else rest
  }

  /** One mapped page of pd unmapped, its page junk and free. */
  lemma OneUnmapped(mem: Mem, owner: Owners, pd: nat, v: nat, junk: Page)
    requires |junk| == ENTRIES && Good(mem, owner) && IsDir(owner, pd) && v < UPAGES && Present(Pte(mem, pd, v))
    ensures var p, t := Addr(Pte(mem, pd, v)), Addr(Pde(mem, pd, v));
      p in owner && owner[p] == User(pd, v) && t in owner && owner[t] == Tab(pd, v / ENTRIES) && t in mem && |mem[t]| == ENTRIES
    ensures var p, t := Addr(Pte(mem, pd, v)), Addr(Pde(mem, pd, v));
      var row: Page := mem[t][v % ENTRIES := 0];
      var m, o := mem[p := junk][t := row], Unassigned(owner, pd, v, v + 1);
      o == owner[p := Free] && Good(m, o) && ClearsRange(mem, m, pd, v, v + 1) && SameMaps(mem, owner, m, pd) && SameData(mem, o, m)
  {
    UserUnmapped(mem, owner, pd, v);
    PokedPte(mem, owner, pd, v, 0, pd, v);
    var p, t := Addr(Pte(mem, pd, v)), Addr(Pde(mem, pd, v));
    var row: Page := mem[t][v % ENTRIES := 0];
    var m, o := mem[p := junk][t := row], Unassigned(owner, pd, v, v + 1);
    assert o == owner[p := Free] by {
      forall q | q in owner && owner[q] == User(pd, v) ensures q == p {
        assert UserOk(mem, owner, q);
      }
    }
    var m1 := Poked(mem, pd, v, 0);
    assert m == m1[p := junk];
    DataChanged(m1, o, m, o);
    forall d, x | IsDir(owner, d) && 0 <= x < VPAGES
      ensures Mapped(m, d, x) == if d == pd && x == v then 0 else Mapped(mem, d, x)
    {
      PokedPte(mem, owner, pd, v, 0, d, x);
      SamePte(m1, o, m, o, d, x);
    }
  }

  lemma ClearsTrans(m0: Mem, m1: Mem, m2: Mem, pd: nat, lo: nat, mid: nat, hi: nat)
    requires ClearsRange(m0, m1, pd, lo, mid) && ClearsRange(m1, m2, pd, mid, hi) && lo <= mid <= hi
    ensures ClearsRange(m0, m2, pd, lo, hi)
  {
    forall v | 0 <= v < VPAGES ensures Mapped(m2, pd, v) == if lo <= v < hi then 0 else Mapped(m0, pd, v) {
      assert Mapped(m1, pd, v) == if lo <= v < mid then 0 else Mapped(m0, pd, v);
    }
  }

  lemma UnassignedTrans(owner: Owners, pd: nat, lo: nat, mid: nat, hi: nat)
    requires lo <= mid <= hi
    ensures Unassigned(Unassigned(owner, pd, lo, mid), pd, mid, hi) == Unassigned(owner, pd, lo, hi)
  {
  }

  /** Nothing is mapped in lo..hi: clearing the range changes nothing. */
  lemma NothingThere(mem: Mem, owner: Owners, pd: nat, lo: nat, hi: nat)
    requires Good(mem, owner) && IsDir(owner, pd) && hi <= UPAGES && forall v :: lo <= v < hi ==> Mapped(mem, pd, v) == 0
    ensures Unassigned(owner, pd, lo, hi) == owner && ClearsRange(mem, mem, pd, lo, hi)
  {
    forall p | p in owner && owner[p].User? && owner[p].dir == pd ensures !(lo <= owner[p].v < hi) {
      assert UserOk(mem, owner, p);
      assert Mapped(mem, pd, owner[p].v) != 0;
    }
  }

  lemma {:induction false} PushedNothing(mem: Mem, pd: nat, lo: nat, mid: nat, hi: nat, freelist: seq<nat>)
    requires lo <= mid <= hi && forall v :: mid <= v < hi ==> Mapped(mem, pd, v) == 0
    ensures Pushed(mem, pd, lo, hi, freelist) == Pushed(mem, pd, lo, mid, freelist)
    decreases hi - mid
  {
    if mid < hi {
      PushedNothing(mem, pd, lo, mid, hi - 1, freelist);
    }
  }

  /** The pages that one directory entry covers are unmapped when it has no table. */
  lemma NoTable(mem: Mem, pd: nat, v: nat, x: nat)
    requires !Present(Pde(mem, pd, v)) && v <= x < (v / ENTRIES + 1) * ENTRIES
    ensures Mapped(mem, pd, x) == 0
  {
    assert x / ENTRIES == v / ENTRIES;
  }

  /** Mapping held pages and adding tables leaves data pages data pages and directories directories. */
  lemma StillData(o0: Owners, o1: Owners, pd: nat, va: nat, pa: nat, k: nat)
    requires OnlyTables(Assigned(o0, pd, va, pa, k), o1, pd)
    requires forall p :: pa <= p < pa + k && va + (p - pa) < UPAGES ==> p in o0 && o0[p].Held?
    ensures forall p :: p in o0 && (o0[p].User? || o0[p].Held?) ==> p in o1 && (o1[p].User? || o1[p].Held?)
    ensures forall d :: IsDir(o0, d) ==> IsDir(o1, d)
  {
    forall p | p in o0 ensures (o0[p].User? || o0[p].Held? ==> o1[p].User? || o1[p].Held?) && (o0[p].Dir? ==> o1[p].Dir?) {
      assert p in Assigned(o0, pd, va, pa, k);
    }
  }

  // ---------------------------------------------------------------- freeing a whole address space

  /** Part way through freevm: the first i tables of pd are free, the others and pd itself in hand. */
  ghost function Swept(owner: Owners, pd: nat, i: nat): Owners {
    map p | p in owner ::
      if owner[p].Tab? && owner[p].dir == pd then (if owner[p].i < i then Free else Held)
      else if p == pd then Held else owner[p]
  }

  lemma SweptStart(owner: Owners, pd: nat)
    ensures Swept(owner, pd, 0) == Dismantled(owner, pd)
  {
  }

  lemma SweptStep(mem: Mem, owner: Owners, pd: nat, i: nat, next: nat)
    requires Good(mem, owner) && IsDir(owner, pd) && i < ENTRIES && next == i + 1
    ensures var w := Word(mem, pd, i);
      if Present(w) then Addr(w) in owner && Addr(w) != pd && Swept(owner, pd, i)[Addr(w)].Held? && Swept(owner, pd, next) == Swept(owner, pd, i)[Addr(w) := Free]
      else Swept(owner, pd, next) == Swept(owner, pd, i)
  {
    var w := Word(mem, pd, i);
    assert DirOk(mem, owner, pd, i);
    forall p | p in owner && owner[p] == Tab(pd, i) ensures Present(w) && p == Addr(w) {
      assert TabOk(mem, owner, p);
    }
  }

  /** All pages of pd have become free. */
  ghost function Reclaimed(owner: Owners, pd: nat): Owners {
    map p | p in owner :: if p == pd || ((owner[p].Tab? || owner[p].User?) && owner[p].dir == pd) then Free else owner[p]
  }

  lemma SweptAll(mem: Mem, owner: Owners, pd: nat)
    requires Good(mem, owner) && IsDir(owner, pd)
    ensures Swept(Unassigned(owner, pd, 0, UPAGES), pd, ENTRIES)[pd := Free] == Reclaimed(owner, pd)
  {
    forall p | p in owner && owner[p].User? && owner[p].dir == pd ensures owner[p].v < UPAGES {
      assert UserOk(mem, owner, p);
    }
    forall p | p in owner && owner[p].Tab? && owner[p].dir == pd ensures owner[p].i < ENTRIES {
      assert TabOk(mem, owner, p);
    }
  }

  /** The user pages of pd freed from (m0, o0) to m1, then its tables and itself from m1 to m2. */
  lemma AllReclaimed(m0: Mem, o0: Owners, m1: Mem, o1: Owners, m2: Mem, o2: Owners, pd: nat)
    requires Good(m0, o0) && IsDir(o0, pd) && o1 == Unassigned(o0, pd, 0, UPAGES) && o2 == Swept(o1, pd, ENTRIES)[pd := Free]
    requires SameMaps(m0, o0, m1, pd) && SameData(m0, o1, m1) && SameMaps(m1, o1, m2, pd) && SameData(m1, o2, m2)
    ensures o2 == Reclaimed(o0, pd) && SameMaps(m0, o0, m2, pd) && SameData(m0, o2, m2)
  {
    SweptAll(m0, o0, pd);
    SameMapsTrans(m0, o0, m1, o1, m2, pd);
    forall p | p in o2 && (o2[p].User? || o2[p].Held?) ensures p in m0 && p in m2 && m2[p] == m0[p] {
      assert o1[p].User? || o1[p].Held?;
    }
  }

  /** A held page freed: junk in it changes no table. */
  lemma HeldFreed(mem: Mem, owner: Owners, p: nat, junk: Page)
    requires |junk| == ENTRIES && Good(mem, owner) && p in owner && owner[p].Held?
    ensures Good(mem[p := junk], owner[p := Free]) && SameMaps(mem, owner, mem[p := junk], 0)
    ensures SameData(mem, owner[p := Free], mem[p := junk])
  {
    DataChanged(mem, owner, mem[p := junk], owner[p := Free]);
    DataChangedMaps(mem, owner, mem[p := junk], owner[p := Free]);
  }

  /** Undoing the building of a directory from one free page and new tables gives back the pages exactly. */
  lemma ReclaimedNew(mem: Mem, o0: Owners, o1: Owners, pd: nat)
    requires Good(mem, o0) && pd in o0 && o0[pd].Free? && OnlyTables(o0[pd := Dir], o1, pd)
    ensures Reclaimed(o1, pd) == o0
  {
    forall p | p in o0 ensures Reclaimed(o1, pd)[p] == o0[p] {
      assert o0[p].Tab? ==> TabOk(mem, o0, p);
      assert o0[p].User? ==> UserOk(mem, o0, p);
      assert p in o0[pd := Dir];
    }
  }

  // ---------------------------------------------------------------- the kernel half

  /** n virtual pages from va mapped to the physical pages from pa. */
  datatype Region = Region(va: nat, n: nat, pa: nat, perm: nat)

  /** The kmap table for a kernel whose data starts at virtual page `data`. */
  function Kmap(data: nat): (rs: seq<Region>)
    requires 0x8_0100 < data < 0x8_e000
    ensures |rs| == 4
  {
    [Region(0x8_0000, 0x100, 0, 2), Region(0x8_0100, data - 0x8_0100, 0x100, 0),
     Region(data, 0x8_e000 - data, data - 0x8_0000, 2), Region(0xf_e000, 0x2000, 0xf_e000, 2)]
  }

  /** How the first k regions translate v. */
  ghost function KernelPte(rs: seq<Region>, k: nat, v: nat): nat
    requires k <= |rs|
  {
    if k == 0 then 0
    else if rs[k - 1].va <= v < rs[k - 1].va + rs[k - 1].n then Entry(rs[k - 1].pa + (v - rs[k - 1].va), rs[k - 1].perm)
    else KernelPte(rs, k - 1, v)
  }

  /** Nonempty regions in the kernel half, in order. */
  ghost predicate Ordered(rs: seq<Region>) {
    && (forall j :: 0 <= j < |rs| ==> UPAGES <= rs[j].va && 0 < rs[j].n && rs[j].va + rs[j].n <= VPAGES && rs[j].perm < 4096)
    && forall i, j :: 0 <= i < j < |rs| ==> rs[i].va + rs[i].n <= rs[j].va
  }

  /**
   What kmap means: the kernel half maps the memory below PHYSTOP at KERNBASE and the devices at
   their own addresses, all of it present and none of it for users, and everything but the
   kernel's text writable.
   */
  lemma KernelHalf(data: nat, v: nat)
    requires 0x8_0100 < data < 0x8_e000 && v < VPAGES
    ensures var w := KernelPte(Kmap(data), 4, v);
      if 0x8_0000 <= v < 0x8_e000 || 0xf_e000 <= v then
        && Present(w) && Addr(w) == (if v < 0x8_e000 then v - 0x8_0000 else v)
        && Flags(w) == if 0x8_0100 <= v < data then 1 else 3
      else w == 0
  {
    var rs := Kmap(data);
    var w := KernelPte(rs, 4, v);
    assert w == if rs[3].va <= v then Entry(v, 2) else KernelPte(rs, 3, v);
    assert KernelPte(rs, 3, v) == if data <= v < 0x8_e000 then Entry(v - 0x8_0000, 2) else KernelPte(rs, 2, v);
    assert KernelPte(rs, 2, v) == if 0x8_0100 <= v < data then Entry(v - 0x8_0000, 0) else KernelPte(rs, 1, v);
    assert KernelPte(rs, 1, v) == if 0x8_0000 <= v < 0x8_0100 then Entry(v - 0x8_0000, 2) else KernelPte(rs, 0, v);
    var pa := if v < 0x8_0000 then 0 else if v < 0x8_e000 then v - 0x8_0000 else v;
    EntryParts(pa, 0);
    EntryParts(pa, 2);
  }

  lemma {:induction false} NotYetMapped(rs: seq<Region>, k: nat, j: nat, v: nat)
    requires Ordered(rs) && k <= j < |rs| && (rs[j].va <= v < rs[j].va + rs[j].n || v < UPAGES)
    ensures KernelPte(rs, k, v) == 0
  {
    if k > 0 {
      NotYetMapped(rs, k - 1, j, v);
    }
  }

  /** A free page, zeroed, becomes a directory that maps nothing. */
  lemma NewDir(mem: Mem, owner: Owners, pd: nat)
    requires Good(mem, owner) && pd in owner && owner[pd].Free?
    ensures var m, o := mem[pd := Zeros()], owner[pd := Dir];
      Good(m, o) && SameMaps(mem, owner, m, pd) && SameData(mem, owner, m) && forall v :: 0 <= v < VPAGES ==> Mapped(m, pd, v) == 0
  {
    var m, o0 := mem[pd := Zeros()], owner[pd := Held];
    DataChanged(mem, owner, m, o0);
    DataChangedMaps(mem, owner, m, o0);
    DirAdded(m, o0, pd);
    assert o0[pd := Dir] == owner[pd := Dir];
  }

  lemma OnlyTablesTrans(o0: Owners, o1: Owners, o2: Owners, pd: nat)
    requires OnlyTables(o0, o1, pd) && OnlyTables(o1, o2, pd)
    ensures OnlyTables(o0, o2, pd)
  {
  }

  /** From (m0, o0) to (m, o), pd has become a directory holding the first k regions, made of free pages. */
  ghost predicate Built(m0: Mem, o0: Owners, m: Mem, o: Owners, pd: nat, rs: seq<Region>, k: nat) {
    && k <= |rs| && pd in o0 && o0[pd].Free? && OnlyTables(o0[pd := Dir], o, pd)
    && (forall v {:trigger Mapped(m, pd, v)} :: 0 <= v < VPAGES ==> Mapped(m, pd, v) == KernelPte(rs, k, v))
    && SameMaps(m0, o0, m, pd) && SameData(m0, o0, m)
  }

  lemma KmapOrdered(data: nat)
    requires 0x8_0100 < data < 0x8_e000
    ensures |Kmap(data)| == 4 && Ordered(Kmap(data))
  {
  }

  /** A zeroed free page is a directory with no region yet. */
  lemma BuiltStart(mem: Mem, owner: Owners, pd: nat, rs: seq<Region>)
    requires Good(mem, owner) && pd in owner && owner[pd].Free?
    ensures Good(mem[pd := Zeros()], owner[pd := Dir]) && Built(mem, owner, mem[pd := Zeros()], owner[pd := Dir], pd, rs, 0)
  {
    NewDir(mem, owner, pd);
  }

  /** Nothing is mapped yet where the next region goes. */
  lemma RegionFree(m0: Mem, o0: Owners, m: Mem, o: Owners, pd: nat, rs: seq<Region>, k: nat)
    requires Built(m0, o0, m, o, pd, rs, k) && Ordered(rs) && k < |rs|
    ensures forall v :: rs[k].va <= v < rs[k].va + rs[k].n ==> Mapped(m, pd, v) == 0
  {
    var r := rs[k];
    forall v | r.va <= v < r.va + r.n ensures Mapped(m, pd, v) == 0 {
      NotYetMapped(rs, k, k, v);
    }
  }

  /** A run of kernel pages, however far it got, is made of free pages. */
  lemma RegionKept(m0: Mem, o0: Owners, m1: Mem, o1: Owners, m2: Mem, o2: Owners, pd: nat, rs: seq<Region>, k: nat, done: nat)
    requires Built(m0, o0, m1, o1, pd, rs, k) && Ordered(rs) && k < |rs|
    requires RunMapped(m1, o1, m2, o2, pd, rs[k].va, done, rs[k].pa, rs[k].perm)
    ensures OnlyTables(o0[pd := Dir], o2, pd) && SameMaps(m0, o0, m2, pd) && SameData(m0, o0, m2)
  {
    assert Assigned(o1, pd, rs[k].va, rs[k].pa, done) == o1;
    OnlyTablesTrans(o0[pd := Dir], o1, o2, pd);
    SameMapsTrans(m0, o0, m1, o1, m2, pd);
    SameDataTrans(m0, o0, m1, o1, m2);
  }

  lemma RegionNext(m0: Mem, o0: Owners, m1: Mem, o1: Owners, m2: Mem, o2: Owners, pd: nat, rs: seq<Region>, k: nat, next: nat)
    requires Built(m0, o0, m1, o1, pd, rs, k) && Ordered(rs) && k < |rs| && next == k + 1
    requires RunMapped(m1, o1, m2, o2, pd, rs[k].va, rs[k].n, rs[k].pa, rs[k].perm)
    ensures Built(m0, o0, m2, o2, pd, rs, next)
  {
    RegionKept(m0, o0, m1, o1, m2, o2, pd, rs, k, rs[k].n);
    forall v | 0 <= v < VPAGES ensures Mapped(m2, pd, v) == KernelPte(rs, next, v) {
      assert Mapped(m1, pd, v) == KernelPte(rs, k, v);
    }
  }

  // ---------------------------------------------------------------- growing an address space

  /** Virtual page v of pd is a page that was free in o0, now holding `page` with the given flags. */
  ghost predicate Filled(o0: Owners, m: Mem, o: Owners, pd: nat, v: nat, page: Page, flags: nat) {
    var w := Mapped(m, pd, v);
    var p := Addr(w);
    && Present(w) && Flags(w) == flags
    && p in o && o[p] == User(pd, v) && p in o0 && o0[p].Free? && p in m && m[p] == page
  }

  /** Free pages have become tables of pd, its user pages lo..hi, or the page in hand; the others keep their use. */
  ghost predicate Taken(o0: Owners, o: Owners, pd: nat, lo: nat, hi: nat, hand: nat) {
    && o.Keys == o0.Keys
    && forall p :: p in o0 ==> o[p] == o0[p] || (o0[p].Free? && TakenFor(o[p], pd, lo, hi, p == hand))
  }

  ghost predicate TakenFor(u: Owner, pd: nat, lo: nat, hi: nat, hand: bool) {
    (u.Tab? && u.dir == pd) || (u.User? && u.dir == pd && lo <= u.v < hi) || (u.Held? && hand)
  }

  /** Since (m0, o0), user pages lo..hi of pd have been filled as `page` and `flags` say, and nothing else has changed. */
  ghost predicate Grown(m0: Mem, o0: Owners, m: Mem, o: Owners, pd: nat, lo: nat, hi: nat, page: nat -> Page,
      flags: nat -> nat, hand: nat) {
    && (forall v {:trigger Mapped(m, pd, v)} :: 0 <= v < VPAGES && !(lo <= v < hi) ==> Mapped(m, pd, v) == Mapped(m0, pd, v))
    && (forall v {:trigger Mapped(m, pd, v)} :: lo <= v < hi ==> Filled(o0, m, o, pd, v, page(v), flags(v)))
    && SameMaps(m0, o0, m, pd) && SameData(m0, o0, m) && Taken(o0, o, pd, lo, hi, hand)
  }

  /** A page p in hand, filled, has been mapped at v. */
  lemma GrownNext(m0: Mem, o0: Owners, m1: Mem, o1: Owners, m2: Mem, o2: Owners, pd: nat, lo: nat, v: nat,
      next: nat, page: nat -> Page, flags: nat -> nat, p: nat, perm: nat)
    requires Grown(m0, o0, m1, o1, pd, lo, v, page, flags, p) && lo <= v < UPAGES && next == v + 1 && perm < 4096
    requires p in o0 && o0[p].Free? && p in o1 && o1[p].Held? && p in m1 && m1[p] == page(v) && flags(v) == (if Present(perm) then perm else perm + 1)
    requires MapsRange(m1, m2, pd, v, 1, p, perm) && OnlyTables(Assigned(o1, pd, v, p, 1), o2, pd)
    requires SameMaps(m1, o1, m2, pd) && SameData(m1, o1, m2)
    ensures Grown(m0, o0, m2, o2, pd, lo, next, page, flags, 0)
  {
    EntryParts(p, perm);
    GrownTaken(o0, o1, o2, pd, lo, v, next, p);
    var a := Assigned(o1, pd, v, p, 1);
    forall x | lo <= x < next ensures Filled(o0, m2, o2, pd, x, page(x), flags(x)) {
      assert Mapped(m2, pd, x) == if x == v then Entry(p, perm) else Mapped(m1, pd, x);
      if x == v {
        assert p in a && a[p] == User(pd, v);
      } else {
        assert Filled(o0, m1, o1, pd, x, page(x), flags(x));
        var q := Addr(Mapped(m1, pd, x));
        assert q in a && a[q] == User(pd, x);
      }
    }
    forall x | 0 <= x < VPAGES && !(lo <= x < next) ensures Mapped(m2, pd, x) == Mapped(m0, pd, x) {
      assert Mapped(m1, pd, x) == Mapped(m0, pd, x);
    }
    SameMapsTrans(m0, o0, m1, o1, m2, pd);
    SameDataTrans(m0, o0, m1, o1, m2);
  }

  lemma GrownTaken(o0: Owners, o1: Owners, o2: Owners, pd: nat, lo: nat, v: nat, next: nat, p: nat)
    requires Taken(o0, o1, pd, lo, v, p) && lo <= v < UPAGES && next == v + 1 && p in o0 && o0[p].Free?
    requires OnlyTables(Assigned(o1, pd, v, p, 1), o2, pd)
    ensures Taken(o0, o2, pd, lo, next, 0)
  {
    var a := Assigned(o1, pd, v, p, 1);
    forall q | q in o0 ensures o2[q] == o0[q] || (o0[q].Free? && TakenFor(o2[q], pd, lo, next, q == 0)) {
      assert q in o1 && q in a;
      assert o2[q] == a[q] || (a[q].Free? && o2[q].Tab? && o2[q].dir == pd);
    }
  }

  /** Clearing lo..hi again leaves the mapping as it was; only tables stay taken. */
  lemma GrownUndone(m0: Mem, o0: Owners, m1: Mem, o1: Owners, m2: Mem, o2: Owners, pd: nat, lo: nat, v: nat,
      hi: nat, page: nat -> Page, flags: nat -> nat, hand: nat)
    requires Grown(m0, o0, m1, o1, pd, lo, v, page, flags, hand) && Good(m0, o0) && IsDir(o0, pd) && lo <= v <= hi <= UPAGES
    requires forall x :: lo <= x < hi ==> Mapped(m0, pd, x) == 0
    requires ClearsRange(m1, m2, pd, lo, hi) && o2 == Unassigned(o1, pd, lo, hi) && SameMaps(m1, o1, m2, pd) && SameData(m1, o2, m2)
    ensures SameMaps(m0, o0, m2, 0) && SameData(m0, o0, m2) && Taken(o0, o2, pd, lo, lo, hand)
  {
    assert Taken(o0, o1, pd, lo, v, hand);
    forall q | q in o0 ensures q in o1 && q in o2 && (!o0[q].Free? ==> o1[q] == o0[q]) {
    }
    SameMapsTrans(m0, o0, m1, o1, m2, pd);
    forall x | 0 <= x < VPAGES ensures Mapped(m2, pd, x) == Mapped(m0, pd, x) {
      if lo <= x < hi {
        assert Mapped(m0, pd, x) == 0;
      } else {
        assert Mapped(m1, pd, x) == Mapped(m0, pd, x);
      }
    }
    UndoneTaken(m0, o0, o1, pd, lo, v, hi, hand);
    forall q | q in o0 && (o0[q].User? || o0[q].Held?) ensures q in o2 && o2[q] == o0[q] {
      assert q in o2.Keys;
    }
    SameDataTrans(m0, o0, m1, o2, m2);
  }

  lemma UndoneTaken(m0: Mem, o0: Owners, o1: Owners, pd: nat, lo: nat, v: nat, hi: nat, hand: nat)
    requires Taken(o0, o1, pd, lo, v, hand) && Good(m0, o0) && lo <= v <= hi <= UPAGES
    requires forall x :: lo <= x < hi ==> Mapped(m0, pd, x) == 0
    ensures Taken(o0, Unassigned(o1, pd, lo, hi), pd, lo, lo, hand)
  {
    var o2 := Unassigned(o1, pd, lo, hi);
    forall q | q in o0 ensures q in o2 && (o2[q] == o0[q] || (o0[q].Free? && TakenFor(o2[q], pd, lo, lo, q == hand))) {
      assert q in o1;
      if o0[q].User? {
        assert UserOk(m0, o0, q);
        assert Mapped(m0, o0[q].dir, o0[q].v) != 0;
      }
    }
  }

  /** A free page p taken in hand and given contents. */
  lemma GrownHand(m0: Mem, o0: Owners, m1: Mem, o1: Owners, pd: nat, lo: nat, v: nat, page: nat -> Page,
      flags: nat -> nat, p: nat, row: Page)
    requires Grown(m0, o0, m1, o1, pd, lo, v, page, flags, 0) && Good(m1, o1) && IsDir(o1, pd) && v <= VPAGES
    requires p in o1 && o1[p].Free? && |row| == ENTRIES
    ensures p in o0 && o0[p].Free?
    ensures Good(m1[p := row], o1[p := Held]) && Grown(m0, o0, m1[p := row], o1[p := Held], pd, lo, v, page, flags, p)
    ensures forall x :: 0 <= x < VPAGES ==> Mapped(m1[p := row], pd, x) == Mapped(m1, pd, x)
  {
    var m2, o2 := m1[p := row], o1[p := Held];
    assert Taken(o0, o1, pd, lo, v, 0);
    DataChanged(m1, o1, m2, o2);
    DataChangedMaps(m1, o1, m2, o2);
    forall x | 0 <= x < VPAGES ensures Mapped(m2, pd, x) == Mapped(m1, pd, x) {
      assert IsDir(o1, pd) && pd != 0;
    }
    forall x | lo <= x < v ensures Filled(o0, m2, o2, pd, x, page(x), flags(x)) {
      assert Mapped(m2, pd, x) == Mapped(m1, pd, x);
      assert Filled(o0, m1, o1, pd, x, page(x), flags(x));
    }
    forall x | 0 <= x < VPAGES && !(lo <= x < v) ensures Mapped(m2, pd, x) == Mapped(m0, pd, x) {
      assert Mapped(m2, pd, x) == Mapped(m1, pd, x) == Mapped(m0, pd, x);
    }
    HandTaken(o0, o1, pd, lo, v, p);
    SameMapsTrans(m0, o0, m1, o1, m2, pd);
    assert forall q :: q in o0 && (o0[q].User? || o0[q].Held?) ==> q != p;
  }

  lemma HandTaken(o0: Owners, o1: Owners, pd: nat, lo: nat, v: nat, p: nat)
    requires Taken(o0, o1, pd, lo, v, 0) && p in o1 && o1[p].Free? && 0 !in o1
    ensures o0[p].Free? && Taken(o0, o1[p := Held], pd, lo, v, p) && forall d :: IsDir(o0, d) ==> IsDir(o1, d)
  {
  }

  lemma HandReturned(o0: Owners, o1: Owners, pd: nat, lo: nat, hi: nat, p: nat)
    requires Taken(o0, o1, pd, lo, hi, p) && p in o0 && o0[p].Free? && 0 !in o0
    ensures Taken(o0, o1[p := Free], pd, lo, hi, 0)
  {
  }

  lemma TakenNoUsers(o0: Owners, o1: Owners, pd: nat, lo: nat)
    requires Taken(o0, o1, pd, lo, lo, 0) && 0 !in o0
    ensures OnlyTables(o0, o1, pd)
  {
  }

  /** The kernel regions leave the user half empty. */
  lemma UserHalfEmpty(data: nat, v: nat)
    requires 0x8_0100 < data < 0x8_e000 && v < UPAGES
    ensures KernelPte(Kmap(data), 4, v) == 0
  {
    var rs := Kmap(data);
    assert KernelPte(rs, 0, v) == KernelPte(rs, 1, v) == KernelPte(rs, 2, v) == KernelPte(rs, 3, v) == 0;
  }

  /** A directory built and partly filled from free pages gives them all back. */
  lemma ReclaimedCopy(mem: Mem, o0: Owners, o1: Owners, o2: Owners, d: nat, hi: nat)
    requires Good(mem, o0) && d in o0 && o0[d].Free? && OnlyTables(o0[d := Dir], o1, d) && Taken(o1, o2, d, 0, hi, 0)
    ensures Reclaimed(o2, d) == o0 && IsDir(o2, d) && forall x :: IsDir(o0, x) ==> IsDir(o2, x)
  {
    forall p | p in o0 ensures p in o2 && Reclaimed(o2, d)[p] == o0[p] && (o0[p].Dir? ==> o2[p].Dir?) {
      assert o0[p].Tab? ==> TabOk(mem, o0, p);
      assert o0[p].User? ==> UserOk(mem, o0, p);
      assert 0 !in o0;
      assert p in o0[d := Dir] && p in o1;
    }
  }

  /** What allocuvm puts at every new page: zeros, present, writable and accessible to the user. */
  function ZeroPage(v: nat): Page {
    Zeros()
  }

  function UserRw(v: nat): nat {
    7
  }

  /** The contents of the page mapped at v. */
  function PageAt(mem: Mem, pd: nat, v: nat): Page {
    var p := Addr(Mapped(mem, pd, v));
    if p in mem then mem[p] else []
  }

  /** While the child d is filled, the parent's page v stays as it was. */
  lemma ParentSame(m0: Mem, o0: Owners, m: Mem, o: Owners, pd: nat, d: nat, hi: nat, page: nat -> Page,
      flags: nat -> nat, v: nat)
    requires Grown(m0, o0, m, o, d, 0, hi, page, flags, 0) && Good(m0, o0) && IsDir(o0, pd) && pd != d && v < UPAGES && Mapped(m0, pd, v) != 0
    ensures Mapped(m, pd, v) == Mapped(m0, pd, v) && Present(Pte(m, pd, v)) && Present(Pde(m, pd, v)) && IsDir(o, pd)
    ensures Addr(Mapped(m, pd, v)) in m && m[Addr(Mapped(m, pd, v))] == PageAt(m0, pd, v) && |PageAt(m0, pd, v)| == ENTRIES
  {
    assert SameMaps(m0, o0, m, d) && SameData(m0, o0, m) && Taken(o0, o, d, 0, hi, 0);
    assert PteOk(m0, o0, pd, v);
  }

  /** The child's pages are those of the parent, on pages that were free before. */
  ghost predicate Copied(m0: Mem, o0: Owners, m: Mem, o: Owners, pd: nat, d: nat, n: nat, data: nat)
    requires 0x8_0100 < data < 0x8_e000
  {
    && d in o0 && o0[d].Free? && IsDir(o, d)
    && (forall v {:trigger Mapped(m, d, v)} :: 0 <= v < n ==> Filled(o0, m, o, d, v, PageAt(m0, pd, v), Flags(Mapped(m0, pd, v))))
    && (forall v {:trigger Mapped(m, d, v)} :: n <= v < VPAGES ==> Mapped(m, d, v) == KernelPte(Kmap(data), 4, v))
  }

  lemma CopiedAll(m0: Mem, o0: Owners, m1: Mem, o1: Owners, m: Mem, o: Owners, pd: nat, d: nat, n: nat, data: nat,
      page: nat -> Page, flags: nat -> nat)
    requires 0x8_0100 < data < 0x8_e000 && n <= UPAGES && d in o0 && o0[d].Free? && OnlyTables(o0[d := Dir], o1, d) && IsDir(o0, pd) && Good(m0, o0)
    requires forall v :: 0 <= v < VPAGES ==> Mapped(m1, d, v) == KernelPte(Kmap(data), 4, v)
    requires SameMaps(m0, o0, m1, d) && SameData(m0, o0, m1) && Grown(m1, o1, m, o, d, 0, n, page, flags, 0)
    requires forall v :: 0 <= v < n ==> Mapped(m0, pd, v) != 0 && page(v) == PageAt(m1, pd, v) && flags(v) == Flags(Mapped(m1, pd, v))
    ensures Copied(m0, o0, m, o, pd, d, n, data)
    ensures SameMaps(m0, o0, m, 0) && SameData(m0, o0, m)
  {
    assert Taken(o1, o, d, 0, n, 0);
    forall q | q in o0 ensures q in o1 && q in o && (o0[q].Dir? ==> o1[q].Dir?) && (o0[q].User? || o0[q].Held? ==> o1[q] == o0[q]) && (o1[q].Free? ==> o0[q].Free?) {
      assert q in o0[d := Dir];
    }
    forall v | 0 <= v < n ensures Filled(o0, m, o, d, v, PageAt(m0, pd, v), Flags(Mapped(m0, pd, v))) {
      assert Filled(o1, m, o, d, v, page(v), flags(v)) by {
        assert Mapped(m, d, v) == Mapped(m, d, v);
      }
      assert Mapped(m1, pd, v) == Mapped(m0, pd, v);
      assert PteOk(m0, o0, pd, v);
    }
    forall v | n <= v < VPAGES ensures Mapped(m, d, v) == KernelPte(Kmap(data), 4, v) {
      assert Mapped(m, d, v) == Mapped(m1, d, v);
    }
    SameMapsTrans(m0, o0, m1, o1, m, d);
    SameDataTrans(m0, o0, m1, o1, m);
  }

  lemma TakenData(o0: Owners, o: Owners, pd: nat, lo: nat, hi: nat, hand: nat)
    requires Taken(o0, o, pd, lo, hi, hand)
    ensures forall p :: p in o0 && (o0[p].User? || o0[p].Held?) ==> p in o && (o[p].User? || o[p].Held?)
    ensures forall d :: IsDir(o0, d) ==> IsDir(o, d)
  {
  }

  /** Page x of the parent pd is mapped, that of the child d is not, and `page` and `flags` describe the parent's. */
  ghost predicate ToCopy(m: Mem, pd: nat, d: nat, page: nat -> Page, flags: nat -> nat, x: nat) {
    Mapped(m, d, x) == 0 && Mapped(m, pd, x) != 0 && page(x) == PageAt(m, pd, x) && flags(x) == Flags(Mapped(m, pd, x))
  }

  ghost predicate AllToCopy(m: Mem, pd: nat, d: nat, page: nat -> Page, flags: nat -> nat, n: nat) {
    forall x {:trigger ToCopy(m, pd, d, page, flags, x)} :: 0 <= x < n ==> ToCopy(m, pd, d, page, flags, x)
  }

  /** The first m virtual pages of pd are mapped, and no more than n; if fewer, the next is not. */
  ghost predicate MappedUpTo(mem: Mem, pd: nat, m: nat, n: nat) {
    m <= n && (forall v {:trigger Mapped(mem, pd, v)} :: 0 <= v < m ==> Mapped(mem, pd, v) != 0) && (m < n ==> Mapped(mem, pd, m) == 0)
  }

  lemma {:induction false} FirstGap(mem: Mem, pd: nat, n: nat) returns (m: nat)
    ensures MappedUpTo(mem, pd, m, n)
  {
    if n == 0 {
      m := 0;
    } else {
      m := FirstGap(mem, pd, n - 1);
      if m == n - 1 && Mapped(mem, pd, m) != 0 {
        m := n;
      }
    }
  }

  lemma StillUpTo(m0: Mem, o0: Owners, mem: Mem, pd: nat, d: nat, m: nat, n: nat)
    requires MappedUpTo(m0, pd, m, n) && SameMaps(m0, o0, mem, d) && IsDir(o0, pd) && pd != d && n <= VPAGES
    ensures MappedUpTo(mem, pd, m, n)
  {
    forall v | 0 <= v < m ensures Mapped(mem, pd, v) != 0 {
      assert Mapped(mem, pd, v) == Mapped(m0, pd, v);
    }
    if m < n {
      assert Mapped(mem, pd, m) == Mapped(m0, pd, m);
    }
  }

  /** A directory fresh from setupkvm has all of the parent's pages still to copy. */
  lemma NothingCopied(m0: Mem, o0: Owners, m: Mem, o: Owners, pd: nat, d: nat, n: nat, data: nat, page: nat -> Page, flags: nat -> nat)
    requires 0x8_0100 < data < 0x8_e000 && Built(m0, o0, m, o, d, Kmap(data), 4) && IsDir(o0, pd) && n <= UPAGES
    requires forall v :: 0 <= v < n ==> Mapped(m0, pd, v) != 0
    requires forall v :: 0 <= v < n ==> page(v) == PageAt(m, pd, v) && flags(v) == Flags(Mapped(m, pd, v))
    ensures AllToCopy(m, pd, d, page, flags, n) && IsDir(o, pd) && IsDir(o, d) && pd != d
  {
    assert pd in o0[d := Dir] && d in o0[d := Dir];
    forall v | 0 <= v < n ensures ToCopy(m, pd, d, page, flags, v) {
      UserHalfEmpty(data, v);
      assert Mapped(m, d, v) == 0 && Mapped(m, pd, v) == Mapped(m0, pd, v);
    }
  }

  /** A child partly filled, its parent as it was: taking it down gives everything back. */
  lemma CopyUndone(m0: Mem, o0: Owners, m1: Mem, o1: Owners, m: Mem, o: Owners, d: nat, rs: seq<Region>, v: nat)
    requires Good(m0, o0) && Built(m0, o0, m1, o1, d, rs, |rs|) && Taken(o1, o, d, 0, v, 0) && SameMaps(m1, o1, m, d) && SameData(m1, o1, m)
    ensures Reclaimed(o, d) == o0 && IsDir(o, d) && (forall x :: IsDir(o0, x) ==> IsDir(o, x)) && SameMaps(m0, o0, m, d) && SameData(m0, o0, m)
  {
    ReclaimedCopy(m0, o0, o1, o, d, v);
    forall q | q in o0 && (o0[q].Dir? || o0[q].User? || o0[q].Held?) ensures q in o1 && o1[q] == o0[q] {
      assert q in o0[d := Dir];
    }
    SameMapsTrans(m0, o0, m1, o1, m, d);
    SameDataTrans(m0, o0, m1, o1, m);
  }

  // ---------------------------------------------------------------- what the invariant means

  /** A user mapping refers to a page that nothing else uses: no other mapping, directory, table or free list. */
  lemma NoSharing(mem: Mem, owner: Owners, freelist: seq<nat>, pd: nat, v: nat, pd': nat, v': nat)
    requires Good(mem, owner) && FreeList(freelist, owner) && IsDir(owner, pd) && IsDir(owner, pd') && v < UPAGES && v' < UPAGES
    requires Mapped(mem, pd, v) != 0 && Mapped(mem, pd', v') != 0 && Addr(Mapped(mem, pd, v)) == Addr(Mapped(mem, pd', v'))
    ensures pd == pd' && v == v'
    ensures var p := Addr(Mapped(mem, pd, v)); p in owner && p !in freelist && !owner[p].Dir? && !owner[p].Tab?
  {
    assert PteOk(mem, owner, pd, v) && PteOk(mem, owner, pd', v');
  }
}
