/** Counting pages: which tables a directory has, and how many free pages an operation needs. */
module PageCount {
  import opened Sets
  import opened VmPages

  /** The entries of directory pd that name a table. */
  ghost function Tabs(mem: Mem, pd: nat): set<nat> {
    set i: nat | i < ENTRIES && Present(Word(mem, pd, i))
  }

  /** The directory entry that covers virtual page v. */
  function TableOf(v: nat): nat {
    v / 1024
  }

  /** The directory entries that cover the virtual pages lo..hi. */
  ghost function TabsOf(lo: nat, hi: nat): set<nat> {
    set v: nat | lo <= v < hi :: TableOf(v)
  }

  lemma TabsSame(m: Mem, m': Mem, pd: nat)
    requires pd in m && pd in m' && m'[pd] == m[pd]
    ensures Tabs(m', pd) == Tabs(m, pd)
  {
  }

  lemma NoTabs(m: Mem, pd: nat)
    requires pd in m && m[pd] == Zeros()
    ensures Tabs(m, pd) == {}
  {
  }

  // ---------------------------------------------------------------- what has been spent

  /** A table for entry i is there, and if it was not there before it cost one free page. */
  ghost predicate OneTable(f0: nat, t0: set<nat>, f: nat, t: set<nat>, i: nat) {
    t == t0 + {i} && f + |t| == f0 + |t0|
  }

  lemma TableThere(f: nat, t: set<nat>, i: nat)
    requires i in t
    ensures OneTable(f, t, f, t, i)
  {
    assert t + {i} == t;
  }

  lemma TableBought(m: Mem, m': Mem, pd: nat, i: nat, w: nat, f: nat, f': nat)
    requires pd in m && |m[pd]| == ENTRIES && i < ENTRIES && !Present(m[pd][i]) && Present(w)
    requires pd in m' && m'[pd] == m[pd][i := w] && f == f' + 1
    ensures OneTable(f, Tabs(m, pd), f', Tabs(m', pd), i)
  {
    assert Tabs(m', pd) == Tabs(m, pd) + {i};
  }

  /** With f0 free pages and the tables t0 to begin with, the tables for lo..hi and `pages` other pages have been taken. */
  ghost predicate Spent(f0: nat, t0: set<nat>, f: nat, t: set<nat>, lo: nat, hi: nat, pages: nat) {
    t == t0 + TabsOf(lo, hi) && f + |t| + pages == f0 + |t0|
  }

  lemma SpentNothing(f: nat, t: set<nat>, lo: nat)
    ensures Spent(f, t, f, t, lo, lo, 0)
  {
    assert t + TabsOf(lo, lo) == t;
  }

  lemma TabsOfNext(lo: nat, v: nat, next: nat)
    requires lo <= v && next == v + 1
    ensures TabsOf(lo, next) == TabsOf(lo, v) + {TableOf(v)}
  {
    forall i | i in TabsOf(lo, v) + {TableOf(v)} ensures i in TabsOf(lo, next) {
      if i in TabsOf(lo, v) {
        var x: nat :| lo <= x < v && TableOf(x) == i;
      } else {
        assert TableOf(v) in TabsOf(lo, next);
      }
    }
  }

  lemma SpentNext(f0: nat, t0: set<nat>, f1: nat, t1: set<nat>, f: nat, t: set<nat>, lo: nat, v: nat, next: nat, pages: nat, more: nat)
    requires Spent(f0, t0, f1, t1, lo, v, pages) && lo <= v && next == v + 1
    requires t == t1 + {TableOf(v)} && f + |t| + more == f1 + |t1| + pages
    ensures Spent(f0, t0, f, t, lo, next, more)
  {
    TabsOfNext(lo, v, next);
  }

  /** f0 free pages do not do for `pages` pages and the tables for lo..hi that are not in t0. */
  ghost predicate Short(f0: nat, t0: set<nat>, lo: nat, hi: nat, pages: nat) {
    f0 < pages + |TabsOf(lo, hi) - t0|
  }

  lemma IsShort(f0: nat, t0: set<nat>, lo: nat, hi: nat, a: nat, end: nat)
    requires !(f0 >= |TabsOf(lo, hi) - t0|) && a == lo && end == hi
    ensures Short(f0, t0, a, end, 0)
  {
  }

  /** Where the next page cannot be had, there are too few for all of lo..hi. */
  lemma SpentShort(f0: nat, t0: set<nat>, f: nat, t: set<nat>, lo: nat, v: nat, hi: nat, pages: nat, more: nat, all: nat)
    requires Spent(f0, t0, f, t, lo, v, pages) && lo <= v < hi && more <= all && f + pages < more + (if TableOf(v) in t then 0 else 1)
    ensures Short(f0, t0, lo, hi, all)
  {
    MissingSize(t0, TabsOf(lo, hi));
    var need := t0 + TabsOf(lo, hi);
    assert TableOf(v) in TabsOf(lo, hi);
    assert t <= need;
    if TableOf(v) in t {
      Smaller(t, need);
    } else {
      Fewer(t, need, TableOf(v));
    }
  }

  lemma SpentEnough(f0: nat, t0: set<nat>, f: nat, t: set<nat>, lo: nat, hi: nat, pages: nat)
    requires Spent(f0, t0, f, t, lo, hi, pages)
    ensures !Short(f0, t0, lo, hi, pages) && f == f0 - pages - |TabsOf(lo, hi) - t0|
  {
    MissingSize(t0, TabsOf(lo, hi));
  }

  /** Virtual page v has got a page, and a table if it had none. */
  ghost predicate OnePageIn(f0: nat, t0: set<nat>, f: nat, t: set<nat>, v: nat) {
    t == t0 + {TableOf(v)} && f + |t| + 1 == f0 + |t0|
  }

  /** There are not enough free pages for a page at v and its table. */
  ghost predicate NoRoom(f0: nat, t0: set<nat>, v: nat) {
    f0 < 1 + if TableOf(v) in t0 then 0 else 1
  }

  /** What a run of one page costs. */
  lemma OneRun(f0: nat, t0: set<nat>, f: nat, t: set<nat>, v: nat, next: nat)
    requires next == v + 1
    ensures Spent(f0, t0, f, t, v, next, 0) ==> OneTable(f0, t0, f, t, TableOf(v))
    ensures Short(f0, t0, v, next, 0) ==> f0 == 0 && TableOf(v) !in t0
  {
    assert TabsOf(v, v) == {};
    TabsOfNext(v, v, next);
    assert TabsOf(v, next) == {TableOf(v)};
    if TableOf(v) in t0 {
      assert TabsOf(v, next) - t0 == {};
    } else {
      assert TabsOf(v, next) - t0 == {TableOf(v)};
    }
  }

  /** A run of mappings that stops at `at` gets to the end exactly if there are enough pages for its tables. */
  lemma RunCounted(f0: nat, t0: set<nat>, f: nat, t: set<nat>, lo: nat, at: nat, end: nat)
    requires Spent(f0, t0, f, t, lo, at, 0) && lo <= at <= end && (at < end ==> f == 0 && TableOf(at) !in t)
    ensures at == end <==> f0 >= |TabsOf(lo, end) - t0|
  {
    if at == end {
      SpentEnough(f0, t0, f, t, lo, end, 0);
    } else {
      SpentShort(f0, t0, f, t, lo, at, end, 0, 0, 0);
    }
  }

  // ---------------------------------------------------------------- how many tables

  /** The pages lo..hi lie under consecutive entries. */
  lemma TabsOfSpan(lo: nat, hi: nat)
    requires lo < hi
    ensures TabsOf(lo, hi) == Span(lo / 1024, (hi - 1) / 1024 + 1)
  {
    forall i | i in Span(lo / 1024, (hi - 1) / 1024 + 1) ensures i in TabsOf(lo, hi) {
      var v: nat := if i == lo / 1024 then lo else i * 1024;
      assert TableOf(v) == i && lo <= v < hi;
    }
  }

  /** The entries that the first k regions need. */
  ghost function RegionTabs(rs: seq<Region>, k: nat): set<nat>
    requires k <= |rs|
  {
    if k == 0 then {} else RegionTabs(rs, k - 1) + TabsOf(rs[k - 1].va, rs[k - 1].va + rs[k - 1].n)
  }

  lemma {:induction false} RegionTabsMore(rs: seq<Region>, k: nat, n: nat)
    requires k <= n <= |rs|
    ensures RegionTabs(rs, k) <= RegionTabs(rs, n)
    decreases n
  {
    if k < n {
      RegionTabsMore(rs, k, n - 1);
    }
  }

  /** One more region mapped into a directory that began empty with f0 free pages. */
  lemma RegionSpent(f0: nat, f1: nat, t1: set<nat>, f: nat, t: set<nat>, rs: seq<Region>, k: nat, next: nat, end: nat)
    requires k < |rs| && next == k + 1 && end == rs[k].va + rs[k].n && t1 == RegionTabs(rs, k) && f1 + |t1| == f0
    requires Spent(f1, t1, f, t, rs[k].va, end, 0)
    ensures t == RegionTabs(rs, next) && f + |t| == f0
  {
  }

  /** Where one region cannot be mapped, there are too few pages for all of them. */
  lemma RegionShort(f0: nat, f1: nat, t1: set<nat>, rs: seq<Region>, k: nat, next: nat, end: nat, n: nat)
    requires k < |rs| == n && next == k + 1 && end == rs[k].va + rs[k].n && t1 == RegionTabs(rs, k) && f1 + |t1| == f0
    requires Short(f1, t1, rs[k].va, end, 0)
    ensures f0 < |RegionTabs(rs, n)|
  {
    MissingSize(t1, TabsOf(rs[k].va, end));
    var u, all := RegionTabs(rs, next), RegionTabs(rs, n);
    assert u == t1 + TabsOf(rs[k].va, end);
    RegionTabsMore(rs, next, n);
    Smaller(u, all);
  }

  /** Tables that follow on each other. */
  lemma TabsJoin(lo: nat, mid: nat, hi: nat)
    requires lo < mid < hi
    ensures TabsOf(lo, mid) + TabsOf(mid, hi) == TabsOf(lo, hi)
  {
    forall i | i in TabsOf(lo, hi) ensures i in TabsOf(lo, mid) + TabsOf(mid, hi) {
      var v: nat :| lo <= v < hi && TableOf(v) == i;
      assert if v < mid then TableOf(v) in TabsOf(lo, mid) else TableOf(v) in TabsOf(mid, hi);
    }
  }

  /** The regions below PHYSTOP follow on each other. */
  lemma KernelRegions(data: nat)
    requires 0x8_0100 < data < 0x8_e000
    ensures RegionTabs(Kmap(data), 4) == TabsOf(0x8_0000, 0x8_e000) + TabsOf(0xf_e000, 0x10_0000)
  {
    var rs := Kmap(data);
    TabsJoin(0x8_0000, 0x8_0100, data);
    TabsJoin(0x8_0000, data, 0x8_e000);
    assert RegionTabs(rs, 1) == TabsOf(0x8_0000, 0x8_0100) by {
      assert RegionTabs(rs, 0) == {};
    }
    assert RegionTabs(rs, 2) == TabsOf(0x8_0000, data);
    assert RegionTabs(rs, 3) == TabsOf(0x8_0000, 0x8_e000);
  }

  /** Entries 512 to 567 for the memory below PHYSTOP, 1016 to 1023 for the devices. */
  lemma KernelTabs(data: nat)
    requires 0x8_0100 < data < 0x8_e000
    ensures RegionTabs(Kmap(data), 4) == Span(512, 568) + Span(1016, 1024) && |RegionTabs(Kmap(data), 4)| == 64
  {
    KernelRegions(data);
    TabsOfSpan(0x8_0000, 0x8_e000);
    TabsOfSpan(0xf_e000, 0x10_0000);
    SpanSize(512, 568);
    SpanSize(1016, 1024);
    var a, b := Span(512, 568), Span(1016, 1024);
    assert a * b == {};
  }

  /** What copying n pages needs beyond the kernel half: the pages and their tables. */
  lemma CopyCounted(f0: nat, t0: set<nat>, f: nat, t: set<nat>, n: nat, data: nat, enough: bool)
    requires 0x8_0100 < data < 0x8_e000 && t0 == RegionTabs(Kmap(data), 4) && n <= UPAGES
    requires if enough then Spent(f0, t0, f, t, 0, n, n) else Short(f0, t0, 0, n, n)
    ensures enough <==> f0 >= n + (n + 1023) / 1024
    ensures enough ==> f == f0 - n - (n + 1023) / 1024
  {
    KernelTabs(data);
    UserTabs(n);
    if enough {
      SpentEnough(f0, t0, f, t, 0, n, n);
    }
  }

  /** The user pages below n need tables of their own, one for every 1024. */
  lemma UserTabs(n: nat)
    requires n <= UPAGES
    ensures |TabsOf(0, n) - (Span(512, 568) + Span(1016, 1024))| == (n + 1023) / 1024
  {
    if n == 0 {
      assert TabsOf(0, n) == {};
    } else {
      TabsOfSpan(0, n);
      SpanSize(0, (n - 1) / 1024 + 1);
      assert TabsOf(0, n) - (Span(512, 568) + Span(1016, 1024)) == TabsOf(0, n);
    }
  }
}
