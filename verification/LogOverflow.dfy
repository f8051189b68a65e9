/**
 mkfs makes the log area LOGSIZE blocks long, header included, so it has room for one block
 less than begin_op hands out.  log_write's guard against that reads log.lh.n before it takes
 the lock.  This module shows exactly when the log stays inside its area.
 */
module LogOverflow {
  import opened Params
  import opened Machines
  import opened LogDisk
  import opened LogMachine

  /** The layout mkfs writes: boot block, super block, then the log. */
  function MkfsGeometry(): Geometry {
    Geometry(2, LOGSIZE, FSSIZE)
  }

  const FIRST := 32  // first block after the log area

  ghost function Empty(): Disk {
    seq(FSSIZE, _ => seq(BLOCKWORDS, _ => 0))
  }

  ghost function Full(): Config {
    Config(MkfsGeometry(), MAXOPBLOCKS)
  }

  ghost function Numbers(m: nat): seq<int> {
    seq(m, i => FIRST + i)
  }

  lemma NumbersNext(m: nat, next: nat)
    requires next == m + 1
    ensures Numbers(next) == Numbers(m) + [FIRST + m]
  {
  }

  /** The part of the state that the run below steers. */
  datatype Core = Core(phase: Phase, outstanding: int, open: map<nat, nat>, lh: seq<int>, passed: set<nat>, cache: map<int, Buf>)

  ghost function CoreOf(s: State): Core {
    Core(s.phase, s.outstanding, s.open, s.lh, s.passed, s.cache)
  }

  ghost predicate Unlocked(cache: map<int, Buf>, end: int) {
    forall b :: b in cache ==> b < end && cache[b].holder == None
  }

  /** Operations 0, 1 and 2 are open, m blocks FIRST, FIRST+1, .. are logged, no buffer is locked. */
  ghost predicate Filling(s: State, m: nat, open: map<nat, nat>) {
    Shape(Full(), s) && CoreOf(s) == Core(Idle, 3, open, Numbers(m), {}, s.cache) && Unlocked(s.cache, FIRST + m)
  }

  ghost predicate Reached(s: State) {
    exists n: nat :: Reachable(Full(), s, n)
  }

  lemma Take(p: State, step: Step)
    requires Reached(p) && Shape(Full(), p) && Enabled(Full(), p, step)
    ensures Reached(Do(Full(), p, step))
  {
    var n: nat :| Reachable(Full(), p, n);
    Extend(Boot(Full()), Next(Full()), p, n, step, Do(Full(), p, step));
    assert Reachable(Full(), Do(Full(), p, step), n + 1);
  }

  lemma Booted() returns (s: State)
    ensures Reached(s) && Shape(Full(), s)
    ensures (s.phase, s.outstanding, s.open, s.lh, s.passed, s.cache) == (Idle, 0, map[], [], {}, map[])
    ensures !s.committing && s.nextOp == 0
  {
    var d := Empty();
    s := State(d, map[], [], map[], {}, 0, false, Booting, 0, [], 0, 0, d, d, d);
    assert DecodeHead(d[2]) == [];
    assert Init(Full(), s);
    assert Reachable(Full(), s, 0);
    Take(s, ReadHead);
    s := Do(Full(), s, ReadHead);
    Take(s, RecoverClear);
    s := Do(Full(), s, RecoverClear);
  }

  lemma Opened() returns (s: State)
    ensures Reached(s) && Filling(s, 0, Left(10, 10, 10))
  {
    s := Booted();
    Take(s, Begin);
    s := Do(Full(), s, Begin);
    Take(s, Begin);
    s := Do(Full(), s, Begin);
    Take(s, Begin);
    s := Do(Full(), s, Begin);
    assert s.open == Left(10, 10, 10);
    assert Numbers(0) == [];
  }

  lemma Lock(p: State, op: nat, b: int) returns (s: State)
    requires Reached(p) && Shape(Full(), p) && p.phase == Idle && Full().g.Home(b) && b !in p.cache
    ensures Reached(s) && Shape(Full(), s)
    ensures CoreOf(s) == CoreOf(p).(cache := p.cache[b := Buf(p.disk[b], false, Some(op), false)])
  {
    Take(p, Bread(op, b));
    s := Do(Full(), p, Bread(op, b));
  }

  lemma Pass(p: State, op: nat) returns (s: State)
    requires Reached(p) && Shape(Full(), p) && op in p.open && |p.lh| < LOGSIZE - 1 && p.outstanding >= 1
    ensures Reached(s) && Shape(Full(), s) && CoreOf(s) == CoreOf(p).(passed := p.passed + {op})
  {
    Take(p, Guard(op));
    s := Do(Full(), p, Guard(op));
  }

  lemma Insert(p: State, op: nat, b: int) returns (s: State)
    requires Reached(p) && Shape(Full(), p) && CanLogWrite(p, op, b) && b !in p.lh
    ensures Reached(s) && (|p.lh| < LOGSIZE - 1 ==> Shape(Full(), s))
    ensures CoreOf(s) == CoreOf(p).(lh := p.lh + [b], open := p.open[op := p.open[op] - 1], passed := p.passed - {op},
      cache := p.cache[b := p.cache[b].(dirty := true, unlogged := false)])
  {
    Take(p, LogWrite(op, b));
    s := Do(Full(), p, LogWrite(op, b));
  }

  lemma Unlock(p: State, op: nat, b: int) returns (s: State)
    requires Reached(p) && Shape(Full(), p) && HeldBy(p, b, op) && !p.cache[b].unlogged
    ensures Reached(s) && Shape(Full(), s)
    ensures CoreOf(s) == CoreOf(p).(cache := p.cache[b := p.cache[b].(holder := None)])
  {
    Take(p, Brelse(op, b));
    s := Do(Full(), p, Brelse(op, b));
  }

  /** One bread / log_write / brelse of a fresh block by operation op. */
  lemma AddBlock(p: State, m: nat, next: nat, open: map<nat, nat>, op: nat) returns (s: State)
    requires Reached(p) && Filling(p, m, open) && m < LOGSIZE - 1 && op in open && open[op] > 0 && next == m + 1
    ensures Reached(s) && Filling(s, next, open[op := open[op] - 1])
  {
    var b := FIRST + m;
    NumbersNext(m, next);
    s := Lock(p, op, b);
    s := Pass(s, op);
    s := Insert(s, op, b);
    s := Unlock(s, op, b);
    assert {op} - {op} == {};
    assert Unlocked(s.cache, FIRST + next);
  }

  /** Operations 0, 1 and 2 with so much of their reservations left. */
  ghost function Left(a: nat, b: nat, c: nat): map<nat, nat> {
    map[0 := a, 1 := b, 2 := c]
  }

  lemma Spend(a: nat, b: nat, c: nat, op: nat, k: nat)
    requires op < 3
    ensures Left(a, b, c)[op := k] == if op == 0 then Left(k, b, c) else if op == 1 then Left(a, k, c) else Left(a, b, k)
  {
  }

  /** Operation op logs k fresh blocks. */
  lemma {:induction false} AddBlocks(p: State, m: nat, hi: nat, open: map<nat, nat>, op: nat, k: nat, open': map<nat, nat>) returns (s: State)
    requires Reached(p) && Filling(p, m, open) && m + k == hi < LOGSIZE && op in open && open[op] >= k && open' == open[op := open[op] - k]
    ensures Reached(s) && Filling(s, hi, open')
    decreases k
  {
    if k == 0 {
      s := p;
      assert open' == open;
    } else {
      var next, mid := m + 1, open[op := open[op] - 1];
      var q := AddBlock(p, m, next, open, op);
      assert mid[op := mid[op] - (k - 1)] == open';
      s := AddBlocks(q, next, hi, mid, op, k - 1, open');
    }
  }

  lemma FirstTwo() returns (s: State)
    ensures Reached(s) && Filling(s, 19, Left(0, 1, 10))
  {
    s := Opened();
    Spend(10, 10, 10, 0, 0);
    s := AddBlocks(s, 0, 10, Left(10, 10, 10), 0, 10, Left(0, 10, 10));
    Spend(0, 10, 10, 1, 1);
    s := AddBlocks(s, 10, 19, Left(0, 10, 10), 1, 9, Left(0, 1, 10));
  }

  /**
   Three operations of ten blocks each: two of them pass the guard at 28 blocks and then both
   insert, so the log holds 30 blocks in an area with room for 29.
   */
  lemma OverflowReached() returns (s: State)
    ensures Reached(s) && |s.lh| == LOGSIZE && s.phase.Idle? && s.open == Left(0, 0, 0)
  {
    s := FirstTwo();
    Spend(0, 1, 10, 2, 1);
    s := AddBlocks(s, 19, 28, Left(0, 1, 10), 2, 9, Left(0, 1, 1));
    s := Race(s);
  }

  lemma Race(p: State) returns (s: State)
    requires Reached(p) && Filling(p, 28, Left(0, 1, 1))
    ensures Reached(s) && |s.lh| == LOGSIZE && s.phase.Idle? && s.open == Left(0, 0, 0)
  {
    var a, b, lh := FIRST + 28, FIRST + 29, Numbers(28);
    assert a !in lh && b !in lh + [a];
    s := BothPass(p, a, b, lh);
    s := Insert(s, 1, a);
    Spend(0, 1, 1, 1, 0);
    assert s.lh == lh + [a] && s.open == Left(0, 0, 1);
    s := Insert(s, 2, b);
    Spend(0, 0, 1, 2, 0);
  }

  /** Operations 1 and 2 each lock a buffer and pass the guard. */
  lemma BothPass(p: State, a: int, b: int, lh: seq<int>) returns (s: State)
    requires Reached(p) && Shape(Full(), p) && CoreOf(p) == Core(Idle, 3, Left(0, 1, 1), lh, {}, p.cache) && |lh| == 28
    requires Unlocked(p.cache, a) && a < b && Full().g.Home(a) && Full().g.Home(b)
    ensures Reached(s) && Shape(Full(), s) && CoreOf(s) == Core(Idle, 3, Left(0, 1, 1), lh, {1, 2}, s.cache)
    ensures HeldBy(s, a, 1) && HeldBy(s, b, 2)
  {
    s := Lock(p, 1, a);
    s := Lock(s, 2, b);
    s := Pass(s, 1);
    s := Pass(s, 2);
  }

  /** The log never outgrows its area. */
  ghost predicate StaysInside(c: Config) {
    forall s: State, n: nat :: Reachable(c, s, n) ==> |s.lh| < c.g.size
  }

  /** With the layout mkfs writes, the log stays inside its area exactly if operations log fewer than MAXOPBLOCKS blocks. */
  lemma InsideIff(opmax: nat)
    requires opmax <= MAXOPBLOCKS
    ensures StaysInside(Config(MkfsGeometry(), opmax)) <==> opmax < MAXOPBLOCKS
  {
    var c := Config(MkfsGeometry(), opmax);
    if opmax < MAXOPBLOCKS {
      forall s: State, n: nat | Reachable(c, s, n) ensures |s.lh| < c.g.size {
        LogReservation(c, s, n);
      }
    } else {
      var s := OverflowReached();
      var n: nat :| Reachable(Full(), s, n);
    }
  }

  /** log_write's guard lets every operation that is open go on. */
  ghost predicate GuardSafe(c: Config) {
    forall s: State, n: nat :: Reachable(c, s, n) && s.open != map[] ==> !GuardPanics(c, s)
  }

  /** With that layout the guard is safe exactly if operations log fewer than MAXOPBLOCKS blocks. */
  lemma GuardIff(opmax: nat)
    requires opmax <= MAXOPBLOCKS
    ensures GuardSafe(Config(MkfsGeometry(), opmax)) <==> opmax < MAXOPBLOCKS
  {
    var c := Config(MkfsGeometry(), opmax);
    if opmax < MAXOPBLOCKS {
      forall s: State, n: nat | Reachable(c, s, n) && s.open != map[] ensures !GuardPanics(c, s) {
        GuardNeverPanics(c, s, n);
      }
    } else {
      var s := OverflowReached();
      var n: nat :| Reachable(Full(), s, n);
      assert 0 in s.open;
    }
  }
}
