/**
 sleep and wakeup (proc.c) over spin locks (spinlock.c), for any program that uses them as the
 kernel does.  Every channel has a lock, `lockOf`, and a condition on the data that lock
 protects.  A process may take and drop locks, change the data of a lock it holds, wait for a
 channel's condition while holding the channel's lock, and wake a channel.  The one rule is
 that a process that makes a condition true owes a wakeup of its channel, before or after it
 drops the lock, and pays before it next waits; it may instead have paid in advance, by waking
 the channel since it took the lock.

 A step is what one process does between two points where another could act: taking or
 dropping a lock, one test, one store, or one slot of wakeup's scan.
 */
module SleepWakeup {
  import opened Machines

  /** ptable.lock. */
  const PTABLE := 0

  datatype Config<!D(!new)> = Config(lockOf: nat -> nat, holds: (nat, D) -> bool)

  /**
   Where a process is.  Running: anywhere in its own code.  In sleep, called in a loop that
   tests the condition of channel ch: Test, PtAcquire, LkRelease, Mark, Asleep, Woken, Again.
   In wakeup: WakeAcquire, Scan, WakeRelease; `inner` is wakeup1, called with ptable.lock held.
   */
  datatype Pc =
    | Running
    | Test(ch: nat) | PtAcquire(ch: nat) | LkRelease(ch: nat) | Mark(ch: nat) | Asleep(ch: nat) | Woken(ch: nat) | Again(ch: nat)
    | WakeAcquire(ch: nat) | Scan(ch: nat, k: nat, inner: bool) | WakeRelease

  /** Who holds a lock: nobody, a process, or (ptable.lock only) a scheduler. */
  datatype Holder = Nobody | Process(p: nat) | Scheduler

  /** A slot of the process table, with the wakeups the process owes and has paid in advance. */
  datatype Proc = Proc(pc: Pc, sleeping: bool, chan: nat, owes: iset<nat>, paid: iset<nat>)

  datatype State<D> = State(procs: seq<Proc>, held: seq<Holder>, data: seq<D>)

  datatype Label<D> =
    | Acquire(p: nat, l: nat) | Release(p: nat, l: nat) | Store(p: nat, l: nat, d: D)
    | Wait(p: nat, ch: nat) | Wake(p: nat, ch: nat) | Move(p: nat)
    | SchedAcquire | SchedRelease | Resume(p: nat) | Kill(p: nat)

  ghost predicate Shaped<D(!new)>(c: Config<D>, s: State<D>) {
    |s.held| == |s.data| && PTABLE < |s.held| && forall ch: nat {:trigger c.lockOf(ch)} :: c.lockOf(ch) < |s.held|
  }

  ghost predicate True<D(!new)>(c: Config<D>, s: State<D>, ch: nat)
    requires Shaped(c, s)
  {
    c.holds(ch, s.data[c.lockOf(ch)])
  }

  ghost predicate Init<D(!new)>(c: Config<D>, s: State<D>) {
    && Shaped(c, s)
    && (forall l :: 0 <= l < |s.held| ==> s.held[l].Nobody?)
    && forall p :: 0 <= p < |s.procs| ==> s.procs[p] == Proc(Running, false, 0, iset{}, iset{})
  }

  ghost predicate Has<D(!new)>(s: State<D>, p: nat, l: nat) {
    l < |s.held| && s.held[l] == Process(p)
  }

  ghost predicate Free<D(!new)>(s: State<D>, l: nat) {
    l < |s.held| && s.held[l].Nobody?
  }

  ghost function Goto<D(!new)>(s: State<D>, p: nat, pc: Pc): State<D>
    requires p < |s.procs|
  {
    s.(procs := s.procs[p := s.procs[p].(pc := pc)])
  }

  ghost function Hand<D(!new)>(s: State<D>, l: nat, h: Holder): State<D>
    requires l < |s.held|
  {
    s.(held := s.held[l := h])
  }

  /** Dropping lock l ends what wakeups in advance were good for. */
  ghost function Drop<D(!new)>(c: Config<D>, s: State<D>, p: nat, l: nat): State<D>
    requires p < |s.procs| && l < |s.held|
  {
    Hand(s, l, Nobody).(procs := s.procs[p := s.procs[p].(paid := iset ch | ch in s.procs[p].paid && c.lockOf(ch) != l)])
  }

  /** New data for lock l, and the channels whose condition this makes true, save those paid for. */
  ghost function Stored<D(!new)>(c: Config<D>, s: State<D>, p: nat, l: nat, d: D): State<D>
    requires p < |s.procs| && l < |s.data|
  {
    var x := s.procs[p];
    var due := iset ch: nat | c.lockOf(ch) == l && !c.holds(ch, s.data[l]) && c.holds(ch, d) && ch !in x.paid;
    s.(data := s.data[l := d], procs := s.procs[p := x.(owes := x.owes + due)])
  }

  /** Can process p take its next step in sleep or wakeup? */
  ghost predicate Ready<D(!new)>(c: Config<D>, s: State<D>, p: nat)
    requires Shaped(c, s) && p < |s.procs|
  {
    match s.procs[p].pc
    case Running => false
    case PtAcquire(_) => Free(s, PTABLE)
    case Asleep(_) => false
    case Again(ch) => Free(s, c.lockOf(ch))
    case WakeAcquire(_) => Free(s, PTABLE)
    case _ => true
  }

  ghost function Step<D(!new)>(c: Config<D>, s: State<D>, p: nat): State<D>
    requires Shaped(c, s) && p < |s.procs| && Ready(c, s, p)
  {
    match s.procs[p].pc
    case Test(ch) =>
      Goto(s, p, if True(c, s, ch) then Running else if c.lockOf(ch) == PTABLE then Mark(ch) else PtAcquire(ch))
    case PtAcquire(ch) => Hand(Goto(s, p, LkRelease(ch)), PTABLE, Process(p))
    case LkRelease(ch) => Hand(Goto(s, p, Mark(ch)), c.lockOf(ch), Nobody)
    case Mark(ch) =>
      Hand(s.(procs := s.procs[p := s.procs[p].(pc := Asleep(ch), sleeping := true, chan := ch)]), PTABLE, Scheduler)
    case Woken(ch) =>
      if c.lockOf(ch) == PTABLE then Goto(s, p, Test(ch)) else Hand(Goto(s, p, Again(ch)), PTABLE, Nobody)
    case Again(ch) => Hand(Goto(s, p, Test(ch)), c.lockOf(ch), Process(p))
    case WakeAcquire(ch) => Hand(Goto(s, p, Scan(ch, 0, false)), PTABLE, Process(p))
    case Scan(ch, k, inner) => if k < |s.procs| then ScanSlot(s, p, ch, k, inner) else ScanDone(c, s, p, ch, inner)
    case WakeRelease => Goto(Drop(c, s, p, PTABLE), p, Running)
    case _ => s
  }

  /** wakeup1 at slot k: a process sleeping on the channel becomes runnable. */
  ghost function ScanSlot<D(!new)>(s: State<D>, p: nat, ch: nat, k: nat, inner: bool): State<D>
    requires p < |s.procs| && k < |s.procs|
  {
    var x := s.procs[k];
    var procs := if x.sleeping && x.chan == ch then s.procs[k := x.(sleeping := false)] else s.procs;
    s.(procs := procs[p := procs[p].(pc := Scan(ch, k + 1, inner))])
  }

  /** The scan is over; if the channel's lock was held throughout, the wakeup also pays in advance. */
  ghost function ScanDone<D(!new)>(c: Config<D>, s: State<D>, p: nat, ch: nat, inner: bool): State<D>
    requires p < |s.procs|
  {
    var x := s.procs[p];
    var paid := if Has(s, p, c.lockOf(ch)) then x.paid + iset{ch} else x.paid;
    s.(procs := s.procs[p := x.(pc := if inner then Running else WakeRelease, paid := paid)])
  }

  ghost predicate Runs<D(!new)>(s: State<D>, p: nat) {
    p < |s.procs| && s.procs[p].pc.Running?
  }

  ghost predicate Next<D(!new)>(c: Config<D>, s: State<D>, l: Label<D>, t: State<D>) {
    Shaped(c, s) &&
    match l
    case Acquire(p, k) => Runs(s, p) && Free(s, k) && t == Hand(s, k, Process(p))
    case Release(p, k) => Runs(s, p) && Has(s, p, k) && t == Drop(c, s, p, k)
    case Store(p, k, d) => Runs(s, p) && Has(s, p, k) && t == Stored(c, s, p, k, d)
    case Wait(p, ch) =>
      && Runs(s, p) && Has(s, p, c.lockOf(ch)) && s.procs[p].owes == iset{}
      && t == s.(procs := s.procs[p := s.procs[p].(pc := Test(ch), paid := iset{})])
    case Wake(p, ch) =>
      && Runs(s, p)
      && t == s.(procs := s.procs[p := s.procs[p].(owes := s.procs[p].owes - iset{ch},
                   pc := if Has(s, p, PTABLE) then Scan(ch, 0, true) else WakeAcquire(ch))])
    case Move(p) => p < |s.procs| && Ready(c, s, p) && t == Step(c, s, p)
    case SchedAcquire => Free(s, PTABLE) && t == Hand(s, PTABLE, Scheduler)
    case SchedRelease => s.held[PTABLE].Scheduler? && t == Hand(s, PTABLE, Nobody)
    case Resume(p) =>
      && p < |s.procs| && s.held[PTABLE].Scheduler? && s.procs[p].pc.Asleep? && !s.procs[p].sleeping
      && t == Hand(Goto(s, p, Woken(s.procs[p].pc.ch)), PTABLE, Process(p))
    case Kill(p) => p < |s.procs| && Free(s, PTABLE) && t == s.(procs := s.procs[p := s.procs[p].(sleeping := false)])
  }

  // ---------------------------------------------------------------- the invariant

  predicate HoldsPtable(pc: Pc) {
    pc.LkRelease? || pc.Mark? || pc.Woken? || pc.Scan? || pc.WakeRelease?
  }

  /** Between testing the condition and being marked asleep. */
  predicate Falling(pc: Pc) {
    pc.PtAcquire? || pc.LkRelease?
  }

  /** The locks a process holds where it is, and what it found the condition to be. */
  ghost predicate PcOk<D(!new)>(c: Config<D>, s: State<D>, p: nat)
    requires Shaped(c, s) && p < |s.procs|
  {
    var x := s.procs[p];
    && (x.pc.Test? ==> Has(s, p, c.lockOf(x.pc.ch)))
    && (Falling(x.pc) ==> c.lockOf(x.pc.ch) != PTABLE && Has(s, p, c.lockOf(x.pc.ch)) && !True(c, s, x.pc.ch))
    && (HoldsPtable(x.pc) ==> Has(s, p, PTABLE))
    && (x.sleeping ==> x.pc == Asleep(x.chan))
    && (!x.pc.Running? && !x.pc.WakeAcquire? && !x.pc.Scan? && !x.pc.WakeRelease? ==> x.paid == iset{})
    && (x.pc.Scan? ==> x.pc.k <= |s.procs|)
  }

  /** q sleeps on ch, or will as soon as it moves. */
  ghost predicate Sleepy<D(!new)>(s: State<D>, q: nat, ch: nat)
    requires q < |s.procs|
  {
    s.procs[q].pc == Mark(ch) || (s.procs[q].sleeping && s.procs[q].chan == ch)
  }

  /** r is committed to a wakeup of ch that has yet to reach slot q. */
  ghost predicate Pending<D(!new)>(s: State<D>, r: nat, ch: nat, q: nat) {
    && r < |s.procs|
    && var x := s.procs[r];
       ch in x.owes || x.pc == WakeAcquire(ch) || (x.pc.Scan? && x.pc.ch == ch && x.pc.k <= q)
  }

  /** A process asleep though its condition is true will be woken. */
  ghost predicate WakeOk<D(!new)>(c: Config<D>, s: State<D>, q: nat, ch: nat)
    requires Shaped(c, s) && q < |s.procs|
  {
    Sleepy(s, q, ch) && True(c, s, ch) ==> exists r: nat :: Pending(s, r, ch, q)
  }

  /** What r has scanned or paid for has no sleepers. */
  ghost predicate ClearOk<D(!new)>(c: Config<D>, s: State<D>, r: nat, q: nat)
    requires Shaped(c, s) && r < |s.procs| && q < |s.procs|
  {
    var x := s.procs[r];
    && (x.pc.Scan? && q < x.pc.k ==> !Sleepy(s, q, x.pc.ch))
    && (forall ch :: ch in x.paid ==> Has(s, r, c.lockOf(ch)) && !Sleepy(s, q, ch))
  }

  ghost predicate Inv<D(!new)>(c: Config<D>, s: State<D>) {
    && Shaped(c, s)
    && (forall p {:trigger PcOk(c, s, p)} :: 0 <= p < |s.procs| ==> PcOk(c, s, p))
    && (forall q, ch {:trigger WakeOk(c, s, q, ch)} :: 0 <= q < |s.procs| && 0 <= ch ==> WakeOk(c, s, q, ch))
    && (forall r, q {:trigger ClearOk(c, s, r, q)} :: 0 <= r < |s.procs| && 0 <= q < |s.procs| ==> ClearOk(c, s, r, q))
  }

  /** A process's own step in sleep or wakeup. */
  lemma PcStep<D(!new)>(c: Config<D>, s: State<D>, p: nat)
    requires Shaped(c, s) && p < |s.procs| && Ready(c, s, p) && PcOk(c, s, p)
    ensures PcOk(c, Step(c, s, p), p)
  {
  }

  /** Only its own steps take a lock from a process or change the data of a lock it holds; others at most end its sleep. */
  lemma Others<D(!new)>(c: Config<D>, s: State<D>, l: Label<D>, t: State<D>, q: nat, k: nat)
    requires Inv(c, s) && Next(c, s, l, t) && q < |s.procs| && k < |s.held| && !ByProcess(l, q)
    ensures Shaped(c, t) && |t.procs| == |s.procs| && t.procs[q] in {s.procs[q], s.procs[q].(sleeping := false)}
    ensures Has(s, q, k) ==> Has(t, q, k) && t.data[k] == s.data[k]
  {
    if l.Move? {
      assert PcOk(c, s, l.p);
    }
  }

  predicate ByProcess<D>(l: Label<D>, p: nat) {
    !l.SchedAcquire? && !l.SchedRelease? && !l.Kill? && l.p == p
  }

  lemma PcOther<D(!new)>(c: Config<D>, s: State<D>, l: Label<D>, t: State<D>, q: nat)
    requires Inv(c, s) && Next(c, s, l, t) && q < |s.procs| && !ByProcess(l, q)
    ensures Shaped(c, t) && |t.procs| == |s.procs| && PcOk(c, t, q)
  {
    assert PcOk(c, s, q);
    Others(c, s, l, t, q, PTABLE);
    if s.procs[q].pc.Test? || Falling(s.procs[q].pc) {
      Others(c, s, l, t, q, c.lockOf(s.procs[q].pc.ch));
    }
  }

  lemma PcNext<D(!new)>(c: Config<D>, s: State<D>, l: Label<D>, t: State<D>, q: nat)
    requires Inv(c, s) && Next(c, s, l, t) && q < |s.procs|
    ensures Shaped(c, t) && |t.procs| == |s.procs| && PcOk(c, t, q)
  {
    assert PcOk(c, s, q);
    if !ByProcess(l, q) {
      PcOther(c, s, l, t, q);
    } else if l.Move? {
      PcStep(c, s, q);
    }
  }

  /** A process starts to sleep on a channel only by its own step, with the channel's lock and ptable.lock, and the condition false. */
  lemma SleeperEnters<D(!new)>(c: Config<D>, s: State<D>, l: Label<D>, t: State<D>, q: nat, ch: nat)
    requires Inv(c, s) && Next(c, s, l, t) && q < |s.procs| == |t.procs| && !Sleepy(s, q, ch) && Sleepy(t, q, ch)
    ensures l == Move(q) && t.data == s.data && Has(s, q, c.lockOf(ch)) && Has(s, q, PTABLE) && !True(c, s, ch)
    ensures s.procs[q].paid == iset{} && (s.procs[q].pc.LkRelease? || s.procs[q].pc.Test?)
  {
    assert PcOk(c, s, q);
  }

  /** A wakeup on its way to q stays on its way until it has reached q. */
  lemma PendingKept<D(!new)>(c: Config<D>, s: State<D>, l: Label<D>, t: State<D>, r: nat, q: nat, ch: nat)
    requires Inv(c, s) && Next(c, s, l, t) && q < |s.procs| == |t.procs| && Pending(s, r, ch, q) && Sleepy(t, q, ch)
    ensures Pending(t, r, ch, q)
  {
    if ByProcess(l, r) {
      assert PcOk(c, s, q) && PcOk(c, s, r);
    } else {
      Others(c, s, l, t, r, PTABLE);
    }
  }

  lemma WakeNext<D(!new)>(c: Config<D>, s: State<D>, l: Label<D>, t: State<D>, q: nat, ch: nat)
    requires Inv(c, s) && Next(c, s, l, t) && Shaped(c, t) && q < |s.procs| == |t.procs|
    ensures WakeOk(c, t, q, ch)
  {
    if Sleepy(t, q, ch) && True(c, t, ch) {
      if !Sleepy(s, q, ch) {
        SleeperEnters(c, s, l, t, q, ch);
      } else if True(c, s, ch) {
        assert WakeOk(c, s, q, ch);
        var r: nat :| Pending(s, r, ch, q);
        PendingKept(c, s, l, t, r, q, ch);
      } else {
        assert l.Store?;
        assert ClearOk(c, s, l.p, q);
        assert Pending(t, l.p, ch, q);
      }
    }
  }

  /** What r has paid for in advance it had paid for before, or it has just finished the scan. */
  lemma PaidNext<D(!new)>(c: Config<D>, s: State<D>, l: Label<D>, t: State<D>, r: nat, ch: nat)
    requires Inv(c, s) && Next(c, s, l, t) && r < |s.procs| == |t.procs| && ch in t.procs[r].paid
    ensures Has(t, r, c.lockOf(ch))
    ensures ch in s.procs[r].paid || (s.procs[r].pc.Scan? && s.procs[r].pc.ch == ch && s.procs[r].pc.k == |s.procs|)
  {
    assert ClearOk(c, s, r, r);
    if ByProcess(l, r) {
      assert PcOk(c, s, r);
    } else {
      Others(c, s, l, t, r, c.lockOf(ch));
    }
  }

  lemma ScanNext<D(!new)>(c: Config<D>, s: State<D>, l: Label<D>, t: State<D>, r: nat, q: nat)
    requires Inv(c, s) && Next(c, s, l, t) && q < |s.procs| == |t.procs| && r < |s.procs| && t.procs[r].pc.Scan? && q < t.procs[r].pc.k
    ensures !Sleepy(t, q, t.procs[r].pc.ch)
  {
    var ch := t.procs[r].pc.ch;
    assert PcOk(c, s, r) && ClearOk(c, s, r, q);
    if Sleepy(t, q, ch) && !Sleepy(s, q, ch) {
      SleeperEnters(c, s, l, t, q, ch);
    }
    if ByProcess(l, r) {
      assert PcOk(c, s, q);
    } else {
      Others(c, s, l, t, r, PTABLE);
    }
  }

  lemma ClearNext<D(!new)>(c: Config<D>, s: State<D>, l: Label<D>, t: State<D>, r: nat, q: nat)
    requires Inv(c, s) && Next(c, s, l, t) && Shaped(c, t) && q < |s.procs| == |t.procs| && r < |s.procs|
    ensures ClearOk(c, t, r, q)
  {
    if t.procs[r].pc.Scan? && q < t.procs[r].pc.k {
      ScanNext(c, s, l, t, r, q);
    }
    forall ch | ch in t.procs[r].paid ensures Has(t, r, c.lockOf(ch)) && !Sleepy(t, q, ch) {
      PaidNext(c, s, l, t, r, ch);
      assert ClearOk(c, s, r, q);
      if Sleepy(t, q, ch) && !Sleepy(s, q, ch) {
        SleeperEnters(c, s, l, t, q, ch);
      }
    }
  }

  lemma NextInv<D(!new)>(c: Config<D>, s: State<D>, l: Label<D>, t: State<D>)
    requires Inv(c, s) && Next(c, s, l, t)
    ensures Inv(c, t)
  {
    assert Shaped(c, t) && |t.procs| == |s.procs| by {
      if |s.procs| > 0 {
        PcNext(c, s, l, t, 0);
      }
    }
    forall p | 0 <= p < |t.procs| ensures PcOk(c, t, p) {
      PcNext(c, s, l, t, p);
    }
    forall q, ch | 0 <= q < |t.procs| && 0 <= ch ensures WakeOk(c, t, q, ch) {
      WakeNext(c, s, l, t, q, ch);
    }
    forall r, q | 0 <= r < |t.procs| && 0 <= q < |t.procs| ensures ClearOk(c, t, r, q) {
      ClearNext(c, s, l, t, r, q);
    }
  }

  ghost predicate Reachable<D(!new)>(c: Config<D>, s: State<D>, n: nat) {
    Reach((x: State<D>) => Init(c, x), (x: State<D>, l: Label<D>, y: State<D>) => Next(c, x, l, y), s, n)
  }

  lemma OneMore<D(!new)>(c: Config<D>, s: State<D>, n: nat, l: Label<D>, t: State<D>)
    requires Reachable(c, s, n) && Next(c, s, l, t)
    ensures Reachable(c, t, n + 1)
  {
    var init := (x: State<D>) => Init(c, x);
    var next := (x: State<D>, m: Label<D>, y: State<D>) => Next(c, x, m, y);
    Extend(init, next, s, n, l, t);
  }

  lemma ReachableInv<D(!new)>(c: Config<D>, s: State<D>, n: nat)
    requires Reachable(c, s, n)
    ensures Inv(c, s)
  {
    var init := (x: State<D>) => Init(c, x);
    var next := (x: State<D>, l: Label<D>, y: State<D>) => Next(c, x, l, y);
    var inv := (x: State<D>) => Inv(c, x);
    forall x, l, y | inv(x) && next(x, l, y) ensures inv(y) {
      NextInv(c, x, l, y);
    }
    Induct(init, next, inv, s, n);
  }

  // ---------------------------------------------------------------- what it gives

  /** In no reachable state does a process sleep on a channel whose condition is true with no wakeup of that channel on its way to it. */
  lemma NoLostWakeup<D(!new)>(c: Config<D>, s: State<D>, n: nat, q: nat)
    requires Reachable(c, s, n) && Shaped(c, s) && q < |s.procs| && s.procs[q].sleeping && True(c, s, s.procs[q].chan)
    ensures exists r: nat :: Pending(s, r, s.procs[q].chan, q)
  {
    ReachableInv(c, s, n);
    assert WakeOk(c, s, q, s.procs[q].chan);
  }

  /** Once a process has woken a channel while holding the channel's lock, nobody sleeps on it until the process drops the lock. */
  lemma WakeupUnderLock<D(!new)>(c: Config<D>, s: State<D>, n: nat, r: nat, q: nat, ch: nat)
    requires Reachable(c, s, n) && r < |s.procs| && q < |s.procs| && ch in s.procs[r].paid
    ensures Has(s, r, c.lockOf(ch)) && !Sleepy(s, q, ch)
  {
    ReachableInv(c, s, n);
    assert ClearOk(c, s, r, q);
  }

  // ---------------------------------------------------------------- the queue of sleep1.p

  /** One value under lock 1; a consumer waits on channel 0 for it to be positive, testing again when it wakes. */
  ghost function Queue(): Config<int> {
    Config(ch => 1, (ch, value) => ch == 0 && value > 0)
  }

  /** With a value in the queue, a sleeping consumer has a producer that has yet to wake it, though the producer wakes after its release. */
  lemma QueueNoLostWakeup(s: State<int>, n: nat, q: nat)
    requires Reachable(Queue(), s, n) && |s.data| == |s.held| == 2 && s.data[1] > 0
    requires q < |s.procs| && s.procs[q].sleeping && s.procs[q].chan == 0
    ensures exists r: nat :: Pending(s, r, 0, q)
  {
    NoLostWakeup(Queue(), s, n, q);
  }
}
