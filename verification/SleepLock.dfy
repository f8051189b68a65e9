/**
 Sleep locks (sleeplock.c): any number of processes that take, hold and release one sleep lock,
 over and over.  Each step is a step of the sleep and wakeup machine, with the lock's two fields
 as the data that its inner spin lock protects and "not locked" as the condition.
 */
module SleepLock {
  import opened Machines
  import Sw = SleepWakeup

  /**
   Where a process is.  acquiresleep: Start, Enter, Test, PtAcquire, LkRelease, Mark, Asleep,
   Woken, Again, Take, TakeRelease.  Holding the sleep lock: Critical.  releasesleep: Free, Clear,
   CallWakeup, WakeAcquire, Scan, WakeRelease, Finish.
   */
  datatype Pc =
    | Start | Enter | Test | PtAcquire | LkRelease | Mark | Asleep | Woken | Again | Take | TakeRelease
    | Critical | Free | Clear | CallWakeup | WakeAcquire | Scan(k: nat) | WakeRelease | Finish

  /** Who holds ptable.lock: nobody, a process, or a scheduler. */
  datatype Holder = Nobody | Process(p: nat) | Scheduler

  /** `lk` holds the spin lock inside the sleep lock, |pc| being nobody; `pid` is the holder recorded by acquiresleep. */
  datatype State = State(pc: seq<Pc>, asleep: seq<bool>, lk: nat, ptable: Holder, locked: bool, pid: nat)

  /** A process moves; a scheduler takes or drops ptable.lock or resumes a process; kill wakes a process. */
  datatype Label = Move(p: nat) | SchedAcquire | SchedRelease | Resume(p: nat) | Kill(p: nat)

  ghost predicate Init(s: State) {
    && |s.asleep| == |s.pc| == s.lk && s.ptable.Nobody? && !s.locked
    && forall p :: 0 <= p < |s.pc| ==> s.pc[p].Start? && !s.asleep[p]
  }

  function Goto(s: State, p: nat, c: Pc): State
    requires p < |s.pc|
  {
    s.(pc := s.pc[p := c])
  }

  /** Can process p take its next step? */
  predicate Ready(s: State, p: nat)
    requires p < |s.pc| == |s.asleep|
  {
    match s.pc[p]
    case Start | Again | Free => s.lk == |s.pc|
    case PtAcquire | WakeAcquire => s.ptable.Nobody?
    case Asleep => false
    case _ => true
  }

  function Step(s: State, p: nat): State
    requires p < |s.pc| == |s.asleep| && Ready(s, p)
  {
    match s.pc[p]
    case Start => Goto(s, p, Enter).(lk := p)
    case Enter => Goto(s, p, Test)
    case Test => Goto(s, p, if s.locked then PtAcquire else Take)
    case PtAcquire => Goto(s, p, LkRelease).(ptable := Process(p))
    case LkRelease => Goto(s, p, Mark).(lk := |s.pc|)
    case Mark => Goto(s, p, Asleep).(asleep := s.asleep[p := true], ptable := Scheduler)
    case Woken => Goto(s, p, Again).(ptable := Nobody)
    case Again => Goto(s, p, Test).(lk := p)
    case Take => Goto(s, p, TakeRelease).(locked := true, pid := p)
    case TakeRelease => Goto(s, p, Critical).(lk := |s.pc|)
    case Critical => Goto(s, p, Free)
    case Free => Goto(s, p, Clear).(lk := p)
    case Clear => Goto(s, p, CallWakeup).(locked := false, pid := 0)
    case CallWakeup => Goto(s, p, WakeAcquire)
    case WakeAcquire => Goto(s, p, Scan(0)).(ptable := Process(p))
    case Scan(k) =>
      if k < |s.pc| then Goto(s, p, Scan(k + 1)).(asleep := s.asleep[k := false]) else Goto(s, p, WakeRelease)
    case WakeRelease => Goto(s, p, Finish).(ptable := Nobody)
    case Finish => Goto(s, p, Start).(lk := |s.pc|)
    case Asleep => s
  }

  ghost predicate Next(s: State, l: Label, t: State) {
    |s.asleep| == |s.pc| &&
    match l
    case Move(p) => p < |s.pc| && Ready(s, p) && t == Step(s, p)
    case SchedAcquire => s.ptable.Nobody? && t == s.(ptable := Scheduler)
    case SchedRelease => s.ptable.Scheduler? && t == s.(ptable := Nobody)
    case Resume(p) =>
      && p < |s.pc| && s.ptable.Scheduler? && s.pc[p].Asleep? && !s.asleep[p]
      && t == Goto(s, p, Woken).(ptable := Process(p))
    case Kill(p) => p < |s.pc| && s.ptable.Nobody? && t == s.(asleep := s.asleep[p := false])
  }

  // ---------------------------------------------------------------- the invariant

  predicate HoldsLk(c: Pc) {
    c.Enter? || c.Test? || c.PtAcquire? || c.LkRelease? || c.Take? || c.TakeRelease? || c.Clear? || c.CallWakeup? || c.WakeAcquire? || c.Scan? || c.WakeRelease? || c.Finish?
  }

  predicate HoldsPtable(c: Pc) {
    c.LkRelease? || c.Mark? || c.Woken? || c.Scan? || c.WakeRelease?
  }

  /** Between acquiresleep's store to `locked` and releasesleep's. */
  predicate Owns(c: Pc) {
    c.TakeRelease? || c.Critical? || c.Free? || c.Clear?
  }

  /** A wakeup that has yet to look at slot q. */
  predicate Pending(c: Pc, q: nat) {
    c.CallWakeup? || c.WakeAcquire? || (c.Scan? && c.k <= q)
  }

  ghost predicate LocksOk(s: State) {
    && |s.asleep| == |s.pc| && s.lk <= |s.pc|
    && (forall q :: 0 <= q < |s.pc| ==> (HoldsLk(s.pc[q]) <==> s.lk == q))
    && (forall q :: 0 <= q < |s.pc| ==> (HoldsPtable(s.pc[q]) <==> s.ptable == Process(q)))
    && (s.ptable.Process? ==> s.ptable.p < |s.pc|)
  }

  ghost predicate OwnerOk(s: State) {
    && (forall q :: 0 <= q < |s.pc| ==> (Owns(s.pc[q]) <==> s.locked && s.pid == q))
    && (s.locked ==> s.pid < |s.pc|)
    && (forall q :: 0 <= q < |s.pc| && (s.pc[q].PtAcquire? || s.pc[q].LkRelease?) ==> s.locked)
    && (forall q :: 0 <= q < |s.pc| && (s.pc[q].Take? || s.pc[q].CallWakeup? || s.pc[q].WakeAcquire? || s.pc[q].Scan?) ==> !s.locked)
  }

  ghost predicate Inv(s: State) {
    LocksOk(s) && OwnerOk(s)
  }

  /** Process p moves to c, taking or dropping at most its own locks. */
  ghost predicate OwnLocks(s: State, t: State, p: nat, c: Pc) {
    && p < |s.pc| && t.pc == s.pc[p := c] && |t.asleep| == |s.asleep|
    && (HoldsLk(c) <==> t.lk == p) && (HoldsPtable(c) <==> t.ptable == Process(p))
    && (t.lk == s.lk || (s.lk in {p, |s.pc|} && t.lk in {p, |s.pc|}))
    && (t.ptable == s.ptable || ((s.ptable == Process(p) || !s.ptable.Process?) && (t.ptable == Process(p) || !t.ptable.Process?)))
  }

  lemma LocksMove(s: State, t: State, p: nat, c: Pc)
    requires LocksOk(s) && OwnLocks(s, t, p, c)
    ensures LocksOk(t)
  {
  }

  lemma LocksStep(s: State, p: nat)
    requires LocksOk(s) && p < |s.pc| && Ready(s, p)
    ensures LocksOk(Step(s, p))
  {
    var t := Step(s, p);
    LocksMove(s, t, p, t.pc[p]);
  }

  /** What OwnerOk says of one process. */
  predicate Fits(c: Pc, q: nat, locked: bool, pid: nat) {
    && (Owns(c) <==> locked && pid == q)
    && (c.PtAcquire? || c.LkRelease? ==> locked)
    && (c.Take? || c.CallWakeup? || c.WakeAcquire? || c.Scan? ==> !locked)
  }

  /** `locked` is written only by a process that holds lk, to its own name or to free. */
  lemma OwnerMove(s: State, t: State, p: nat, c: Pc)
    requires LocksOk(s) && OwnerOk(s) && p < |s.pc| && t.pc == s.pc[p := c] && Fits(c, p, t.locked, t.pid) && (t.locked ==> t.pid < |t.pc|)
    requires (t.locked == s.locked && t.pid == s.pid) || (HoldsLk(s.pc[p]) && s.locked != t.locked && (if s.locked then s.pid == p else t.pid == p))
    ensures OwnerOk(t)
  {
    forall q | 0 <= q < |t.pc| ensures Fits(t.pc[q], q, t.locked, t.pid) {
      assert Fits(s.pc[q], q, s.locked, s.pid);
    }
  }

  lemma OwnerStep(s: State, p: nat)
    requires LocksOk(s) && OwnerOk(s) && p < |s.pc| && Ready(s, p)
    ensures OwnerOk(Step(s, p))
  {
    var t := Step(s, p);
    assert Fits(s.pc[p], p, s.locked, s.pid);
    OwnerMove(s, t, p, t.pc[p]);
  }

  lemma NextInv(s: State, l: Label, t: State)
    requires Inv(s) && Next(s, l, t)
    ensures Inv(t)
  {
    match l
    case Move(p) =>
      LocksStep(s, p);
      OwnerStep(s, p);
    case _ =>
  }

  lemma ReachableInv(s: State, n: nat)
    requires Reach(Init, Next, s, n)
    ensures Inv(s)
  {
    forall x, l, y | Inv(x) && Next(x, l, y) ensures Inv(y) {
      NextInv(x, l, y);
    }
    Induct(Init, Next, Inv, s, n);
  }

  // ---------------------------------------------------------------- as sleep and wakeup

  datatype Data = Data(locked: bool, pid: nat)

  /** The channel of the sleep lock, and the number of its spin lock. */
  const CHANNEL := 0
  const LK := 1

  ghost function Protocol(): Sw.Config<Data> {
    Sw.Config(ch => LK, (ch, d: Data) => ch == CHANNEL && !d.locked)
  }

  ghost function AbsPc(c: Pc): Sw.Pc {
    match c
    case Test => Sw.Test(CHANNEL)
    case PtAcquire => Sw.PtAcquire(CHANNEL)
    case LkRelease => Sw.LkRelease(CHANNEL)
    case Mark => Sw.Mark(CHANNEL)
    case Asleep => Sw.Asleep(CHANNEL)
    case Woken => Sw.Woken(CHANNEL)
    case Again => Sw.Again(CHANNEL)
    case WakeAcquire => Sw.WakeAcquire(CHANNEL)
    case Scan(k) => Sw.Scan(CHANNEL, k, false)
    case WakeRelease => Sw.WakeRelease
    case _ => Sw.Running
  }

  /** The two machines agree on a process; releasesleep owes a wakeup, and once it has made it, has paid. */
  ghost predicate SimProc(c: Pc, asleep: bool, x: Sw.Proc) {
    && x.pc == AbsPc(c) && x.sleeping == asleep && x.chan == CHANNEL
    && (forall ch :: ch in x.owes <==> ch == CHANNEL && c.CallWakeup?)
    && (forall ch :: ch in x.paid <==> ch == CHANNEL && (c.WakeRelease? || c.Finish?))
  }

  ghost predicate SimLocks(s: State, a: Sw.State<Data>) {
    && |a.held| == |a.data| == 2
    && a.held[Sw.PTABLE] == (match s.ptable case Nobody => Sw.Nobody case Process(p) => Sw.Process(p) case Scheduler => Sw.Scheduler)
    && a.held[LK] == (if s.lk < |s.pc| then Sw.Process(s.lk) else Sw.Nobody)
    && a.data[LK] == Data(s.locked, s.pid)
  }

  ghost predicate Sim(s: State, a: Sw.State<Data>) {
    && |s.asleep| == |s.pc| == |a.procs| && SimLocks(s, a)
    && forall i {:trigger a.procs[i]} :: 0 <= i < |s.pc| ==> SimProc(s.pc[i], s.asleep[i], a.procs[i])
  }

  /** What the invariant says of process p. */
  predicate At(s: State, p: nat) {
    && p < |s.pc| && s.lk <= |s.pc| && Fits(s.pc[p], p, s.locked, s.pid)
    && (HoldsLk(s.pc[p]) <==> s.lk == p) && (HoldsPtable(s.pc[p]) <==> s.ptable == Process(p))
  }

  /** One process moves in both machines. */
  lemma SimMove(s: State, a: Sw.State<Data>, t: State, b: Sw.State<Data>, p: nat, v: bool, x: Sw.Proc)
    requires Sim(s, a) && p < |s.pc| == |t.pc| && t.pc == s.pc[p := t.pc[p]] && t.asleep == s.asleep[p := v]
    requires SimLocks(t, b) && b.procs == a.procs[p := x] && SimProc(t.pc[p], v, x)
    ensures Sim(t, b)
  {
  }

  predicate FallsAsleep(c: Pc) {
    c.Test? || c.PtAcquire? || c.LkRelease?
  }

  predicate SleepsOrWakes(c: Pc) {
    c.Mark? || c.Asleep? || c.Woken? || c.Again?
  }

  predicate InWakeup(c: Pc) {
    c.WakeAcquire? || c.Scan? || c.WakeRelease?
  }

  lemma SimulateFall(s: State, a: Sw.State<Data>, p: nat) returns (b: Sw.State<Data>)
    requires Sim(s, a) && At(s, p) && Ready(s, p) && FallsAsleep(s.pc[p])
    ensures Sw.Next(Protocol(), a, Sw.Move(p), b) && Sim(Step(s, p), b)
  {
    assert SimProc(s.pc[p], s.asleep[p], a.procs[p]);
    b := Sw.Step(Protocol(), a, p);
    var t := Step(s, p);
    SimMove(s, a, t, b, p, t.asleep[p], b.procs[p]);
  }

  lemma SimulateSleep(s: State, a: Sw.State<Data>, p: nat) returns (b: Sw.State<Data>)
    requires Sim(s, a) && At(s, p) && Ready(s, p) && SleepsOrWakes(s.pc[p])
    ensures Sw.Next(Protocol(), a, Sw.Move(p), b) && Sim(Step(s, p), b)
  {
    assert SimProc(s.pc[p], s.asleep[p], a.procs[p]);
    b := Sw.Step(Protocol(), a, p);
    var t := Step(s, p);
    SimMove(s, a, t, b, p, t.asleep[p], b.procs[p]);
  }

  lemma SimulateScan(s: State, a: Sw.State<Data>, p: nat, k: nat) returns (b: Sw.State<Data>)
    requires Sim(s, a) && At(s, p) && s.pc[p] == Scan(k) && k < |s.pc|
    ensures Sw.Next(Protocol(), a, Sw.Move(p), b) && Sim(Step(s, p), b)
  {
    assert SimProc(s.pc[p], s.asleep[p], a.procs[p]) && SimProc(s.pc[k], s.asleep[k], a.procs[k]);
    b := Sw.Step(Protocol(), a, p);
  }

  lemma SimulateScanned(s: State, a: Sw.State<Data>, p: nat) returns (b: Sw.State<Data>)
    requires Sim(s, a) && At(s, p) && s.pc[p].Scan? && s.pc[p].k >= |s.pc|
    ensures Sw.Next(Protocol(), a, Sw.Move(p), b) && Sim(Step(s, p), b)
  {
    assert SimProc(s.pc[p], s.asleep[p], a.procs[p]);
    b := Sw.Step(Protocol(), a, p);
    var t := Step(s, p);
    SimMove(s, a, t, b, p, t.asleep[p], b.procs[p]);
  }

  lemma SimulateWakeup(s: State, a: Sw.State<Data>, p: nat) returns (b: Sw.State<Data>)
    requires Sim(s, a) && At(s, p) && Ready(s, p) && s.pc[p].WakeAcquire?
    ensures Sw.Next(Protocol(), a, Sw.Move(p), b) && Sim(Step(s, p), b)
  {
    assert SimProc(s.pc[p], s.asleep[p], a.procs[p]);
    b := Sw.Step(Protocol(), a, p);
    var t := Step(s, p);
    SimMove(s, a, t, b, p, t.asleep[p], b.procs[p]);
  }

  lemma SimulateWoke(s: State, a: Sw.State<Data>, p: nat) returns (b: Sw.State<Data>)
    requires Sim(s, a) && At(s, p) && s.pc[p].WakeRelease?
    ensures Sw.Next(Protocol(), a, Sw.Move(p), b) && Sim(Step(s, p), b)
  {
    assert SimProc(s.pc[p], s.asleep[p], a.procs[p]);
    b := Sw.Step(Protocol(), a, p);
    var t := Step(s, p);
    SimMove(s, a, t, b, p, t.asleep[p], b.procs[p]);
  }

  /** The step of sleep and wakeup that a step of acquiresleep or releasesleep itself is. */
  ghost function AbsLabel(s: State, p: nat): Sw.Label<Data>
    requires p < |s.pc|
  {
    match s.pc[p]
    case Start => Sw.Acquire(p, LK)
    case Enter => Sw.Wait(p, CHANNEL)
    case Take => Sw.Store(p, LK, Data(true, p))
    case TakeRelease => Sw.Release(p, LK)
    case Free => Sw.Acquire(p, LK)
    case Clear => Sw.Store(p, LK, Data(false, 0))
    case CallWakeup => Sw.Wake(p, CHANNEL)
    case _ => Sw.Release(p, LK)
  }

  lemma SimulateLocks(s: State, a: Sw.State<Data>, p: nat) returns (b: Sw.State<Data>)
    requires Sim(s, a) && At(s, p) && Ready(s, p) && (s.pc[p].Start? || s.pc[p].TakeRelease? || s.pc[p].Free? || s.pc[p].Finish?)
    ensures Sw.Next(Protocol(), a, AbsLabel(s, p), b) && Sim(Step(s, p), b)
  {
    assert SimProc(s.pc[p], s.asleep[p], a.procs[p]);
    b := if s.pc[p].Start? || s.pc[p].Free? then Sw.Hand(a, LK, Sw.Process(p)) else Sw.Drop(Protocol(), a, p, LK);
    var t := Step(s, p);
    SimMove(s, a, t, b, p, t.asleep[p], b.procs[p]);
  }

  lemma SimulateCalls(s: State, a: Sw.State<Data>, p: nat) returns (b: Sw.State<Data>)
    requires Sim(s, a) && At(s, p) && (s.pc[p].Enter? || s.pc[p].CallWakeup?)
    ensures Sw.Next(Protocol(), a, AbsLabel(s, p), b) && Sim(Step(s, p), b)
  {
    var x := a.procs[p];
    assert SimProc(s.pc[p], s.asleep[p], x);
    assert s.pc[p].Enter? ==> x.owes == iset{};
    var y := if s.pc[p].Enter? then x.(pc := Sw.Test(CHANNEL), paid := iset{}) else x.(owes := x.owes - iset{CHANNEL}, pc := Sw.WakeAcquire(CHANNEL));
    b := a.(procs := a.procs[p := y]);
    var t := Step(s, p);
    SimMove(s, a, t, b, p, t.asleep[p], y);
  }

  /** acquiresleep and releasesleep write the lock's fields; the second owes a wakeup. */
  lemma SimulateStore(s: State, a: Sw.State<Data>, p: nat) returns (b: Sw.State<Data>)
    requires Sim(s, a) && At(s, p) && (s.pc[p].Take? || s.pc[p].Clear?)
    ensures Sw.Next(Protocol(), a, AbsLabel(s, p), b) && Sim(Step(s, p), b)
  {
    assert SimProc(s.pc[p], s.asleep[p], a.procs[p]);
    var t := Step(s, p);
    b := Sw.Stored(Protocol(), a, p, LK, Data(t.locked, t.pid));
    SimMove(s, a, t, b, p, t.asleep[p], b.procs[p]);
  }

  lemma SimulateScheduler(s: State, a: Sw.State<Data>, l: Label, t: State) returns (m: Sw.Label<Data>, b: Sw.State<Data>)
    requires Sim(s, a) && Next(s, l, t) && (l.SchedAcquire? || l.SchedRelease?)
    ensures Sw.Next(Protocol(), a, m, b) && Sim(t, b)
  {
    m := if l.SchedAcquire? then Sw.SchedAcquire else Sw.SchedRelease;
    b := Sw.Hand(a, Sw.PTABLE, if l.SchedAcquire? then Sw.Scheduler else Sw.Nobody);
  }

  lemma SimulateResume(s: State, a: Sw.State<Data>, p: nat, t: State) returns (b: Sw.State<Data>)
    requires Sim(s, a) && Next(s, Resume(p), t)
    ensures Sw.Next(Protocol(), a, Sw.Resume(p), b) && Sim(t, b)
  {
    assert SimProc(s.pc[p], s.asleep[p], a.procs[p]);
    b := Sw.Hand(Sw.Goto(a, p, Sw.Woken(CHANNEL)), Sw.PTABLE, Sw.Process(p));
    SimMove(s, a, t, b, p, false, b.procs[p]);
  }

  lemma SimulateKill(s: State, a: Sw.State<Data>, p: nat, t: State) returns (b: Sw.State<Data>)
    requires Sim(s, a) && Next(s, Kill(p), t)
    ensures Sw.Next(Protocol(), a, Sw.Kill(p), b) && Sim(t, b)
  {
    assert SimProc(s.pc[p], s.asleep[p], a.procs[p]);
    b := a.(procs := a.procs[p := a.procs[p].(sleeping := false)]);
    SimMove(s, a, t, b, p, false, b.procs[p]);
  }

  /** Every step of a process is a step of sleep and wakeup; leaving the critical section is none. */
  lemma SimulateMove(s: State, a: Sw.State<Data>, p: nat) returns (m: Sw.Label<Data>, b: Sw.State<Data>)
    requires Sim(s, a) && At(s, p) && Ready(s, p)
    ensures Sim(Step(s, p), b) && (b == a || Sw.Next(Protocol(), a, m, b))
  {
    m := if FallsAsleep(s.pc[p]) || SleepsOrWakes(s.pc[p]) || InWakeup(s.pc[p]) then Sw.Move(p) else AbsLabel(s, p);
    if FallsAsleep(s.pc[p]) {
      b := SimulateFall(s, a, p);
    } else if SleepsOrWakes(s.pc[p]) {
      b := SimulateSleep(s, a, p);
    } else if s.pc[p].Scan? && s.pc[p].k < |s.pc| {
      b := SimulateScan(s, a, p, s.pc[p].k);
    } else if s.pc[p].Scan? {
      b := SimulateScanned(s, a, p);
    } else if s.pc[p].WakeAcquire? {
      b := SimulateWakeup(s, a, p);
    } else if s.pc[p].WakeRelease? {
      b := SimulateWoke(s, a, p);
    } else if s.pc[p].Take? || s.pc[p].Clear? {
      b := SimulateStore(s, a, p);
    } else if s.pc[p].Enter? || s.pc[p].CallWakeup? {
      b := SimulateCalls(s, a, p);
    } else if s.pc[p].Critical? {
      b := a;
      SimMove(s, a, Step(s, p), a, p, s.asleep[p], a.procs[p]);
    } else {
      b := SimulateLocks(s, a, p);
    }
  }

  lemma Simulate(s: State, a: Sw.State<Data>, l: Label, t: State) returns (m: Sw.Label<Data>, b: Sw.State<Data>)
    requires Inv(s) && Sim(s, a) && Next(s, l, t)
    ensures Sim(t, b) && (b == a || Sw.Next(Protocol(), a, m, b))
  {
    match l
    case Move(p) =>
      assert Fits(s.pc[p], p, s.locked, s.pid);
      m, b := SimulateMove(s, a, p);
    case Resume(p) =>
      m := Sw.Resume(p);
      b := SimulateResume(s, a, p, t);
    case Kill(p) =>
      m := Sw.Kill(p);
      b := SimulateKill(s, a, p, t);
    case _ =>
      m, b := SimulateScheduler(s, a, l, t);
  }

  lemma SimulateInit(s: State) returns (a: Sw.State<Data>)
    requires Init(s)
    ensures Sim(s, a) && Sw.Reachable(Protocol(), a, 0)
  {
    a := Sw.State(seq(|s.pc|, _ => Sw.Proc(Sw.Running, false, CHANNEL, iset{}, iset{})), [Sw.Nobody, Sw.Nobody],
      [Data(true, 0), Data(s.locked, s.pid)]);
    assert Sw.Init(Protocol(), a);
  }

  ghost predicate Simulated(s: State) {
    exists a, m: nat :: Sim(s, a) && Sw.Reachable(Protocol(), a, m)
  }

  lemma SimulatedNext(r: State, l: Label, s: State)
    requires Inv(r) && Simulated(r) && Next(r, l, s)
    ensures Simulated(s)
  {
    var c, k: nat :| Sim(r, c) && Sw.Reachable(Protocol(), c, k);
    var step, b := Simulate(r, c, l, s);
    if b == c {
      assert Sim(s, c) && Sw.Reachable(Protocol(), c, k);
    } else {
      Sw.OneMore(Protocol(), c, k, step, b);
      assert Sim(s, b) && Sw.Reachable(Protocol(), b, k + 1);
    }
  }

  /** Every run of the sleep lock is a run of sleep and wakeup. */
  lemma Refines(s: State, n: nat) returns (a: Sw.State<Data>, m: nat)
    requires Reach(Init, Next, s, n)
    ensures Inv(s) && Sim(s, a) && Sw.Reachable(Protocol(), a, m)
  {
    var inv := (x: State) => Inv(x) && Simulated(x);
    forall x | Init(x) ensures inv(x) {
      var b := SimulateInit(x);
    }
    forall x, l, y | inv(x) && Next(x, l, y) ensures inv(y) {
      NextInv(x, l, y);
      SimulatedNext(x, l, y);
    }
    Induct(Init, Next, inv, s, n);
    a, m :| Sim(s, a) && Sw.Reachable(Protocol(), a, m);
  }

  // ---------------------------------------------------------------- what it gives

  /** At most one process is past acquiresleep and not yet in releasesleep. */
  lemma MutualExclusion(s: State, n: nat, p: nat, q: nat)
    requires Reach(Init, Next, s, n) && p < |s.pc| && q < |s.pc| && s.pc[p].Critical? && s.pc[q].Critical?
    ensures p == q && s.locked && s.pid == p
  {
    ReachableInv(s, n);
  }

  /** No reachable state has the lock free, a process asleep on it, and no wakeup that will still reach that process. */
  lemma NoLostWakeup(s: State, n: nat, q: nat)
    requires Reach(Init, Next, s, n) && q < |s.pc| == |s.asleep| && s.asleep[q] && !s.locked
    ensures s.lk < |s.pc| && Pending(s.pc[s.lk], q)
  {
    var a, m := Refines(s, n);
    assert SimProc(s.pc[q], s.asleep[q], a.procs[q]);
    Sw.NoLostWakeup(Protocol(), a, m, q);
    var r: nat :| Sw.Pending(a, r, CHANNEL, q);
    assert SimProc(s.pc[r], s.asleep[r], a.procs[r]);
    assert HoldsLk(s.pc[r]) <==> s.lk == r;
  }

  /** With the lock free and nobody inside acquiresleep or releasesleep, nobody sleeps. */
  lemma NobodyStuck(s: State, n: nat, q: nat)
    requires Reach(Init, Next, s, n) && q < |s.pc| == |s.asleep| && !s.locked && s.lk == |s.pc|
    ensures !s.asleep[q]
  {
    if s.asleep[q] {
      NoLostWakeup(s, n, q);
    }
  }
}
