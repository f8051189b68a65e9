/**
 The logging protocol (log.c) over every interleaving of file-system operations, cache
 evictions, single block writes of the committer, crashes and recovery steps.

 `events` lists every log_write of an operation in order and `durable` counts those whose
 group has passed its header write.  Neither is read by the protocol: they say what the
 disk is supposed to hold.
 */
module LogMachine {
  import opened Params
  import opened LogDisk
  import opened Machines

  datatype Option<T> = None | Some(value: T)

  /** A cached home block. `unlogged`: modified by its holder since the last log_write. */
  datatype Buf = Buf(data: Block, dirty: bool, holder: Option<nat>, unlogged: bool)

  datatype Event = Event(op: nat, block: int, data: Block)

  /** Where the committer (or the booting kernel) stands between two block writes. */
  datatype Phase =
    | Idle
    | WritingLog(tail: nat)
    | Installing(tail: nat)
    | Finishing
    | Booting
    | Recovering(tail: nat)

  datatype State = State(
    disk: Disk,
    cache: map<int, Buf>,
    lh: seq<int>,
    open: map<nat, nat>,   // operation in progress -> blocks it may still add to the log
    passed: set<nat>,      // operations that have passed log_write's unlocked guard
    outstanding: int,
    committing: bool,
    phase: Phase,
    nextOp: nat,
    events: seq<Event>,
    durable: nat,
    epoch: nat,            // operations of the current group are numbered from here
    base: Disk,            // the initial contents,
    now: Disk,             // those with all events applied,
    committed: Disk)       // and those with the durable events applied

  /** Log geometry and the largest number of blocks one operation adds to the log. */
  datatype Config = Config(g: Geometry, opmax: nat) {
    ghost predicate Valid() {
      g.Valid() && opmax <= MAXOPBLOCKS
    }

    /** The most blocks a group can collect. */
    function Bound(): int {
      LOGSIZE - 2 * (MAXOPBLOCKS - opmax)
    }

    /** The log area has room for the largest group. */
    ghost predicate Roomy() {
      Valid() && Bound() < g.size
    }
  }

  datatype Step =
    | Begin
    | Bread(who: nat, b: int)
    | Modify(op: nat, b: int, data: Block)
    | Guard(op: nat)
    | LogWrite(op: nat, b: int)
    | Brelse(who: nat, b: int)
    | Evict(b: int)
    | End(op: nat)
    | WriteLogBlock
    | CommitHead
    | InstallBlock
    | ClearHead
    | FinishCommit
    | Crash
    | ReadHead
    | RecoverBlock
    | RecoverClear

  /** File-system contents after the logged writes, applied in order. */
  ghost function Contents(base: Disk, events: seq<Event>): (d: Disk)
    ensures |d| == |base|
  {
    if events == [] then base
    else
      var e := events[|events| - 1];
      var d := Contents(base, events[..|events| - 1]);
      if 0 <= e.block < |d| then d[e.block := e.data] else d
  }

  /** log_write's test, made before it takes log.lock. */
  predicate GuardPanics(c: Config, s: State) {
    |s.lh| >= LOGSIZE || |s.lh| >= c.g.size - 1 || s.outstanding < 1
  }

  predicate HeldBy(s: State, b: int, who: nat) {
    b in s.cache && s.cache[b].holder == Some(who)
  }

  /** The buffer may be locked by the committer. */
  predicate Unheld(s: State, b: int) {
    b in s.cache ==> s.cache[b].holder == None
  }

  predicate Running(s: State) {
    !s.phase.Booting? && !s.phase.Recovering?
  }

  /** What keeps the block accesses below in range; part of the invariant. */
  ghost predicate Shape(c: Config, s: State) {
    && c.Valid() && c.g.Fits(s.disk) && c.g.Fits(s.base) && c.g.Fits(s.now) && c.g.Fits(s.committed)
    && HeadOk(c.g, s.lh)
    && s.durable <= |s.events|
    && (forall b :: b in s.cache ==> c.g.Home(b))
  }

  // begin_op, once it no longer has to wait

  ghost predicate CanBegin(c: Config, s: State) {
    Running(s) && !s.committing && |s.lh| + (s.outstanding + 1) * MAXOPBLOCKS <= LOGSIZE
  }

  ghost function DoBegin(c: Config, s: State): State {
    s.(open := s.open[s.nextOp := c.opmax], outstanding := s.outstanding + 1, nextOp := s.nextOp + 1)
  }

  // the buffer cache

  ghost predicate CanBuffer(c: Config, s: State, step: Step) {
    match step
    case Bread(who, b) => Running(s) && c.g.Home(b) && Unheld(s, b)
    case Modify(op, b, _) => op in s.open && HeldBy(s, b, op)
    case Brelse(who, b) => HeldBy(s, b, who) && !s.cache[b].unlogged
    case Evict(b) => b in s.cache && s.cache[b].holder == None && !s.cache[b].dirty
    case _ => false
  }

  ghost function DoBuffer(c: Config, s: State, step: Step): map<int, Buf>
    requires Shape(c, s) && CanBuffer(c, s, step)
  {
    match step
    case Bread(who, b) =>
      var buf := if b in s.cache then s.cache[b] else Buf(s.disk[b], false, None, false);
      s.cache[b := buf.(holder := Some(who))]
    case Modify(op, b, data) => s.cache[b := s.cache[b].(data := data, unlogged := true)]
    case Brelse(who, b) => s.cache[b := s.cache[b].(holder := None)]
    case Evict(b) => s.cache - {b}
  }

  // log_write

  ghost predicate CanLogWrite(s: State, op: nat, b: int) {
    op in s.open && op in s.passed && HeldBy(s, b, op) && (b in s.lh || s.open[op] > 0)
  }

  ghost function DoLogWrite(s: State, op: nat, b: int): State
    requires CanLogWrite(s, op, b) && 0 <= b < |s.now|
  {
    var absorbed := b in s.lh;
    s.(lh := if absorbed then s.lh else s.lh + [b],
       open := if absorbed then s.open else s.open[op := s.open[op] - 1],
       passed := s.passed - {op},
       cache := s.cache[b := s.cache[b].(dirty := true, unlogged := false)],
       events := s.events + [Event(op, b, s.cache[b].data)],
       now := s.now[b := s.cache[b].data])
  }

  // end_op

  ghost predicate CanEnd(s: State, op: nat) {
    op in s.open && forall b :: b in s.cache ==> s.cache[b].holder != Some(op)
  }

  ghost function DoEnd(s: State, op: nat): State {
    var s1 := s.(open := s.open - {op}, passed := s.passed - {op}, outstanding := s.outstanding - 1);
    if s1.outstanding != 0 then s1
    else s1.(committing := true, phase := if s.lh == [] then Finishing else WritingLog(0))
  }

  // commit

  ghost predicate CanWriteLogBlock(s: State) {
    s.phase.WritingLog? && s.phase.tail < |s.lh| && Unheld(s, s.lh[s.phase.tail])
  }

  ghost function DoWriteLogBlock(c: Config, s: State): State
    requires Shape(c, s) && CanWriteLogBlock(s)
  {
    var t := s.phase.tail;
    var b := s.lh[t];
    var from := if b in s.cache then s.cache[b].data else s.disk[b];
    s.(disk := s.disk[c.g.start + 1 + t := from],
       phase := WritingLog(t + 1))
  }

  ghost function DoCommitHead(c: Config, s: State): State
    requires Shape(c, s)
  {
    s.(disk := s.disk[c.g.start := EncodeHead(s.disk[c.g.start], s.lh)],
       phase := Installing(0), durable := |s.events|, epoch := s.nextOp, committed := s.now)
  }

  ghost predicate CanInstallBlock(s: State) {
    s.phase.Installing? && s.phase.tail < |s.lh| && Unheld(s, s.lh[s.phase.tail])
  }

  ghost function DoInstallBlock(c: Config, s: State): State
    requires Shape(c, s) && CanInstallBlock(s)
  {
    var t := s.phase.tail;
    var data := s.disk[c.g.start + 1 + t];
    s.(disk := s.disk[s.lh[t] := data],
       cache := s.cache[s.lh[t] := Buf(data, false, None, false)],
       phase := Installing(t + 1))
  }

  ghost function DoClearHead(c: Config, s: State, next: Phase): State
    requires Shape(c, s)
  {
    s.(lh := [], disk := s.disk[c.g.start := EncodeHead(s.disk[c.g.start], [])], phase := next)
  }

  // power failure and reboot

  ghost function DoCrash(s: State): State
    requires s.durable <= |s.events|
  {
    s.(cache := map[], lh := [], open := map[], passed := {}, outstanding := 0, committing := false,
       phase := Booting, events := s.events[..s.durable], epoch := s.nextOp, now := s.committed)
  }

  ghost function DoReadHead(c: Config, s: State): State
    requires Shape(c, s)
  {
    var lh := DecodeHead(s.disk[c.g.start]);
    s.(lh := lh, phase := Recovering(0))
  }

  ghost function DoRecoverBlock(c: Config, s: State): State
    requires Shape(c, s) && s.phase.Recovering? && s.phase.tail < |s.lh|
  {
    var t := s.phase.tail;
    s.(disk := s.disk[s.lh[t] := s.disk[c.g.start + 1 + t]],
       phase := Recovering(t + 1))
  }

  ghost predicate Enabled(c: Config, s: State, step: Step) {
    match step
    case Begin => CanBegin(c, s)
    case Guard(op) => op in s.open && !GuardPanics(c, s)
    case LogWrite(op, b) => CanLogWrite(s, op, b)
    case End(op) => CanEnd(s, op)
    case WriteLogBlock => CanWriteLogBlock(s)
    case CommitHead => s.phase == WritingLog(|s.lh|)
    case InstallBlock => CanInstallBlock(s)
    case ClearHead => s.phase == Installing(|s.lh|)
    case FinishCommit => s.phase.Finishing?
    case Crash => true
    case ReadHead => s.phase.Booting?
    case RecoverBlock => s.phase.Recovering? && s.phase.tail < |s.lh|
    case RecoverClear => s.phase == Recovering(|s.lh|)
    case _ => CanBuffer(c, s, step)
  }

  ghost function Do(c: Config, s: State, step: Step): (r: State)
    requires Shape(c, s) && Enabled(c, s, step)
  {
    match step
    case Begin => DoBegin(c, s)
    case Guard(op) => s.(passed := s.passed + {op})
    case LogWrite(op, b) => DoLogWrite(s, op, b)
    case End(op) => DoEnd(s, op)
    case WriteLogBlock => DoWriteLogBlock(c, s)
    case CommitHead => DoCommitHead(c, s)
    case InstallBlock => DoInstallBlock(c, s)
    case ClearHead => DoClearHead(c, s, Finishing)
    case FinishCommit => s.(committing := false, phase := Idle)
    case Crash => DoCrash(s)
    case ReadHead => DoReadHead(c, s)
    case RecoverBlock => DoRecoverBlock(c, s)
    case RecoverClear => DoClearHead(c, s, Idle)
    case _ => s.(cache := DoBuffer(c, s, step))
  }

  /** The kernel has just come up on a disk with an empty log (mkfs writes a zero header). */
  ghost predicate Init(c: Config, s: State) {
    && c.Valid() && LogOk(c.g, s.disk) && DecodeHead(s.disk[c.g.start]) == []
    && s == State(s.disk, map[], [], map[], {}, 0, false, Booting, 0, [], 0, 0, s.disk, s.disk, s.disk)
  }

  ghost predicate Leads(c: Config, p: State, step: Step, s: State) {
    Shape(c, p) && Enabled(c, p, step) && s == Do(c, p, step)
  }

  ghost function Boot(c: Config): State -> bool {
    s => Init(c, s)
  }

  ghost function Next(c: Config): (State, Step, State) -> bool {
    (p, step, s) => Leads(c, p, step, s)
  }

  /** The states a run may be in after n steps. */
  ghost predicate Reachable(c: Config, s: State, n: nat) {
    Reach(Boot(c), Next(c), s, n)
  }

  // ---------------------------------------------------------------- invariant

  ghost function Sum(m: map<nat, nat>): (n: nat) {
    if m == map[] then 0
    else
      var k :| k in m;
      m[k] + Sum(m - {k})
  }

  lemma {:induction false} SumRemove(m: map<nat, nat>, k: nat)
    requires k in m
    ensures Sum(m) == m[k] + Sum(m - {k})
    decreases |m|
  {
    var j :| j in m && Sum(m) == m[j] + Sum(m - {j});
    if j != k {
      SumRemove(m - {j}, k);
      SumRemove(m - {k}, j);
      assert m - {j} - {k} == m - {k} - {j};
    }
  }

  lemma SumUpdate(m: map<nat, nat>, k: nat, v: nat)
    ensures Sum(m[k := v]) == v + Sum(m - {k})
  {
    SumRemove(m[k := v], k);
    assert m[k := v] - {k} == m - {k};
  }

  lemma {:induction false} SumBound(m: map<nat, nat>, top: nat)
    requires forall k :: k in m ==> m[k] <= top
    ensures Sum(m) <= top * |m|
    decreases |m|
  {
    if m != map[] {
      var k :| k in m;
      SumRemove(m, k);
      SumBound(m - {k}, top);
      assert |m - {k}| == |m| - 1;
      Times(top, |m - {k}|, |m|);
    }
  }

  lemma Times(top: nat, n: nat, m: nat)
    requires m == n + 1
    ensures top * m == top * n + top
  {
  }

  /** Counters, open operations and the space reserved in the log. */
  ghost predicate Accounting(c: Config, s: State) {
    && s.outstanding == |s.open|
    && (s.committing <==> Running(s) && !s.phase.Idle?)
    && (!s.phase.Idle? ==> s.open == map[])
    && (s.phase.Idle? && s.open == map[] ==> s.lh == [])
    && (forall op :: op in s.open ==> s.open[op] <= c.opmax)
    && (s.phase.Idle? ==> |s.lh| + Sum(s.open) <= c.Bound())
    && |s.lh| <= c.Bound()
    && s.passed <= s.open.Keys
  }

  /** Whole groups lie on one side of `durable`. */
  ghost predicate Grouped(g: Geometry, open: set<nat>, nextOp: nat, events: seq<Event>, durable: nat, epoch: nat) {
    && epoch <= nextOp
    && durable <= |events|
    && (forall op :: op in open ==> epoch <= op < nextOp)
    && (forall i :: 0 <= i < |events| ==> g.Home(events[i].block) && events[i].op < nextOp)
    && (forall i :: 0 <= i < durable ==> events[i].op < epoch)
    && (forall i :: durable <= i < |events| ==> epoch <= events[i].op)
  }

  ghost predicate History(c: Config, s: State) {
    && Grouped(c.g, s.open.Keys, s.nextOp, s.events, s.durable, s.epoch)
    && s.now == Contents(s.base, s.events)
    && s.committed == Contents(s.base, s.events[..s.durable])
  }

  /** The first `upto` log blocks hold the new contents of the logged blocks. */
  ghost predicate LogHolds(g: Geometry, disk: Disk, lh: seq<int>, now: Disk, upto: nat)
    requires g.Fits(disk) && g.Fits(now) && HeadOk(g, lh) && upto <= |lh|
  {
    forall i :: 0 <= i < upto ==> disk[g.start + 1 + i] == now[lh[i]]
  }

  /** The log is empty and every home block holds its contents in `d`. */
  ghost predicate CleanDisk(g: Geometry, disk: Disk, d: Disk)
    requires g.Fits(d)
  {
    LogOk(g, disk) && DecodeHead(disk[g.start]) == [] && SameHome(g, disk, d)
  }

  /** Logged blocks are pinned in the cache and nothing else differs from the disk. */
  ghost predicate Pinned(g: Geometry, cache: map<int, Buf>, lh: seq<int>, open: set<nat>, now: Disk, committed: Disk)
    requires g.Fits(now) && g.Fits(committed) && (forall b :: b in cache ==> g.Home(b))
  {
    && (forall b :: g.Home(b) && b !in lh ==> now[b] == committed[b])
    && (forall b :: b in lh ==> b in cache)
    && (forall b :: b in cache ==>
          && (cache[b].dirty <==> b in lh)
          && (!cache[b].unlogged ==> cache[b].data == now[b])
          && (cache[b].unlogged ==> cache[b].holder.Some? && cache[b].holder.value in open))
  }

  ghost predicate BeforeCommit(c: Config, s: State)
    requires Shape(c, s)
  {
    && CleanDisk(c.g, s.disk, s.committed)
    && Pinned(c.g, s.cache, s.lh, s.open.Keys, s.now, s.committed)
    && (forall i :: s.durable <= i < |s.events| ==> s.events[i].block in s.lh)
  }

  /** The group is in the log; the first `tail` blocks have been copied home. */
  ghost predicate Logged(g: Geometry, disk: Disk, lh: seq<int>, now: Disk, tail: nat)
    requires g.Fits(disk) && g.Fits(now) && HeadOk(g, lh) && tail <= |lh|
  {
    && LogOk(g, disk) && DecodeHead(disk[g.start]) == lh
    && LogHolds(g, disk, lh, now, |lh|)
    && (forall b :: g.Home(b) && b !in lh ==> disk[b] == now[b])
    && (forall i :: 0 <= i < tail ==> disk[lh[i]] == now[lh[i]])
  }

  /** The cache while a group is installed: blocks not yet copied home are still pinned. */
  ghost predicate Settled(g: Geometry, cache: map<int, Buf>, lh: seq<int>, now: Disk, tail: nat)
    requires g.Fits(now) && tail <= |lh|
  {
    forall b :: b in cache ==>
      g.Home(b) && cache[b].data == now[b] && !cache[b].unlogged && (cache[b].dirty <==> b in lh[tail..])
  }

  ghost predicate StillPinned(cache: map<int, Buf>, lh: seq<int>, tail: nat) {
    forall i :: tail <= i < |lh| ==> lh[i] in cache
  }

  ghost predicate AfterCommit(c: Config, s: State, tail: nat)
    requires Shape(c, s) && tail <= |s.lh|
  {
    && s.durable == |s.events| && s.committed == s.now
    && Logged(c.g, s.disk, s.lh, s.now, tail)
    && Settled(c.g, s.cache, s.lh, s.now, tail)
  }

  ghost predicate Data(c: Config, s: State)
    requires Shape(c, s)
  {
    match s.phase
    case Idle => BeforeCommit(c, s)
    case WritingLog(tail) => tail <= |s.lh| && BeforeCommit(c, s) && LogHolds(c.g, s.disk, s.lh, s.now, tail)
    case Installing(tail) => tail <= |s.lh| && AfterCommit(c, s, tail) && StillPinned(s.cache, s.lh, tail)
    case Finishing => s.lh == [] && BeforeCommit(c, s) && s.committed == s.now && s.durable == |s.events|
    case Booting =>
      && s.cache == map[] && s.durable == |s.events| && s.committed == s.now
      && RecoversTo(c.g, s.disk, s.now) && |DecodeHead(s.disk[c.g.start])| <= c.Bound()
    case Recovering(tail) => s.cache == map[] && tail <= |s.lh| && AfterCommit(c, s, tail)
  }

  ghost predicate Inv(c: Config, s: State) {
    Shape(c, s) && Accounting(c, s) && History(c, s) && Data(c, s)
  }

  // ---------------------------------------------------------------- steps on the disk

  lemma LoggedRecovers(g: Geometry, disk: Disk, lh: seq<int>, now: Disk, tail: nat)
    requires g.Fits(disk) && g.Fits(now) && HeadOk(g, lh) && tail <= |lh| && Logged(g, disk, lh, now, tail)
    ensures RecoversTo(g, disk, now)
  {
    RecoveredHome(g, disk);
    forall b | g.Home(b) ensures Recovered(g, disk)[b] == now[b] {
      if b in lh {
        var i :| 0 <= i < |lh| && lh[i] == b;
        assert disk[g.start + 1 + i] == now[lh[i]];
      }
    }
  }

  lemma LoggedInstall(g: Geometry, disk: Disk, lh: seq<int>, now: Disk, tail: nat, next: nat)
    requires g.Fits(disk) && g.Fits(now) && HeadOk(g, lh) && tail < next == tail + 1 <= |lh| && Logged(g, disk, lh, now, tail)
    ensures Logged(g, disk[lh[tail] := disk[g.start + 1 + tail]], lh, now, next)
  {
    assert disk[g.start + 1 + tail] == now[lh[tail]];
  }

  lemma SettledInstall(g: Geometry, cache: map<int, Buf>, disk: Disk, lh: seq<int>, now: Disk, tail: nat)
    requires g.Fits(disk) && g.Fits(now) && HeadOk(g, lh) && tail < |lh|
    requires LogHolds(g, disk, lh, now, |lh|) && Settled(g, cache, lh, now, tail) && StillPinned(cache, lh, tail)
    ensures var cache1 := cache[lh[tail] := Buf(disk[g.start + 1 + tail], false, None, false)];
      Settled(g, cache1, lh, now, tail + 1) && StillPinned(cache1, lh, tail + 1)
  {
    assert lh[tail..] == [lh[tail]] + lh[tail + 1..];
    assert disk[g.start + 1 + tail] == now[lh[tail]];
  }

  lemma LoggedClear(g: Geometry, disk: Disk, lh: seq<int>, now: Disk)
    requires g.Fits(disk) && g.Fits(now) && HeadOk(g, lh) && Logged(g, disk, lh, now, |lh|)
    ensures CleanDisk(g, disk[g.start := EncodeHead(disk[g.start], [])], now)
  {
    forall b | g.Home(b) ensures disk[b] == now[b] {
      if b in lh {
        var i :| 0 <= i < |lh| && lh[i] == b;
      }
    }
  }

  lemma CleanRecovers(g: Geometry, disk: Disk, d: Disk)
    requires g.Fits(d) && CleanDisk(g, disk, d)
    ensures RecoversTo(g, disk, d)
  {
    RecoveredHome(g, disk);
  }

  // ---------------------------------------------------------------- every step keeps the invariant

  lemma InitInv(c: Config, s: State)
    requires Init(c, s)
    ensures Inv(c, s)
  {
    RecoveredHome(c.g, s.disk);
  }

  lemma ContentsSnoc(base: Disk, events: seq<Event>, e: Event)
    requires 0 <= e.block < |base|
    ensures Contents(base, events + [e]) == Contents(base, events)[e.block := e.data]
  {
    assert (events + [e])[..|events|] == events;
  }

  /** begin_op's test leaves room for the blocks every open operation may still add. */
  lemma ReserveOne(c: Config, open: map<nat, nat>, op: nat, n: nat)
    requires c.Valid() && op !in open && (forall k :: k in open ==> open[k] <= c.opmax)
    requires n + (|open| + 1) * MAXOPBLOCKS <= LOGSIZE && (open == map[] ==> n == 0)
    ensures n + Sum(open[op := c.opmax]) <= c.Bound() && |open[op := c.opmax]| == |open| + 1
  {
    assert open - {op} == open;
    SumUpdate(open, op, c.opmax);
    SumBound(open, c.opmax);
    if open != map[] {
      var slack := MAXOPBLOCKS - c.opmax;
      assert slack * (|open| + 1) >= slack * 2;
      assert c.opmax * |open| + c.opmax == c.opmax * (|open| + 1);
    }
  }

  lemma BeginInv(c: Config, s: State)
    requires Inv(c, s) && c.Roomy() && CanBegin(c, s)
    ensures Inv(c, DoBegin(c, s))
  {
    ReserveOne(c, s.open, s.nextOp, |s.lh|);
    var r := DoBegin(c, s);
    assert Accounting(c, r);
    assert Pinned(c.g, r.cache, r.lh, r.open.Keys, r.now, r.committed);
  }

  lemma BufferPinned(c: Config, s: State, step: Step)
    requires Shape(c, s) && CanBuffer(c, s, step) && CleanDisk(c.g, s.disk, s.committed)
    requires Pinned(c.g, s.cache, s.lh, s.open.Keys, s.now, s.committed)
    ensures forall b :: b in DoBuffer(c, s, step) ==> c.g.Home(b)
    ensures Pinned(c.g, DoBuffer(c, s, step), s.lh, s.open.Keys, s.now, s.committed)
  {
  }

  lemma BufferSettled(c: Config, s: State, step: Step, tail: nat)
    requires Shape(c, s) && CanBuffer(c, s, step) && s.open == map[]
    requires tail <= |s.lh| && Logged(c.g, s.disk, s.lh, s.now, tail)
    requires Settled(c.g, s.cache, s.lh, s.now, tail) && StillPinned(s.cache, s.lh, tail)
    ensures Settled(c.g, DoBuffer(c, s, step), s.lh, s.now, tail)
    ensures StillPinned(DoBuffer(c, s, step), s.lh, tail)
  {
    if step.Bread? && step.b !in s.cache {
      assert s.disk[step.b] == s.now[step.b] && step.b !in s.lh[tail..] by {
        if step.b in s.lh {
          var i :| 0 <= i < |s.lh| && s.lh[i] == step.b;
          assert i < tail;
        }
      }
    }
    if step.Evict? {
      forall i | tail <= i < |s.lh| ensures s.lh[i] != step.b {
        assert s.lh[i] == s.lh[tail..][i - tail];
      }
    }
  }

  lemma BufferInv(c: Config, s: State, step: Step)
    requires Inv(c, s) && CanBuffer(c, s, step)
    ensures Inv(c, s.(cache := DoBuffer(c, s, step)))
  {
    match s.phase {
      case Idle => BufferPinned(c, s, step);
      case WritingLog(_) => BufferPinned(c, s, step);
      case Finishing => BufferPinned(c, s, step);
      case Installing(tail) => BufferSettled(c, s, step, tail);
      case _ =>
    }
  }

  lemma LogWritePinned(c: Config, s: State, op: nat, b: int)
    requires Shape(c, s) && CanLogWrite(s, op, b)
    requires Pinned(c.g, s.cache, s.lh, s.open.Keys, s.now, s.committed)
    ensures var r := DoLogWrite(s, op, b);
      (forall x :: x in r.cache ==> c.g.Home(x)) && Pinned(c.g, r.cache, r.lh, r.open.Keys, r.now, r.committed)
  {
    var r := DoLogWrite(s, op, b);
    assert forall x :: x in r.lh <==> x in s.lh || x == b;
    assert r.open.Keys == s.open.Keys;
  }

  lemma LogWriteHistory(c: Config, s: State, op: nat, b: int)
    requires Shape(c, s) && History(c, s) && CanLogWrite(s, op, b)
    ensures History(c, DoLogWrite(s, op, b))
  {
    var r := DoLogWrite(s, op, b);
    ContentsSnoc(s.base, s.events, Event(op, b, s.cache[b].data));
    assert r.events[..r.durable] == s.events[..s.durable];
    assert r.open.Keys == s.open.Keys;
  }

  /** The reservation covers every log_write: lh stays within bounds and duplicate-free. */
  lemma LogWriteAccounting(c: Config, s: State, op: nat, b: int)
    requires Shape(c, s) && Accounting(c, s) && c.Roomy() && CanLogWrite(s, op, b)
    ensures Accounting(c, DoLogWrite(s, op, b)) && HeadOk(c.g, DoLogWrite(s, op, b).lh)
  {
    var r := DoLogWrite(s, op, b);
    if b !in s.lh {
      SumUpdate(s.open, op, s.open[op] - 1);
      SumRemove(s.open, op);
      assert |r.open| == |s.open|;
    }
  }

  lemma LogWriteInv(c: Config, s: State, op: nat, b: int)
    requires Inv(c, s) && c.Roomy() && CanLogWrite(s, op, b)
    ensures Inv(c, DoLogWrite(s, op, b))
  {
    LogWriteAccounting(c, s, op, b);
    LogWriteHistory(c, s, op, b);
    LogWritePinned(c, s, op, b);
  }

  lemma EndBooks(c: Config, s: State, op: nat)
    requires Shape(c, s) && Accounting(c, s) && History(c, s) && CanEnd(s, op)
    ensures Shape(c, DoEnd(s, op)) && Accounting(c, DoEnd(s, op)) && History(c, DoEnd(s, op))
  {
    SumRemove(s.open, op);
    assert |DoEnd(s, op).open| == |s.open| - 1;
  }

  lemma EndData(c: Config, s: State, op: nat)
    requires Shape(c, s) && Accounting(c, s) && History(c, s) && Data(c, s) && CanEnd(s, op)
    ensures Data(c, DoEnd(s, op))
  {
    var r := DoEnd(s, op);
    assert Pinned(c.g, r.cache, r.lh, r.open.Keys, r.now, r.committed);
    if s.lh == [] {
      assert s.durable == |s.events|;
      assert s.events[..s.durable] == s.events;
    }
  }

  lemma EndInv(c: Config, s: State, op: nat)
    requires Inv(c, s) && CanEnd(s, op)
    ensures Inv(c, DoEnd(s, op))
  {
    EndBooks(c, s, op);
    EndData(c, s, op);
  }

  lemma WriteLogBlockBooks(c: Config, s: State)
    requires Shape(c, s) && Accounting(c, s) && History(c, s) && CanWriteLogBlock(s)
    ensures var r := DoWriteLogBlock(c, s); Shape(c, r) && Accounting(c, r) && History(c, r)
  {
  }

  /** One more log block written: home blocks and header are untouched. */
  lemma LogBlockWritten(g: Geometry, disk: Disk, lh: seq<int>, now: Disk, committed: Disk, tail: nat, next: nat,
      data: Block)
    requires g.Fits(disk) && g.Fits(now) && g.Fits(committed) && HeadOk(g, lh) && tail < next == tail + 1 <= |lh| <= LOGSIZE
    requires CleanDisk(g, disk, committed) && LogHolds(g, disk, lh, now, tail) && data == now[lh[tail]]
    ensures var e := disk[g.start + 1 + tail := data]; CleanDisk(g, e, committed) && LogHolds(g, e, lh, now, next)
  {
  }

  lemma WriteLogBlockInv(c: Config, s: State)
    requires Inv(c, s) && CanWriteLogBlock(s)
    ensures Inv(c, DoWriteLogBlock(c, s))
  {
    WriteLogBlockBooks(c, s);
    WriteLogBlockData(c, s);
  }

  lemma WriteLogBlockData(c: Config, s: State)
    requires Shape(c, s) && Data(c, s) && CanWriteLogBlock(s)
    ensures Data(c, DoWriteLogBlock(c, s))
  {
    var t := s.phase.tail;
    assert s.lh[t] in s.lh;
    assert !s.cache[s.lh[t]].unlogged;
    LogBlockWritten(c.g, s.disk, s.lh, s.now, s.committed, t, t + 1, s.cache[s.lh[t]].data);
  }

  lemma CommitHeadBooks(c: Config, s: State)
    requires Shape(c, s) && Accounting(c, s) && History(c, s) && s.phase.WritingLog?
    ensures var r := DoCommitHead(c, s); Shape(c, r) && Accounting(c, r) && History(c, r)
  {
    assert s.events[..|s.events|] == s.events;
  }

  lemma CommitHeadInv(c: Config, s: State)
    requires Inv(c, s) && s.phase == WritingLog(|s.lh|)
    ensures Inv(c, DoCommitHead(c, s))
  {
    CommitHeadBooks(c, s);
    CommitHeadData(c, s);
  }

  lemma CommitHeadData(c: Config, s: State)
    requires Shape(c, s) && Accounting(c, s) && Data(c, s) && s.phase == WritingLog(|s.lh|)
    ensures Data(c, DoCommitHead(c, s))
  {
    var r := DoCommitHead(c, s);
    assert s.lh[0..] == s.lh;
    assert Logged(c.g, r.disk, r.lh, r.now, 0);
    assert Settled(c.g, r.cache, r.lh, r.now, 0);
    assert StillPinned(r.cache, r.lh, 0);
  }

  lemma InstallBlockBooks(c: Config, s: State)
    requires Shape(c, s) && Accounting(c, s) && History(c, s) && CanInstallBlock(s)
    ensures var r := DoInstallBlock(c, s); Shape(c, r) && Accounting(c, r) && History(c, r)
  {
  }

  lemma InstallBlockData(c: Config, s: State, t: nat, next: nat)
    requires Shape(c, s) && CanInstallBlock(s) && t == s.phase.tail && next == t + 1 && Logged(c.g, s.disk, s.lh, s.now, t)
    ensures Logged(c.g, DoInstallBlock(c, s).disk, s.lh, s.now, next)
  {
    var e := s.disk[s.lh[t] := s.disk[c.g.start + 1 + t]];
    LoggedInstall(c.g, s.disk, s.lh, s.now, t, next);
    assert DoInstallBlock(c, s).disk == e;
  }

  lemma InstallBlockCache(c: Config, s: State)
    requires Shape(c, s) && CanInstallBlock(s) && LogHolds(c.g, s.disk, s.lh, s.now, |s.lh|)
    requires Settled(c.g, s.cache, s.lh, s.now, s.phase.tail) && StillPinned(s.cache, s.lh, s.phase.tail)
    ensures var r := DoInstallBlock(c, s);
      Settled(c.g, r.cache, r.lh, r.now, s.phase.tail + 1) && StillPinned(r.cache, r.lh, s.phase.tail + 1)
  {
    SettledInstall(c.g, s.cache, s.disk, s.lh, s.now, s.phase.tail);
  }

  lemma InstallBlockInv(c: Config, s: State)
    requires Inv(c, s) && CanInstallBlock(s)
    ensures Inv(c, DoInstallBlock(c, s))
  {
    InstallBlockBooks(c, s);
    InstallBlockData(c, s, s.phase.tail, s.phase.tail + 1);
    InstallBlockCache(c, s);
  }

  lemma ClearHeadInv(c: Config, s: State)
    requires Inv(c, s) && s.phase == Installing(|s.lh|)
    ensures Inv(c, DoClearHead(c, s, Finishing))
  {
    LoggedClear(c.g, s.disk, s.lh, s.now);
    assert s.lh[|s.lh|..] == [];
  }

  lemma FinishCommitInv(c: Config, s: State)
    requires Inv(c, s) && s.phase.Finishing?
    ensures Inv(c, s.(committing := false, phase := Idle))
  {
    assert Sum(map[]) == 0;
  }

  /** Whatever the phase, the disk recovers to the committed contents. */
  lemma CrashView(c: Config, s: State)
    requires Inv(c, s)
    ensures RecoversTo(c.g, s.disk, s.committed)
  {
    match s.phase {
      case Idle => CleanRecovers(c.g, s.disk, s.committed);
      case WritingLog(_) => CleanRecovers(c.g, s.disk, s.committed);
      case Finishing => CleanRecovers(c.g, s.disk, s.committed);
      case Installing(tail) => LoggedRecovers(c.g, s.disk, s.lh, s.now, tail);
      case Booting =>
      case Recovering(tail) => LoggedRecovers(c.g, s.disk, s.lh, s.now, tail);
    }
  }

  lemma CrashInv(c: Config, s: State)
    requires Inv(c, s)
    ensures Inv(c, DoCrash(s))
  {
    CrashView(c, s);
    var r := DoCrash(s);
    assert r.events[..r.durable] == r.events;
  }

  lemma ReadHeadInv(c: Config, s: State)
    requires Inv(c, s) && c.Roomy() && s.phase.Booting?
    ensures Inv(c, DoReadHead(c, s))
  {
    RecoveredHome(c.g, s.disk);
    var r := DoReadHead(c, s);
    assert Accounting(c, r) && History(c, r);
    assert Logged(c.g, r.disk, r.lh, r.now, 0);
    assert Settled(c.g, r.cache, r.lh, r.now, 0);
    assert AfterCommit(c, r, 0);
  }

  lemma RecoverBlockBooks(c: Config, s: State)
    requires Shape(c, s) && Accounting(c, s) && History(c, s) && s.phase.Recovering? && s.phase.tail < |s.lh|
    ensures var r := DoRecoverBlock(c, s); Shape(c, r) && Accounting(c, r) && History(c, r)
  {
  }

  lemma RecoverBlockData(c: Config, s: State, next: nat)
    requires Shape(c, s) && s.phase.Recovering? && next == s.phase.tail + 1 <= |s.lh| && Logged(c.g, s.disk, s.lh, s.now, s.phase.tail)
    ensures Logged(c.g, DoRecoverBlock(c, s).disk, s.lh, s.now, next) && DoRecoverBlock(c, s).phase == Recovering(next)
  {
    var t := s.phase.tail;
    var e := s.disk[s.lh[t] := s.disk[c.g.start + 1 + t]];
    LoggedInstall(c.g, s.disk, s.lh, s.now, t, next);
    assert DoRecoverBlock(c, s).disk == e;
  }

  lemma RecoverBlockInv(c: Config, s: State)
    requires Inv(c, s) && s.phase.Recovering? && s.phase.tail < |s.lh|
    ensures Inv(c, DoRecoverBlock(c, s))
  {
    RecoverBlockBooks(c, s);
    RecoverBlockData(c, s, s.phase.tail + 1);
  }

  lemma RecoverClearInv(c: Config, s: State)
    requires Inv(c, s) && s.phase == Recovering(|s.lh|)
    ensures Inv(c, DoClearHead(c, s, Idle))
  {
    LoggedClear(c.g, s.disk, s.lh, s.now);
    assert Sum(map[]) == 0;
  }

  predicate IsCommit(step: Step) {
    step.WriteLogBlock? || step.CommitHead? || step.InstallBlock? || step.ClearHead? || step.FinishCommit?
  }

  predicate IsReboot(step: Step) {
    step.Crash? || step.ReadHead? || step.RecoverBlock? || step.RecoverClear?
  }

  lemma CommitStepInv(c: Config, s: State, step: Step)
    requires Inv(c, s) && IsCommit(step) && Enabled(c, s, step)
    ensures Inv(c, Do(c, s, step))
  {
    match step {
      case WriteLogBlock => WriteLogBlockInv(c, s);
      case CommitHead => CommitHeadInv(c, s);
      case InstallBlock => InstallBlockInv(c, s);
      case ClearHead => ClearHeadInv(c, s);
      case FinishCommit => FinishCommitInv(c, s);
    }
  }

  lemma RebootStepInv(c: Config, s: State, step: Step)
    requires Inv(c, s) && c.Roomy() && IsReboot(step) && Enabled(c, s, step)
    ensures Inv(c, Do(c, s, step))
  {
    match step {
      case Crash => CrashInv(c, s);
      case ReadHead => ReadHeadInv(c, s);
      case RecoverBlock => RecoverBlockInv(c, s);
      case RecoverClear => RecoverClearInv(c, s);
    }
  }

  predicate IsOp(step: Step) {
    step.Begin? || step.Guard? || step.LogWrite? || step.End?
  }

  lemma OpStepInv(c: Config, s: State, step: Step)
    requires Inv(c, s) && c.Roomy() && IsOp(step) && Enabled(c, s, step)
    ensures Inv(c, Do(c, s, step))
  {
    match step {
      case Begin => BeginInv(c, s);
      case Guard(op) => GuardInv(c, s, op);
      case LogWrite(op, b) => LogWriteInv(c, s, op, b);
      case End(op) => EndInv(c, s, op);
    }
  }

  lemma StepInv(c: Config, s: State, step: Step)
    requires Inv(c, s) && c.Roomy() && Enabled(c, s, step)
    ensures Inv(c, Do(c, s, step))
  {
    if IsCommit(step) {
      CommitStepInv(c, s, step);
    } else if IsReboot(step) {
      RebootStepInv(c, s, step);
    } else if IsOp(step) {
      OpStepInv(c, s, step);
    } else {
      BufferInv(c, s, step);
    }
  }

  lemma GuardInv(c: Config, s: State, op: nat)
    requires Inv(c, s) && op in s.open
    ensures Inv(c, s.(passed := s.passed + {op}))
  {
  }

  lemma ReachableInv(c: Config, s: State, n: nat)
    requires c.Roomy() && Reachable(c, s, n)
    ensures Inv(c, s)
  {
    var P := (s: State) => Inv(c, s);
    forall s: State | Init(c, s) ensures P(s) {
      InitInv(c, s);
    }
    forall p: State, step: Step, s: State | P(p) && Leads(c, p, step, s) ensures P(s) {
      StepInv(c, p, step);
    }
    Induct(Boot(c), Next(c), P, s, n);
  }

  // ---------------------------------------------------------------- what the protocol promises

  /**
   Crash consistency: at every instant of every run, the disk on its own recovers to the
   effects of exactly the committed events, and no operation has events on both sides.
   */
  lemma CrashConsistency(c: Config, s: State, n: nat)
    requires c.Roomy() && Reachable(c, s, n)
    ensures s.durable <= |s.events| && c.g.Fits(s.base)
    ensures RecoversTo(c.g, s.disk, Contents(s.base, s.events[..s.durable]))
    ensures forall i, j :: 0 <= i < s.durable <= j < |s.events| ==> s.events[i].op != s.events[j].op
  {
    ReachableInv(c, s, n);
    CrashView(c, s);
  }

  /** Group commit: while a commit runs no operation is open, and none can start, modify or log. */
  lemma CommitIsAlone(c: Config, s: State, n: nat, step: Step)
    requires c.Roomy() && Reachable(c, s, n) && s.committing
    ensures s.outstanding == 0 && s.open == map[]
    ensures step.Begin? || step.Modify? || step.LogWrite? || step.Guard? || step.End? ==> !Enabled(c, s, step)
  {
    ReachableInv(c, s, n);
  }

  /** The reservation made by begin_op bounds the log in every interleaving. */
  lemma LogReservation(c: Config, s: State, n: nat)
    requires c.Roomy() && Reachable(c, s, n)
    ensures HeadOk(c.g, s.lh) && |s.lh| <= c.Bound()
    ensures s.phase.Idle? ==> |s.lh| + Sum(s.open) <= c.Bound()
  {
    ReachableInv(c, s, n);
  }

  /** A roomy log area never lets log_write's guard panic for an operation that is open. */
  lemma GuardNeverPanics(c: Config, s: State, n: nat)
    requires c.Roomy() && c.Bound() < LOGSIZE && c.Bound() < c.g.size - 1
    requires Reachable(c, s, n) && s.open != map[]
    ensures !GuardPanics(c, s)
  {
    ReachableInv(c, s, n);
  }

  /** Once the last operation's end_op has returned, everything logged so far is on disk. */
  lemma QuietMeansDurable(c: Config, s: State, n: nat)
    requires c.Roomy() && Reachable(c, s, n) && s.phase.Idle? && s.open == map[]
    ensures s.durable == |s.events| && c.g.Fits(s.disk) && c.g.Fits(s.base)
    ensures SameHome(c.g, s.disk, Contents(s.base, s.events))
  {
    ReachableInv(c, s, n);
    assert s.events[..s.durable] == s.events;
  }

  lemma CommittedStep(c: Config, p: State, step: Step, s: State)
    requires Leads(c, p, step, s)
    ensures p.durable <= s.durable <= |s.events| && p.events[..p.durable] <= s.events[..s.durable]
  {
  }

  /** Durability: no later run, whatever its crashes, loses or reorders a committed event. */
  lemma CommittedForever(c: Config, p: State, s: State, n: nat)
    requires p.durable <= |p.events| && Reach(q => q == p, Next(c), s, n)
    ensures s.durable <= |s.events| && p.events[..p.durable] <= s.events[..s.durable]
  {
    var P := (s: State) => s.durable <= |s.events| && p.events[..p.durable] <= s.events[..s.durable];
    forall q: State, step: Step, s: State | P(q) && Leads(c, q, step, s) ensures P(s) {
      CommittedStep(c, q, step, s);
    }
    Induct(q => q == p, Next(c), P, s, n);
  }

  ghost function NextReboot(c: Config): (State, Step, State) -> bool {
    (p, step, s) => IsReboot(step) && Leads(c, p, step, s)
  }

  /** r is reached from s by a power failure and then power failures and recovery steps only. */
  ghost predicate Reboots(c: Config, s: State, r: State, n: nat) {
    s.durable <= |s.events| && Reach(q => q == DoCrash(s), NextReboot(c), r, n)
  }

  lemma RebootStep(c: Config, p: State, step: Step, r: State)
    requires IsReboot(step) && Leads(c, p, step, r) && p.durable == |p.events| && p.open == map[]
    ensures r.events == p.events && r.durable == p.durable && r.base == p.base && r.open == map[]
  {
    assert p.events[..p.durable] == p.events;
  }

  lemma RebootsInv(c: Config, s: State, r: State, n: nat)
    requires c.Roomy() && Inv(c, s) && Reboots(c, s, r, n)
    ensures Inv(c, r)
    ensures r.events == s.events[..s.durable] && r.durable == |r.events| && r.base == s.base && r.open == map[]
  {
    var P := (q: State) => Inv(c, q);
    var Q := (q: State) =>
      q.events == s.events[..s.durable] && q.durable == |q.events| && q.base == s.base && q.open == map[];
    CrashInv(c, s);
    forall p: State, step: Step, q: State | P(p) && IsReboot(step) && Leads(c, p, step, q) ensures P(q) {
      StepInv(c, p, step);
    }
    forall p: State, step: Step, q: State | Q(p) && IsReboot(step) && Leads(c, p, step, q) ensures Q(q) {
      RebootStep(c, p, step, q);
    }
    Induct(q => q == DoCrash(s), NextReboot(c), P, r, n);
    Induct(q => q == DoCrash(s), NextReboot(c), Q, r, n);
  }

  /**
   Crash atomicity: stop the machine at any instant, then any number of times during recovery;
   the recovery that completes leaves every home block as the committed groups made it.
   */
  lemma CrashAtomicity(c: Config, s: State, n: nat, r: State, m: nat)
    requires c.Roomy() && Reachable(c, s, n) && Reboots(c, s, r, m) && r.phase.Idle?
    ensures c.g.Fits(r.disk) && c.g.Fits(s.base) && s.durable <= |s.events|
    ensures SameHome(c.g, r.disk, Contents(s.base, s.events[..s.durable]))
  {
    ReachableInv(c, s, n);
    RebootsInv(c, s, r, m);
    assert r.events[..r.durable] == r.events;
  }

  // ---------------------------------------------------------------- invariants of the file system

  /** Runs that start from contents satisfying P and in which they do again whenever the last open operation ends. */
  ghost function BootWith(c: Config, P: Disk -> bool): State -> bool {
    s => Init(c, s) && P(s.now)
  }

  ghost function NextWith(c: Config, P: Disk -> bool): (State, Step, State) -> bool {
    (p, step, s) => Leads(c, p, step, s) && (step.End? && s.open == map[] ==> P(s.now))
  }

  ghost predicate Keeps(c: Config, P: Disk -> bool, s: State) {
    P(s.committed) && (s.open == map[] ==> P(s.now))
  }

  lemma NoneOpen(c: Config, p: State)
    requires Inv(c, p) && p.phase.WritingLog?
    ensures p.open == map[]
  {
  }

  lemma KeepsStep(c: Config, P: Disk -> bool, p: State, step: Step, s: State)
    requires Keeps(c, P, p) && Leads(c, p, step, s) && (step.End? && s.open == map[] ==> P(s.now)) && (step.CommitHead? ==> p.open == map[])
    ensures Keeps(c, P, s)
  {
    if step.Begin? {
      assert p.nextOp in s.open;
    } else if step.LogWrite? {
      assert step.op in s.open;
    }
  }

  lemma KeptStep(c: Config, P: Disk -> bool, p: State, step: Step, q: State)
    requires c.Roomy() && Inv(c, p) && Keeps(c, P, p) && Leads(c, p, step, q) && (step.End? && q.open == map[] ==> P(q.now))
    ensures Inv(c, q) && Keeps(c, P, q)
  {
    StepInv(c, p, step);
    if step.CommitHead? {
      NoneOpen(c, p);
    }
    KeepsStep(c, P, p, step, q);
  }

  /**
   Whatever holds of the file-system contents at the start and each time no operation is left
   open survives every crash: the disk recovers to contents of which it holds.
   */
  lemma InvariantSurvivesCrashes(c: Config, P: Disk -> bool, s: State, n: nat)
    requires c.Roomy() && Reach(BootWith(c, P), NextWith(c, P), s, n)
    ensures s.durable <= |s.events| && c.g.Fits(s.base)
    ensures P(Contents(s.base, s.events[..s.durable])) && RecoversTo(c.g, s.disk, Contents(s.base, s.events[..s.durable]))
  {
    var Q := (q: State) => Inv(c, q) && Keeps(c, P, q);
    forall q: State | Init(c, q) && P(q.now) ensures Q(q) {
      InitInv(c, q);
    }
    forall p: State, step: Step, q: State | Q(p) && Leads(c, p, step, q) && (step.End? && q.open == map[] ==> P(q.now)) ensures Q(q) {
      KeptStep(c, P, p, step, q);
    }
    Induct(BootWith(c, P), NextWith(c, P), Q, s, n);
    CrashView(c, s);
  }
}
