/**
 commit() and recover_from_log() (log.c) as they run: one block write after another.
 `trace` records the disk after every single write, so a crash "between any two
 block writes" is a choice of one element of the trace.
 */
module LogCommit {
  import opened Params
  import opened LogDisk

  /**
   File-system contents once the logged blocks are installed: those with a buffer hold what the
   buffer does, all others what they held before.
   */
  ghost predicate IsAfter(g: Geometry, before: Disk, blocks: seq<int>, cache: map<int, Block>, d: Disk)
    requires g.Fits(before) && g.Fits(d) && HeadOk(g, blocks)
  {
    && (forall k :: 0 <= k < |blocks| && blocks[k] in cache ==> d[blocks[k]] == cache[blocks[k]])
    && (forall k :: 0 <= k < |blocks| && blocks[k] !in cache ==> d[blocks[k]] == before[blocks[k]])
    && (forall b :: g.Home(b) && b !in blocks ==> d[b] == before[b])
  }

  /** What bread returns: the cached copy if there is one, the disk block otherwise. */
  function Current(d: Disk, cache: map<int, Block>, b: int): (x: Block)
    requires 0 <= b < |d|
    ensures b in cache ==> x == cache[b]
    ensures b !in cache ==> x == d[b]
  {
    if b in cache then cache[b] else d[b]
  }

  /** The first n log blocks hold the buffers of the first n logged blocks, or what those blocks held before. */
  ghost predicate Copied(g: Geometry, before: Disk, blocks: seq<int>, cache: map<int, Block>, d: Disk, n: nat)
    requires g.Fits(before) && g.Fits(d) && HeadOk(g, blocks) && n <= |blocks|
  {
    && (forall k :: 0 <= k < n && blocks[k] in cache ==> d[g.start + 1 + k] == cache[blocks[k]])
    && (forall k :: 0 <= k < n && blocks[k] !in cache ==> d[g.start + 1 + k] == before[blocks[k]])
  }

  /** The header write is the commit point: from it on, recovery yields the new contents. */
  lemma HeadStep(g: Geometry, before: Disk, blocks: seq<int>, cache: map<int, Block>, d: Disk)
    requires g.Fits(before) && HeadOk(g, blocks) && LogOk(g, d) && DecodeHead(d[g.start]) == blocks
    requires SameHome(g, d, before)
    requires Copied(g, before, blocks, cache, d, |blocks|)
    ensures IsAfter(g, before, blocks, cache, Recovered(g, d))
  {
    RecoveredHome(g, d);
  }

  /** The log area plays no part in it. */
  lemma SameAfter(g: Geometry, before: Disk, blocks: seq<int>, cache: map<int, Block>, d: Disk, e: Disk)
    requires g.Fits(before) && g.Fits(d) && g.Fits(e) && HeadOk(g, blocks) && IsAfter(g, before, blocks, cache, d) && SameHome(g, e, d)
    ensures IsAfter(g, before, blocks, cache, e)
  {
  }

  /** One more log block. */
  lemma CopiedNext(g: Geometry, before: Disk, blocks: seq<int>, cache: map<int, Block>, d: Disk, n: nat, next: nat, x: Block)
    requires g.Fits(before) && g.Fits(d) && HeadOk(g, blocks) && n < next == n + 1 <= |blocks| && Copied(g, before, blocks, cache, d, n)
    requires if blocks[n] in cache then x == cache[blocks[n]] else x == before[blocks[n]]
    ensures Copied(g, before, blocks, cache, d[g.start + 1 + n := x], next)
  {
  }

  /** Part way through write_log: n log blocks written since d0, nothing else changed. */
  ghost predicate Logging(g: Geometry, d0: Disk, blocks: seq<int>, cache: map<int, Block>, d: Disk, n: nat) {
    && LogOk(g, d0) && LogOk(g, d) && HeadOk(g, blocks) && d[g.start] == d0[g.start] && SameHome(g, d, d0)
    && n <= |blocks| && Copied(g, d0, blocks, cache, d, n)
  }

  lemma LoggingNext(g: Geometry, d0: Disk, blocks: seq<int>, cache: map<int, Block>, d: Disk, n: nat, next: nat, x: Block)
    requires Logging(g, d0, blocks, cache, d, n) && DecodeHead(d0[g.start]) == [] && n < next == n + 1 <= |blocks|
    requires if blocks[n] in cache then x == cache[blocks[n]] else x == d[blocks[n]]
    ensures var e := d[g.start + 1 + n := x]; Logging(g, d0, blocks, cache, e, next) && RecoversTo(g, e, d0)
  {
    assert d[blocks[n]] == d0[blocks[n]];
    LogBlockStep(g, d, n, x);
    CopiedNext(g, d0, blocks, cache, d, n, next, x);
  }

  lemma TraceStart(t: seq<Disk>)
    ensures t + [] == t
  {
  }

  lemma TraceNext(t: seq<Disk>, done: seq<Disk>, d: Disk)
    ensures t + done + [d] == t + (done + [d])
  {
  }

  lemma TraceSplit(t: seq<Disk>, before: seq<Disk>, d: Disk, rest: seq<Disk>)
    ensures t + before + [d] + rest == t + before + ([d] + rest)
  {
  }

  /** What install_trans leaves, block by block. */
  lemma InstalledBlocks(g: Geometry, d: Disk, blocks: seq<int>)
    requires g.Fits(d) && HeadOk(g, blocks)
    ensures forall k :: 0 <= k < |blocks| ==> InstallFrom(g, d, blocks, 0)[blocks[k]] == d[g.start + 1 + k]
    ensures forall b :: 0 <= b < g.total && b !in blocks ==> InstallFrom(g, d, blocks, 0)[b] == d[b]
  {
    InstallFromAt(g, d, blocks, 0);
    assert blocks[0..] == blocks;
  }

  lemma AllRecoverNext(g: Geometry, ds: seq<Disk>, d: Disk, home: Disk)
    requires g.Fits(home) && AllRecover(g, ds, home) && RecoversTo(g, d, home)
    ensures AllRecover(g, ds + [d], home)
  {
  }

  /** The header write, once the log blocks are written. */
  lemma HeadWritten(g: Geometry, d0: Disk, d1: Disk, blocks: seq<int>, cache: map<int, Block>)
    requires g.Fits(d0) && LogOk(g, d1) && HeadOk(g, blocks) && SameHome(g, d1, d0) && Copied(g, d0, blocks, cache, d1, |blocks|)
    ensures var e := d1[g.start := EncodeHead(d1[g.start], blocks)];
      LogOk(g, e) && DecodeHead(e[g.start]) == blocks && IsAfter(g, d0, blocks, cache, Recovered(g, e))
  {
    HeadStep(g, d0, blocks, cache, d1[g.start := EncodeHead(d1[g.start], blocks)]);
  }

  /** e is d with one block written. */
  ghost predicate OneBlock(d: Disk, e: Disk) {
    |e| == |d| && exists b :: 0 <= b < |d| && e == d[b := e[b]]
  }

  ghost predicate StepAt(trace: seq<Disk>, i: nat) {
    i + 1 < |trace| ==> OneBlock(trace[i], trace[i + 1])
  }

  /** The trace leads to the disk by writes of one block each. */
  ghost predicate Stepwise(trace: seq<Disk>, disk: Disk) {
    trace != [] && trace[|trace| - 1] == disk && forall i: nat :: i < |trace| ==> StepAt(trace, i)
  }

  lemma OneStepMore(trace: seq<Disk>, d: Disk, e: Disk, b: nat, data: Block)
    requires Stepwise(trace, d) && b < |d| && e == d[b := data]
    ensures Stepwise(trace + [e], e)
  {
    forall i: nat | i < |trace| + 1 ensures StepAt(trace + [e], i) {
      if i + 1 < |trace| {
        assert StepAt(trace, i);
      } else if i + 1 == |trace| {
        assert e == d[b := e[b]];
        assert OneBlock(d, e);
      }
    }
  }

  class Log {
    const g: Geometry
    var disk: Disk
    var lh: seq<int>
    ghost var trace: seq<Disk>

    /** `trace` has every state the disk has been in, each one block write from the one before. */
    ghost predicate Valid()
      reads this
    {
      g.Fits(disk) && HeadOk(g, lh) && Stepwise(trace, disk)
    }

    constructor (g: Geometry, disk: Disk)
      requires g.Fits(disk)
      ensures Valid() && this.g == g && this.disk == disk && lh == [] && trace == [disk]
    {
      this.g, this.disk, lh, trace := g, disk, [], [disk];
    }

    /** One atomic block write. */
    method Bwrite(b: int, data: Block)
      requires Valid() && 0 <= b < g.total
      modifies this`disk, this`trace
      ensures Valid() && disk == old(disk)[b := data] && trace == old(trace) + [disk]
    {
      OneStepMore(trace, disk, disk[b := data], b, data);
      disk := disk[b := data];
      trace := trace + [disk];
    }

    method WriteHead()
      requires Valid()
      modifies this`disk, this`trace
      ensures Valid() && disk == old(disk)[g.start := EncodeHead(old(disk)[g.start], lh)]
      ensures trace == old(trace) + [disk]
    {
      Bwrite(g.start, EncodeHead(disk[g.start], lh));
    }

    method ReadHead()
      requires Valid() && LogOk(g, disk)
      modifies this`lh
      ensures Valid() && lh == DecodeHead(disk[g.start])
      ensures |lh| == (if disk[g.start][0] > 0 then disk[g.start][0] else 0) && forall i :: 0 <= i < |lh| ==> lh[i] == disk[g.start][1 + i]
    {
      lh := [];
      var h := disk[g.start];
      var i := 0;
      while i < h[0]
        invariant 0 <= i
        invariant h == disk[g.start]
        invariant h[0] > 0 ==> i <= |DecodeHead(h)|
        invariant lh == if h[0] > 0 then DecodeHead(h)[..i] else []
      {
        lh := lh + [h[1 + i]];
        i := i + 1;
      }
      forall k | 0 <= k < |lh| ensures lh[k] == disk[g.start][1 + k] {
        HeadWords(h, [], k);
      }
    }

    /** Copy every log block to its home; a crash after any of the writes, which lead to the disks `done`, recovers to the same contents. */
    method InstallTrans() returns (ghost done: seq<Disk>)
      requires Valid() && LogOk(g, disk) && lh == DecodeHead(disk[g.start])
      modifies this`disk, this`trace
      ensures Valid() && LogOk(g, disk) && disk[g.start] == old(disk)[g.start]
      ensures disk == InstallFrom(g, old(disk), lh, 0)
      ensures forall k :: 0 <= k < |lh| ==> disk[lh[k]] == disk[g.start + 1 + k] == old(disk)[g.start + 1 + k]
      ensures forall b :: 0 <= b < g.total && b !in lh ==> disk[b] == old(disk)[b]
      ensures trace == old(trace) + done && AllRecover(g, done, Recovered(g, old(disk)))
      ensures SameHome(g, Recovered(g, disk), Recovered(g, old(disk)))
    {
      done := CopyHome();
      InstalledBlocks(g, old(disk), lh);
    }

    /** The loop of install_trans. */
    method CopyHome() returns (ghost done: seq<Disk>)
      requires Valid() && LogOk(g, disk) && lh == DecodeHead(disk[g.start])
      modifies this`disk, this`trace
      ensures Valid() && LogOk(g, disk) && disk[g.start] == old(disk)[g.start]
      ensures disk == InstallFrom(g, old(disk), lh, 0)
      ensures forall k :: 0 <= k < |lh| ==> disk[lh[k]] == disk[g.start + 1 + k]
      ensures trace == old(trace) + done && AllRecover(g, done, Recovered(g, old(disk)))
      ensures SameHome(g, Recovered(g, disk), Recovered(g, old(disk)))
    {
      ghost var d0, t0, home := disk, trace, Recovered(g, disk);
      done := [];
      TraceStart(t0);
      var tail := 0;
      while tail < |lh|
        invariant 0 <= tail <= |lh| && Valid() && InstallProgress(g, d0, disk, tail)
        invariant trace == t0 + done && AllRecover(g, done, home)
      {
        InstallProgressStep(g, d0, disk, tail);
        Bwrite(lh[tail], disk[g.start + 1 + tail]);
        TraceNext(t0, done, disk);
        AllRecoverNext(g, done, disk, home);
        done := done + [disk];
        tail := tail + 1;
      }
    }

    /** Boot-time recovery: repeatable, because every intermediate disk recovers to the same contents. */
    method RecoverFromLog() returns (ghost done: seq<Disk>)
      requires Valid() && LogOk(g, disk)
      modifies this
      ensures Valid() && LogOk(g, disk) && lh == [] && disk[g.start][0] == 0
      ensures disk == Recovered(g, old(disk))
      ensures trace == old(trace) + done && AllRecover(g, done, Recovered(g, old(disk)))
    {
      ghost var t0, home := trace, Recovered(g, disk);
      ReadHead();
      done := InstallTrans();
      ClearStep(g, disk);
      lh := [];
      WriteHead();
      assert disk == home;
      AllRecoverJoin(g, done, [disk], home, home);
      TraceNext(t0, done, disk);
      done := done + [disk];
    }

    /** Copy the cached contents of the logged blocks into the log area; a crash meanwhile recovers to the old contents. */
    method WriteLog(cache: map<int, Block>) returns (ghost done: seq<Disk>)
      requires Valid() && LogOk(g, disk) && DecodeHead(disk[g.start]) == []
      modifies this`disk, this`trace
      ensures Valid() && LogOk(g, disk) && disk[g.start] == old(disk)[g.start]
      ensures SameHome(g, disk, old(disk))
      ensures forall k :: 0 <= k < |lh| && lh[k] in cache ==> disk[g.start + 1 + k] == cache[lh[k]]
      ensures forall k :: 0 <= k < |lh| && lh[k] !in cache ==> disk[g.start + 1 + k] == old(disk)[lh[k]]
      ensures trace == old(trace) + done && AllRecover(g, done, old(disk))
    {
      done := CopyBlocks(cache);
    }

    /** The loop of write_log. */
    method CopyBlocks(cache: map<int, Block>) returns (ghost done: seq<Disk>)
      requires Valid() && LogOk(g, disk) && DecodeHead(disk[g.start]) == []
      modifies this`disk, this`trace
      ensures Valid() && Logging(g, old(disk), lh, cache, disk, |lh|)
      ensures trace == old(trace) + done && AllRecover(g, done, old(disk))
    {
      ghost var d0, t0 := disk, trace;
      done := [];
      TraceStart(t0);
      var tail := 0;
      while tail < |lh|
        invariant 0 <= tail <= |lh| && Valid() && Logging(g, d0, lh, cache, disk, tail)
        invariant trace == t0 + done && AllRecover(g, done, d0)
      {
        ghost var next := tail + 1;
        ghost var e := CopyBlock(cache, tail, next, d0);
        TraceNext(t0, done, e);
        AllRecoverNext(g, done, e, d0);
        done := done + [e];
        tail := tail + 1;
      }
    }

    /** One turn of it: bread, memmove and bwrite. */
    method CopyBlock(cache: map<int, Block>, tail: nat, ghost next: nat, ghost d0: Disk) returns (ghost e: Disk)
      requires Valid() && Logging(g, d0, lh, cache, disk, tail) && DecodeHead(d0[g.start]) == [] && tail < |lh| && next == tail + 1
      modifies this`disk, this`trace
      ensures Valid() && Logging(g, d0, lh, cache, disk, next) && e == disk && trace == old(trace) + [e] && RecoversTo(g, e, d0)
    {
      var from := Current(disk, cache, lh[tail]);
      LoggingNext(g, d0, lh, cache, disk, tail, next, from);
      Bwrite(g.start + 1 + tail, from);
      e := disk;
    }

    /**
     The whole commit.  The disk goes through `before`, from all of which a crash recovers to the
     old contents, and then, from the header write on, through `after`, from all of which it
     recovers to the new ones.
     */
    method Commit(cache: map<int, Block>) returns (ghost before: seq<Disk>, ghost after: seq<Disk>)
      requires Valid() && LogOk(g, disk) && DecodeHead(disk[g.start]) == []
      modifies this
      ensures Valid() && LogOk(g, disk) && DecodeHead(disk[g.start]) == [] && lh == []
      ensures forall k :: 0 <= k < |old(lh)| && old(lh)[k] in cache ==> disk[old(lh)[k]] == cache[old(lh)[k]]
      ensures forall k :: 0 <= k < |old(lh)| && old(lh)[k] !in cache ==> disk[old(lh)[k]] == old(disk)[old(lh)[k]]
      ensures forall b :: g.Home(b) && b !in old(lh) ==> disk[b] == old(disk)[b]
      ensures trace == old(trace) + before + after
      ensures AllRecover(g, before, old(disk)) && AllRecover(g, after, disk)
    {
      before, after := [], [];
      if |lh| > 0 {
        before, after := CommitGroup(cache);
      } else {
        TraceStart(trace);
      }
    }

    /** The commit of a log that is not empty. */
    method CommitGroup(cache: map<int, Block>) returns (ghost before: seq<Disk>, ghost after: seq<Disk>)
      requires Valid() && LogOk(g, disk) && DecodeHead(disk[g.start]) == []
      modifies this
      ensures Valid() && LogOk(g, disk) && DecodeHead(disk[g.start]) == [] && lh == []
      ensures IsAfter(g, old(disk), old(lh), cache, disk)
      ensures trace == old(trace) + before + after
      ensures AllRecover(g, before, old(disk)) && AllRecover(g, after, disk)
    {
      ghost var d0, t0, blocks := disk, trace, lh;
      before := Stage(cache);
      ghost var staged, home := disk, Recovered(g, disk);
      ghost var rest := Finish();
      after := [staged] + rest;
      TraceSplit(t0, before, staged, rest);
      SameAfter(g, d0, blocks, cache, home, disk);
    }

    /** The first half of a commit: the log blocks, through the disks `done`, then the header. */
    method Stage(cache: map<int, Block>) returns (ghost done: seq<Disk>)
      requires Valid() && LogOk(g, disk) && DecodeHead(disk[g.start]) == []
      modifies this`disk, this`trace
      ensures Valid() && LogOk(g, disk) && DecodeHead(disk[g.start]) == lh
      ensures IsAfter(g, old(disk), lh, cache, Recovered(g, disk))
      ensures trace == old(trace) + done + [disk] && AllRecover(g, done, old(disk))
    {
      ghost var d0 := disk;
      done := WriteLog(cache);
      ghost var d1 := disk;
      WriteHead();
      HeadWritten(g, d0, d1, lh, cache);
    }

    /** The second half: install the committed blocks, then erase the header. */
    method Finish() returns (ghost rest: seq<Disk>)
      requires Valid() && LogOk(g, disk) && DecodeHead(disk[g.start]) == lh
      modifies this
      ensures Valid() && LogOk(g, disk) && DecodeHead(disk[g.start]) == [] && lh == []
      ensures SameHome(g, disk, Recovered(g, old(disk)))
      ensures trace == old(trace) + rest && AllRecover(g, [old(disk)] + rest, disk)
    {
      ghost var d1, t1, home := disk, trace, Recovered(g, disk);
      rest := InstallTrans();
      AllRecoverJoin(g, [d1], rest, home, home);
      ClearStep(g, disk);
      lh := [];
      WriteHead();
      AllRecoverJoin(g, [d1] + rest, [disk], home, disk);
      TraceNext(t1, rest, disk);
      TraceNext([d1], rest, disk);
      rest := rest + [disk];
    }
  }
}
