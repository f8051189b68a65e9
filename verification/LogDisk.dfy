/**
 The on-disk redo log (log.c): header block, log blocks, and what recovery makes of them.
 A block is an array of 128 words; the header is a word count followed by block numbers.
 */
module LogDisk {
  import opened Params

  type Block = b: seq<int> | |b| == BLOCKWORDS witness seq(BLOCKWORDS, _ => 0)
  type Disk = seq<Block>

  /** Where the log lives: header at `start`, log blocks at start+1 .. start+size-1. */
  datatype Geometry = Geometry(start: nat, size: nat, total: nat) {
    ghost predicate Valid() {
      1 <= size && start + size <= total
    }

    /** A block that file-system operations may log. */
    ghost predicate Home(b: int) {
      0 <= b < total && !(start <= b < start + size)
    }

    ghost predicate Fits(d: Disk) {
      Valid() && |d| == total
    }
  }

  /** Block numbers named by a header block (read_head). */
  function DecodeHead(h: Block): (blocks: seq<int>) {
    if 0 <= h[0] <= LOGSIZE then h[1..1 + h[0]] else []
  }

  /** write_head overwrites the count and the first entries and keeps the rest of the block. */
  function EncodeHead(h: Block, blocks: seq<int>): (r: Block)
    requires |blocks| <= LOGSIZE
    ensures DecodeHead(r) == blocks
  {
    [|blocks|] + blocks + h[1 + |blocks|..]
  }

  /** The header word by word: the number of blocks, then the blocks; what is behind them plays no part and is kept. */
  lemma HeadWords(h: Block, blocks: seq<int>, i: nat)
    requires |blocks| <= 30 && i < 128
    ensures EncodeHead(h, blocks)[i] == if i == 0 then |blocks| else if i <= |blocks| then blocks[i - 1] else h[i]
    ensures 0 <= h[0] <= 30 ==> |DecodeHead(h)| == h[0] && (i < h[0] ==> DecodeHead(h)[i] == h[1 + i])
  {
  }

  /** A header naming distinct home blocks, with a log block for each. */
  ghost predicate HeadOk(g: Geometry, blocks: seq<int>) {
    && |blocks| < g.size
    && |blocks| <= LOGSIZE
    && (forall k :: 0 <= k < |blocks| ==> g.Home(blocks[k]))
    && (forall j, k :: 0 <= j < k < |blocks| ==> blocks[j] != blocks[k])
  }

  ghost predicate LogOk(g: Geometry, d: Disk) {
    g.Fits(d) && d[g.start][0] <= LOGSIZE && HeadOk(g, DecodeHead(d[g.start]))
  }

  /** install_trans from position k on: log block i overwrites home block blocks[i]. */
  ghost function InstallFrom(g: Geometry, d: Disk, blocks: seq<int>, k: nat): (r: Disk)
    requires g.Fits(d) && HeadOk(g, blocks) && k <= |blocks|
    ensures |r| == |d|
    decreases |blocks| - k
  {
    if k == |blocks| then d
    else InstallFrom(g, d[blocks[k] := d[g.start + 1 + k]], blocks, k + 1)
  }

  /** The disk after a complete, uninterrupted recover_from_log. */
  ghost function Recovered(g: Geometry, d: Disk): (r: Disk)
    requires LogOk(g, d)
    ensures |r| == |d|
  {
    var r := InstallFrom(g, d, DecodeHead(d[g.start]), 0);
    r[g.start := EncodeHead(r[g.start], [])]
  }

  /** The two disks hold the same file system. */
  ghost predicate SameHome(g: Geometry, d: Disk, e: Disk)
    requires g.Fits(d) && g.Fits(e)
  {
    forall b :: g.Home(b) ==> d[b] == e[b]
  }

  /** A block that is not installed keeps its contents. */
  lemma {:induction false} InstallElse(g: Geometry, d: Disk, blocks: seq<int>, k: nat, b: nat)
    requires g.Fits(d) && HeadOk(g, blocks) && k <= |blocks| && b < g.total && forall i :: k <= i < |blocks| ==> blocks[i] != b
    ensures InstallFrom(g, d, blocks, k)[b] == d[b]
    decreases |blocks| - k
  {
    if k < |blocks| {
      var next := k + 1;
      InstallElse(g, d[blocks[k] := d[g.start + 1 + k]], blocks, next, b);
    }
  }

  /** A block that is installed gets the contents of its log block. */
  lemma {:induction false} InstallOne(g: Geometry, d: Disk, blocks: seq<int>, k: nat, i: nat)
    requires g.Fits(d) && HeadOk(g, blocks) && k <= i < |blocks|
    ensures InstallFrom(g, d, blocks, k)[blocks[i]] == d[g.start + 1 + i]
    decreases |blocks| - k
  {
    var next, e := k + 1, d[blocks[k] := d[g.start + 1 + k]];
    if k < i {
      InstallOne(g, e, blocks, next, i);
    } else {
      InstallElse(g, e, blocks, next, blocks[i]);
    }
  }

  lemma InstallFromAt(g: Geometry, d: Disk, blocks: seq<int>, k: nat)
    requires g.Fits(d) && HeadOk(g, blocks) && k <= |blocks|
    ensures forall i :: k <= i < |blocks| ==> InstallFrom(g, d, blocks, k)[blocks[i]] == d[g.start + 1 + i]
    ensures forall b :: 0 <= b < g.total && b !in blocks[k..] ==> InstallFrom(g, d, blocks, k)[b] == d[b]
  {
    forall i | k <= i < |blocks| ensures InstallFrom(g, d, blocks, k)[blocks[i]] == d[g.start + 1 + i] {
      InstallOne(g, d, blocks, k, i);
    }
    forall b | 0 <= b < g.total && b !in blocks[k..] ensures InstallFrom(g, d, blocks, k)[b] == d[b] {
      forall i | k <= i < |blocks| ensures blocks[i] != b {
        assert blocks[k..][i - k] == blocks[i];
      }
      InstallElse(g, d, blocks, k, b);
    }
  }

  /** What recovery leaves in every home block, read off the header and the log blocks. */
  lemma RecoveredHome(g: Geometry, d: Disk)
    requires LogOk(g, d)
    ensures LogOk(g, Recovered(g, d)) && DecodeHead(Recovered(g, d)[g.start]) == []
    ensures forall i :: 0 <= i < |DecodeHead(d[g.start])| ==>
      Recovered(g, d)[DecodeHead(d[g.start])[i]] == d[g.start + 1 + i]
    ensures forall b :: g.Home(b) && b !in DecodeHead(d[g.start]) ==> Recovered(g, d)[b] == d[b]
  {
    var blocks := DecodeHead(d[g.start]);
    InstallFromAt(g, d, blocks, 0);
    assert blocks[0..] == blocks;
  }

  /** Recovering a recovered disk changes nothing. */
  lemma RecoveryIdempotent(g: Geometry, d: Disk)
    requires LogOk(g, d)
    ensures LogOk(g, Recovered(g, d)) && Recovered(g, Recovered(g, d)) == Recovered(g, d)
  {
    RecoveredHome(g, d);
    var r := Recovered(g, d);
    var h := r[g.start];
    assert EncodeHead(h, []) == h;
    assert InstallFrom(g, r, [], 0) == r;
  }

  /** Recovery turns this disk into the file system of `home`. */
  ghost predicate RecoversTo(g: Geometry, d: Disk, home: Disk)
    requires g.Fits(home)
  {
    LogOk(g, d) && SameHome(g, Recovered(g, d), home)
  }

  /** Every one of these disks recovers to the file system of `home`. */
  ghost predicate AllRecover(g: Geometry, ds: seq<Disk>, home: Disk)
    requires g.Fits(home)
  {
    forall i :: 0 <= i < |ds| ==> RecoversTo(g, ds[i], home)
  }

  /** Copying one logged block home does not change what recovery produces. */
  lemma InstallStep(g: Geometry, d: Disk, k: nat)
    requires LogOk(g, d) && k < |DecodeHead(d[g.start])|
    ensures var d1 := d[DecodeHead(d[g.start])[k] := d[g.start + 1 + k]];
      LogOk(g, d1) && SameHome(g, Recovered(g, d1), Recovered(g, d))
  {
    var blocks := DecodeHead(d[g.start]);
    var d1 := d[blocks[k] := d[g.start + 1 + k]];
    RecoveredHome(g, d);
    RecoveredHome(g, d1);
    forall b | g.Home(b) ensures Recovered(g, d1)[b] == Recovered(g, d)[b] {
      if b in blocks {
        var i :| 0 <= i < |blocks| && blocks[i] == b;
        assert d1[g.start + 1 + i] == d[g.start + 1 + i];
      }
    }
  }

  /** Disk d is d0 with the first k logged blocks copied home. */
  ghost predicate InstallProgress(g: Geometry, d0: Disk, d: Disk, k: nat)
    requires LogOk(g, d0) && k <= |DecodeHead(d0[g.start])|
  {
    var blocks := DecodeHead(d0[g.start]);
    && LogOk(g, d) && d[g.start] == d0[g.start]
    && InstallFrom(g, d, blocks, k) == InstallFrom(g, d0, blocks, 0)
    && (forall i :: 0 <= i < k ==> d[blocks[i]] == d[g.start + 1 + i])
    && RecoversTo(g, d, Recovered(g, d0))
  }

  lemma InstallProgressStep(g: Geometry, d0: Disk, d: Disk, k: nat)
    requires LogOk(g, d0) && k < |DecodeHead(d0[g.start])| && InstallProgress(g, d0, d, k)
    ensures InstallProgress(g, d0, d[DecodeHead(d0[g.start])[k] := d[g.start + 1 + k]], k + 1)
  {
    InstallStep(g, d, k);
  }

  /** While the header is empty, writing a log block changes nothing recovery can see. */
  lemma LogBlockStep(g: Geometry, d: Disk, k: nat, data: Block)
    requires LogOk(g, d) && DecodeHead(d[g.start]) == [] && 1 + k < g.size
    ensures LogOk(g, d[g.start + 1 + k := data])
    ensures SameHome(g, Recovered(g, d[g.start + 1 + k := data]), d)
  {
    RecoveredHome(g, d[g.start + 1 + k := data]);
  }

  /** Clearing the header of a fully installed log changes nothing recovery can see. */
  lemma ClearStep(g: Geometry, d: Disk)
    requires LogOk(g, d)
    requires forall k :: 0 <= k < |DecodeHead(d[g.start])| ==> d[DecodeHead(d[g.start])[k]] == d[g.start + 1 + k]
    ensures var d1 := d[g.start := EncodeHead(d[g.start], [])];
      LogOk(g, d1) && SameHome(g, Recovered(g, d1), Recovered(g, d)) && SameHome(g, d1, Recovered(g, d))
  {
    var d1 := d[g.start := EncodeHead(d[g.start], [])];
    RecoveredHome(g, d);
    RecoveredHome(g, d1);
    var blocks := DecodeHead(d[g.start]);
    forall b | g.Home(b) ensures d[b] == Recovered(g, d)[b] {
      if b in blocks {
        var i :| 0 <= i < |blocks| && blocks[i] == b;
      }
    }
  }

  lemma AllRecoverJoin(g: Geometry, ds: seq<Disk>, es: seq<Disk>, home: Disk, home': Disk)
    requires g.Fits(home) && g.Fits(home') && SameHome(g, home, home')
    requires AllRecover(g, ds, home) && AllRecover(g, es, home)
    ensures AllRecover(g, ds + es, home')
  {
    forall i | 0 <= i < |ds + es| ensures RecoversTo(g, (ds + es)[i], home') {
      assert RecoversTo(g, if i < |ds| then ds[i] else es[i - |ds|], home);
    }
  }
}
