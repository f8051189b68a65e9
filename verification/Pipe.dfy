/**
 Pipes (pipe.c).  Each method is one stretch of pipewrite, piperead or pipeclose that holds the
 pipe's lock: from entry or from waking up, to returning or going to sleep.  Runs of a pipe are
 the interleavings of these calls.  `written` and `taken` record every byte ever put in and
 taken out; `readers` and `writers` are the processes asleep on the two counters.  wakeup is
 called with the lock held, so it shows here as one step that leaves nobody asleep on its
 channel: SleepWakeup.WakeupUnderLock and SleepWakeup.SleeperEnters.
 */
module Pipe {
  import opened Params

  const PIPESIZE := 512

  type Byte = x: int | 0 <= x < 256

  /** How a stretch ends: with a result, with -1, or asleep. */
  datatype End = Done | Failed | Asleep

  /** Where byte number k goes. */
  function Slot(k: nat): (i: nat)
    ensures i < PIPESIZE
  {
    k % PIPESIZE
  }

  /** Counters wrap at a multiple of the ring's size. */
  lemma WrapSlot(n: nat)
    ensures n % UINT_MOD % PIPESIZE == Slot(n)
  {
    assert n == n / UINT_MOD * 8388608 * 512 + n % UINT_MOD;
  }

  lemma NextCount(n: nat)
    ensures (n % UINT_MOD + 1) % UINT_MOD == (n + 1) % UINT_MOD
  {
  }

  /** Bytes less than a ring apart are in different slots. */
  lemma DifferentSlots(j: nat, k: nat)
    requires j < k < j + PIPESIZE
    ensures Slot(j) != Slot(k)
  {
  }

  class Pipe {
    const data: array<Byte>
    var nread: nat
    var nwrite: nat
    var readopen: bool
    var writeopen: bool
    ghost var written: seq<Byte>
    ghost var taken: seq<Byte>
    ghost var readers: set<nat>
    ghost var writers: set<nat>

    constructor ()
      ensures Valid() && SleepersOk() && fresh(data) && written == taken == [] && readers == writers == {} && readopen && writeopen
    {
      data := new Byte[PIPESIZE](_ => 0);
      nread, nwrite, readopen, writeopen := 0, 0, true, true;
      written, taken, readers, writers := [], [], {}, {};
    }

    ghost function Occupancy(): int
      reads this
    {
      |written| - |taken|
    }

    /** The bytes read are a prefix of the bytes written, and the rest is in the ring, counters wrapping at 32 bits. */
    ghost predicate Valid()
      reads this, data
    {
      && data.Length == PIPESIZE && nread == |taken| % UINT_MOD && nwrite == |written| % UINT_MOD
      && taken <= written && Occupancy() <= PIPESIZE
      && forall k :: |taken| <= k < |written| ==> data[Slot(k)] == written[k]
    }

    /** Readers sleep only on an empty pipe, writers only on a full one, and only while the other end is open. */
    ghost predicate SleepersOk()
      reads this
    {
      && (readers != {} ==> Occupancy() == 0 && writeopen && readopen)
      && (writers != {} ==> Occupancy() == PIPESIZE && readopen && writeopen)
    }

    predicate Full()
      reads this
    {
      nwrite == (nread + PIPESIZE) % UINT_MOD
    }

    lemma FullMeans()
      requires Valid()
      ensures Full() <==> Occupancy() == PIPESIZE
      ensures nread == nwrite <==> Occupancy() == 0
    {
    }

    /** Store a byte in the next slot of the ring and count it as written. */
    method Put(b: Byte)
      requires Valid() && Occupancy() < PIPESIZE
      modifies data, this`nwrite, this`written
      ensures Valid() && written == old(written) + [b]
    {
      WrapSlot(|written|);
      NextCount(|written|);
      forall k | |taken| <= k < |written| ensures Slot(k) != Slot(|written|) {
        DifferentSlots(k, |written|);
      }
      data[nwrite % PIPESIZE] := b;
      nwrite := (nwrite + 1) % UINT_MOD;
      written := written + [b];
    }

    /** Take the oldest byte out of the ring and count it as read. */
    method Get() returns (b: Byte)
      requires Valid() && Occupancy() > 0
      modifies this`nread, this`taken
      ensures Valid() && taken == old(taken) + [b] && taken == written[..|taken|]
    {
      WrapSlot(|taken|);
      NextCount(|taken|);
      b := data[nread % PIPESIZE];
      nread := (nread + 1) % UINT_MOD;
      taken := taken + [b];
    }

    /** The copying loop of pipewrite: put bytes until the ring is full or addr ends. */
    method Fill(addr: seq<Byte>, start: nat) returns (i: nat)
      requires Valid() && start <= |addr|
      modifies data, this`nwrite, this`written
      ensures Valid() && start <= i <= |addr| && written == old(written) + addr[start..i]
      ensures i == |addr| || Occupancy() == PIPESIZE
    {
      i := start;
      FullMeans();
      while i < |addr| && !Full()
        invariant start <= i <= |addr| && Valid() && written == old(written) + addr[start..i]
      {
        FullMeans();
        Put(addr[i]);
        i := i + 1;
      }
      FullMeans();
    }

    /**
     A stretch of pipewrite by process pid, at byte `start` of addr.  As many bytes go in as
     fit.  Sleeping readers and writers stay as SleepersOk says, with one exception: a killed
     writer that fills the pipe returns without waking the readers it found asleep.
     */
    method Write(addr: seq<Byte>, start: nat, pid: nat, killed: bool) returns (end: End, i: nat)
      requires Valid() && writeopen && start <= |addr|
      modifies data, this`nwrite, this`written, this`readers, this`writers
      ensures Valid() && i == (if |addr| - start <= PIPESIZE - old(Occupancy()) then |addr| else start + (PIPESIZE - old(Occupancy())))
      ensures written == old(written) + addr[start..i]
      ensures end == if i == |addr| then Done else if !readopen || killed then Failed else Asleep
      ensures !end.Failed? ==> readers == {}
      ensures end.Failed? ==> readers == old(readers)
      ensures writers == old(writers) + if end.Asleep? then {pid} else {}
      ensures old(SleepersOk()) ==> (SleepersOk() <==> !(killed && old(readers) != {} && |addr| - start > PIPESIZE))
    {
      i := Fill(addr, start);
      if i < |addr| {
        if !readopen || killed {
          return Failed, i;
        }
        readers := {};
        writers := writers + {pid};
        return Asleep, i;
      }
      readers := {};
      end := Done;
    }

    /** The copying loop of piperead. */
    method Drain(n: nat) returns (out: seq<Byte>)
      requires Valid()
      modifies this`nread, this`taken
      ensures Valid() && taken == old(taken) + out
      ensures |out| == if n <= old(Occupancy()) then n else old(Occupancy())
    {
      out := [];
      while |out| < n
        invariant Valid() && |out| <= n && taken == old(taken) + out
        decreases n - |out|
      {
        FullMeans();
        if nread == nwrite {
          break;
        }
        var b := Get();
        out := out + [b];
      }
    }

    /** A stretch of piperead by process pid: sleep on an empty pipe that can still be written, else take up to n bytes. */
    method Read(n: nat, pid: nat, killed: bool) returns (end: End, out: seq<Byte>)
      requires Valid() && readopen
      modifies this`nread, this`taken, this`readers, this`writers
      ensures Valid() && taken == old(taken) + out
      ensures end == if old(Occupancy()) == 0 && writeopen then (if killed then Failed else Asleep) else Done
      ensures |out| == if !end.Done? then 0 else if n <= old(Occupancy()) then n else old(Occupancy())
      ensures readers == old(readers) + if end.Asleep? then {pid} else {}
      ensures writers == if end.Done? then {} else old(writers)
      ensures old(SleepersOk()) ==> SleepersOk()
    {
      FullMeans();
      out := [];
      if nread == nwrite && writeopen {
        if killed {
          return Failed, [];
        }
        readers := readers + {pid};
        return Asleep, [];
      }
      out := Drain(n);
      writers := {};
      end := Done;
    }

    /** pipeclose of one end, which no process is asleep at; the result tells whether the pipe is freed. */
    method Close(writable: bool) returns (freed: bool)
      requires Valid() && if writable then writers == {} else readers == {}
      modifies this`readopen, this`writeopen, this`readers, this`writers
      ensures Valid() && writeopen == (old(writeopen) && !writable) && readopen == (old(readopen) && writable)
      ensures if writable then readers == {} && writers == old(writers) else writers == {} && readers == old(readers)
      ensures freed <==> !readopen && !writeopen
      ensures old(SleepersOk()) ==> SleepersOk() && readers == writers == {}
    {
      if writable {
        writeopen := false;
        readers := {};
      } else {
        readopen := false;
        writers := {};
      }
      freed := !readopen && !writeopen;
    }

    /** kill makes a sleeping process runnable, whatever it waits for. */
    ghost method Kill(pid: nat)
      requires Valid()
      modifies this`readers, this`writers
      ensures Valid() && readers == old(readers) - {pid} && writers == old(writers) - {pid}
      ensures old(SleepersOk()) ==> SleepersOk()
    {
      readers, writers := readers - {pid}, writers - {pid};
    }

    /** Readers and writers never sleep on the pipe at the same time. */
    lemma NeverBoth()
      requires SleepersOk()
      ensures readers == {} || writers == {}
    {
    }
  }

  /** The exception is real: a reader is left asleep on a full pipe. */
  method KilledWriter() returns (p: Pipe)
    ensures p.Valid() && p.readers == {1} && p.Occupancy() == PIPESIZE && p.readopen && p.writeopen
  {
    p := new Pipe();
    var e0, _ := p.Read(1, 1, false);
    var e1, _ := p.Write(seq(PIPESIZE + 1, _ => 0), 0, 2, true);
  }
}
