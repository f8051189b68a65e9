/**
 The interrupt-driven disk driver (ide.c) against the one-step disk in memory (memide.c).
 Request is iderw up to its sleep, Interrupt is ideintr, Return is iderw once woken, and Reuse is
 what the holder of a buffer does to it between calls of iderw; runs are their interleavings.
 The controller works on one command at a time, the one for the buffer at the head of the
 queue.  Buffers are numbered, N being a nil pointer.
 */
module IdeQueue {
  import opened BufferCache

  type Disk = map<Id, Block>

  /** What memide.c's iderw does to a disk and a buffer in one step. */
  function SyncedDisk(disk: Disk, x: Buf): Disk {
    if x.dirty then disk[x.id := x.data] else disk
  }

  function SyncedBuf(disk: Disk, x: Buf): Buf
    requires x.id in disk
  {
    x.(valid := true, dirty := false, data := if x.dirty then x.data else disk[x.id])
  }

  /** The disk after the requests rs have been carried out one after the other. */
  ghost function Replayed(disk: Disk, rs: seq<Buf>): Disk {
    if rs == [] then disk else SyncedDisk(Replayed(disk, rs[..|rs| - 1]), rs[|rs| - 1])
  }

  lemma ReplayedNext(disk: Disk, rs: seq<Buf>, n: nat, next: nat)
    requires n < |rs| && next == n + 1
    ensures Replayed(disk, rs[..next]) == SyncedDisk(Replayed(disk, rs[..n]), rs[n])
  {
    assert rs[..next][..n] == rs[..n];
  }

  /** The buffer once the interrupt handler is done with it; a read the controller failed leaves the data. */
  function Handled(disk: Disk, x: Buf, error: bool): Buf
    requires x.id in disk
  {
    if error then x.(valid := true, dirty := false) else SyncedBuf(disk, x)
  }

  /** A command given to the controller: the data to write, or a read. */
  datatype Command = Idle | WriteBlock(id: Id, data: Block) | ReadBlock(id: Id)

  predicate Pending(x: Buf) {
    !x.valid || x.dirty
  }

  /** The list from p along qnext is queue. */
  ghost predicate Listed(qnext: seq<nat>, p: nat, queue: seq<nat>)
    decreases |queue|
  {
    if queue == [] then p == |qnext|
    else p == queue[0] && p < |qnext| && Listed(qnext, qnext[p], queue[1..])
  }

  lemma {:induction false} ListedSuffix(qnext: seq<nat>, p: nat, queue: seq<nat>, k: nat)
    requires Listed(qnext, p, queue) && k < |queue|
    ensures queue[k] < |qnext| && Listed(qnext, qnext[queue[k]], queue[k + 1..])
    decreases |queue|
  {
    if k > 0 {
      ListedSuffix(qnext, qnext[p], queue[1..], k - 1);
      assert queue[1..][k..] == queue[k + 1..];
    }
  }

  /** Changing the link of a buffer outside the queue leaves the queue alone. */
  lemma {:induction false} ListedOther(qnext: seq<nat>, p: nat, queue: seq<nat>, b: nat, q: nat)
    requires Listed(qnext, p, queue) && b < |qnext| && b !in queue
    ensures Listed(qnext[b := q], p, queue)
    decreases |queue|
  {
    if queue != [] {
      ListedOther(qnext, qnext[p], queue[1..], b, q);
    }
  }

  /** Hanging b, whose own link is nil, on the last buffer appends it. */
  lemma {:induction false} ListedAppend(qnext: seq<nat>, p: nat, queue: seq<nat>, b: nat)
    requires Listed(qnext, p, queue) && queue != [] && b < |qnext| && b !in queue && qnext[b] == |qnext|
    requires forall i, j :: 0 <= i < j < |queue| ==> queue[i] != queue[j]
    ensures queue[|queue| - 1] < |qnext| && Listed(qnext[queue[|queue| - 1] := b], p, queue + [b])
    decreases |queue|
  {
    ListedSuffix(qnext, p, queue, |queue| - 1);
    var last := queue[|queue| - 1];
    var q2 := qnext[last := b];
    if |queue| == 1 {
      assert queue + [b] == [p, b];
      assert Listed(q2, |q2|, []);
      assert Listed(q2, b, [b]);
      assert (queue + [b])[1..] == [b];
    } else {
      ListedAppend(qnext, qnext[p], queue[1..], b);
      assert (queue + [b])[1..] == queue[1..] + [b];
      assert queue[1..][|queue| - 2] == last;
    }
  }

  /** The command for the buffer at the head of the queue. */
  function CommandFor(x: Buf): Command {
    if x.dirty then WriteBlock(x.id, x.data) else ReadBlock(x.id)
  }

  /** What the controller works on: the head of the queue. */
  ghost function Current(bufs: seq<Buf>, queue: seq<nat>): Command {
    if queue != [] && queue[0] < |bufs| then CommandFor(bufs[queue[0]]) else Idle
  }

  /** The queue holds distinct waiting buffers that have work to do. */
  ghost predicate QueueFits(bufs: seq<Buf>, queue: seq<nat>, waiting: set<nat>) {
    && (forall i, j :: 0 <= i < j < |queue| ==> queue[i] != queue[j])
    && (forall i :: 0 <= i < |queue| ==> queue[i] in waiting && queue[i] < |bufs| && Pending(bufs[queue[i]]))
  }

  /** Queued buffers are as they were when iderw was called: their requests are those from number n on. */
  ghost predicate QueuedAs(bufs: seq<Buf>, queue: seq<nat>, requests: seq<Buf>, n: nat) {
    |requests| == n + |queue| && forall i :: 0 <= i < |queue| ==> queue[i] < |bufs| && bufs[queue[i]] == requests[n + i]
  }

  lemma QueuedNext(bufs: seq<Buf>, queue: seq<nat>, requests: seq<Buf>, n: nat, next: nat, x: Buf)
    requires QueuedAs(bufs, queue, requests, n) && queue != [] && next == n + 1
    requires forall i, j :: 0 <= i < j < |queue| ==> queue[i] != queue[j]
    ensures queue[0] < |bufs| && QueuedAs(bufs[queue[0] := x], queue[1..], requests, next)
  {
  }

  /** Waiting buffers are for different blocks; one that has left the queue agrees with the disk unless its read failed. */
  ghost predicate WaitingFits(bufs: seq<Buf>, disk: Disk, queue: seq<nat>, waiting: set<nat>, failed: set<nat>) {
    && (forall b {:trigger WaitOk(bufs, disk, queue, failed, b)} :: b in waiting ==> WaitOk(bufs, disk, queue, failed, b))
    && (forall b, c {:trigger SameBlock(bufs, b, c)} :: b in waiting && c in waiting && SameBlock(bufs, b, c) ==> b == c)
  }

  ghost predicate WaitOk(bufs: seq<Buf>, disk: Disk, queue: seq<nat>, failed: set<nat>, b: nat) {
    && b < |bufs| && bufs[b].id in disk
    && (b in queue || (!Pending(bufs[b]) && (b in failed || bufs[b].data == disk[bufs[b].id])))
  }

  ghost predicate SameBlock(bufs: seq<Buf>, b: nat, c: nat) {
    b < |bufs| && c < |bufs| && bufs[b].id == bufs[c].id
  }

  /** The failed reads after the handler is done with b. */
  ghost function Failing(failed: set<nat>, b: nat, x: Buf, error: bool): set<nat> {
    if error && !x.dirty then failed + {b} else failed - {b}
  }

  lemma Popped(bufs: seq<Buf>, disk: Disk, queue: seq<nat>, waiting: set<nat>, failed: set<nat>, error: bool)
    requires QueueFits(bufs, queue, waiting) && WaitingFits(bufs, disk, queue, waiting, failed) && queue != []
    ensures var b := queue[0]; b < |bufs| && bufs[b].id in disk
    ensures var b := queue[0];
      var bufs', disk' := bufs[b := Handled(disk, bufs[b], error)], SyncedDisk(disk, bufs[b]);
      QueueFits(bufs', queue[1..], waiting) && WaitingFits(bufs', disk', queue[1..], waiting, Failing(failed, b, bufs[b], error))
  {
    var b := queue[0];
    assert WaitOk(bufs, disk, queue, failed, b);
    var bufs', disk' := bufs[b := Handled(disk, bufs[b], error)], SyncedDisk(disk, bufs[b]);
    forall c | c in waiting ensures WaitOk(bufs', disk', queue[1..], Failing(failed, b, bufs[b], error), c) {
      assert WaitOk(bufs, disk, queue, failed, c);
      assert SameBlock(bufs, b, c) ==> b == c;
      assert queue == [b] + queue[1..];
    }
    forall c, e | c in waiting && e in waiting && SameBlock(bufs', c, e) ensures c == e {
      assert SameBlock(bufs, c, e);
    }
  }

  lemma Queued(bufs: seq<Buf>, disk: Disk, queue: seq<nat>, waiting: set<nat>, failed: set<nat>, b: nat)
    requires QueueFits(bufs, queue, waiting) && WaitingFits(bufs, disk, queue, waiting, failed) && b !in waiting && b < |bufs|
    requires Pending(bufs[b]) && bufs[b].id in disk && forall c :: c in waiting ==> !SameBlock(bufs, b, c)
    ensures QueueFits(bufs, queue + [b], waiting + {b}) && WaitingFits(bufs, disk, queue + [b], waiting + {b}, failed)
  {
    forall c | c in waiting + {b} ensures WaitOk(bufs, disk, queue + [b], failed, c) {
      assert c != b ==> WaitOk(bufs, disk, queue, failed, c);
    }
    forall c, e | c in waiting + {b} && e in waiting + {b} && SameBlock(bufs, c, e) ensures c == e {
    }
  }

  /** A buffer that nobody waits for can become any other. */
  lemma Reused(bufs: seq<Buf>, disk: Disk, queue: seq<nat>, waiting: set<nat>, failed: set<nat>, b: nat, x: Buf)
    requires QueueFits(bufs, queue, waiting) && WaitingFits(bufs, disk, queue, waiting, failed) && b !in waiting && b < |bufs|
    ensures QueueFits(bufs[b := x], queue, waiting) && WaitingFits(bufs[b := x], disk, queue, waiting, failed)
  {
    var bufs' := bufs[b := x];
    forall c | c in waiting ensures WaitOk(bufs', disk, queue, failed, c) {
      assert WaitOk(bufs, disk, queue, failed, c);
    }
    forall c, e | c in waiting && e in waiting && SameBlock(bufs', c, e) ensures c == e {
      assert SameBlock(bufs, c, e);
    }
  }

  /** The driver's data and the history that explains it. */
  datatype View = View(bufs: seq<Buf>, qnext: seq<nat>, head: nat, disk: Disk, command: Command, queue: seq<nat>, waiting: set<nat>,
                       asked: seq<nat>, done: seq<nat>, failed: set<nat>, base: Disk, requests: seq<Buf>)

  /**
   The list is the queue, requests are done in the order asked, and the disk is what the
   requests done so far make of it when each is one step.
   */
  ghost predicate Sound(v: View) {
    && |v.qnext| == |v.bufs| && Listed(v.qnext, v.head, v.queue)
    && QueueFits(v.bufs, v.queue, v.waiting) && WaitingFits(v.bufs, v.disk, v.queue, v.waiting, v.failed)
    && v.command == Current(v.bufs, v.queue) && v.asked == v.done + v.queue
    && QueuedAs(v.bufs, v.queue, v.requests, |v.done|) && v.disk == Replayed(v.base, v.requests[..|v.done|])
  }

  /** What a request for buffer b makes of the driver's data, once b is linked in. */
  ghost function Requested(v: View, b: nat, qnext: seq<nat>, head: nat): View
    requires b < |v.bufs|
  {
    v.(qnext := qnext, head := head, queue := v.queue + [b], waiting := v.waiting + {b}, asked := v.asked + [b],
       requests := v.requests + [v.bufs[b]], command := if head == b then CommandFor(v.bufs[b]) else v.command)
  }

  lemma RequestSound(v: View, b: nat, qnext: seq<nat>, head: nat)
    requires Sound(v) && b !in v.waiting && b < |v.bufs| && Pending(v.bufs[b]) && v.bufs[b].id in v.disk
    requires forall c :: c in v.waiting ==> !SameBlock(v.bufs, b, c)
    requires |qnext| == |v.bufs| && Listed(qnext, head, v.queue + [b])
    ensures Sound(Requested(v, b, qnext, head))
  {
    Queued(v.bufs, v.disk, v.queue, v.waiting, v.failed, b);
    assert (v.requests + [v.bufs[b]])[..|v.done|] == v.requests[..|v.done|];
    assert b !in v.queue;
    assert v.done + (v.queue + [b]) == v.done + v.queue + [b];
  }

  /** What an interrupt makes of the driver's data when the queue is not empty. */
  ghost function Interrupted(v: View, error: bool): View
    requires v.queue != [] && v.queue[0] < |v.bufs| == |v.qnext| && v.bufs[v.queue[0]].id in v.disk
  {
    var b := v.queue[0];
    var bufs, queue := v.bufs[b := Handled(v.disk, v.bufs[b], error)], v.queue[1..];
    v.(bufs := bufs, disk := SyncedDisk(v.disk, v.bufs[b]), head := v.qnext[b], queue := queue, done := v.done + [b],
       failed := Failing(v.failed, b, v.bufs[b], error), command := Current(bufs, queue))
  }

  lemma InterruptSound(v: View, error: bool)
    requires Sound(v) && v.queue != []
    ensures v.head == v.queue[0] < |v.bufs| == |v.qnext| && v.bufs[v.head].id in v.disk && v.command == CommandFor(v.bufs[v.head])
    ensures Sound(Interrupted(v, error))
    ensures var w := Interrupted(v, error);
      if w.head == |w.qnext| then w.command == Idle else w.head < |w.bufs| && w.command == CommandFor(w.bufs[w.head])
  {
    Popped(v.bufs, v.disk, v.queue, v.waiting, v.failed, error);
    var b, n := v.queue[0], |v.done|;
    var next := n + 1;
    QueuedNext(v.bufs, v.queue, v.requests, n, next, Handled(v.disk, v.bufs[b], error));
    ReplayedNext(v.base, v.requests, n, next);
    assert v.done + v.queue == v.done + [b] + v.queue[1..];
  }

  class Ide {
    var bufs: seq<Buf>
    var qnext: seq<nat>
    var idequeue: nat
    var disk: Disk
    var command: Command
    ghost var queue: seq<nat>
    ghost var waiting: set<nat>
    ghost var asked: seq<nat>
    ghost var done: seq<nat>
    ghost var failed: set<nat>
    ghost const base: Disk
    ghost var requests: seq<Buf>

    constructor (bufs: seq<Buf>, disk: Disk)
      ensures Valid() && this.bufs == bufs && this.disk == disk == base && queue == [] && waiting == {} && asked == [] && requests == []
    {
      this.bufs, this.disk := bufs, disk;
      qnext := seq(|bufs|, _ => 0);
      idequeue, command := |bufs|, Idle;
      queue, waiting, asked, done := [], {}, [], [];
      failed, requests, base := {}, [], disk;
    }

    ghost function Now(): View
      reads this
    {
      View(bufs, qnext, idequeue, disk, command, queue, waiting, asked, done, failed, base, requests)
    }

    ghost predicate Valid()
      reads this
    {
      Sound(Now())
    }

    /** The holder of a buffer outside iderw changes it: new data to write, or another block to read. */
    method Reuse(b: nat, x: Buf)
      requires Valid() && b < |bufs| && b !in waiting
      modifies this`bufs
      ensures Valid() && bufs == old(bufs)[b := x]
    {
      Reused(bufs, disk, queue, waiting, failed, b, x);
      assert b !in queue;
      bufs := bufs[b := x];
    }

    /** Append b to the queue, walking to its end. */
    method Append(b: nat)
      requires b < |bufs| == |qnext| && Listed(qnext, idequeue, queue) && b !in queue
      requires forall i, j :: 0 <= i < j < |queue| ==> queue[i] != queue[j]
      modifies this`qnext, this`idequeue, this`queue
      ensures |qnext| == |bufs| && Listed(qnext, idequeue, queue) && queue == old(queue) + [b]
    {
      var n := |qnext|;
      ListedOther(qnext, idequeue, queue, b, n);
      qnext := qnext[b := n];
      assert qnext == old(qnext)[b := n];
      if idequeue == n {
        idequeue := b;
        assert queue == [];
      } else {
        ListedAppend(qnext, idequeue, queue, b);
        var p := idequeue;
        ghost var k := 0;
        assert queue[0..] == queue;
        while qnext[p] != n
          invariant 0 <= k < |queue| && p == queue[k] && Listed(qnext, p, queue[k..])
          invariant qnext == old(qnext)[b := n]
          decreases |queue| - k
        {
          assert queue[k..][1..] == queue[k + 1..];
          p, k := qnext[p], k + 1;
        }
        assert queue[k..][1..] == queue[k + 1..];
        assert k == |queue| - 1;
        ghost var before := qnext;
        qnext := qnext[p := b];
        assert qnext == before[p := b];
      }
      queue := queue + [b];
      assert idequeue == b ==> queue == [b];
    }

    /** iderw up to its sleep: queue the buffer, and start the controller if it was idle. */
    method Request(b: nat)
      requires Valid() && b < |bufs| && Pending(bufs[b]) && bufs[b].id in disk && b !in waiting
      requires forall c :: c in waiting ==> !SameBlock(bufs, b, c)
      modifies this`qnext, this`idequeue, this`queue, this`command, this`waiting, this`asked, this`requests
      ensures Valid() && queue == old(queue) + [b] && waiting == old(waiting) + {b} && asked == old(asked) + [b]
      ensures requests == old(requests) + [bufs[b]]
      ensures command == if old(queue) != [] then old(command) else if bufs[b].dirty then WriteBlock(bufs[b].id, bufs[b].data) else ReadBlock(bufs[b].id)
    {
      ghost var v := Now();
      Append(b);
      RequestSound(v, b, qnext, idequeue);
      Start(b, v);
    }

    method Start(b: nat, ghost v: View)
      requires b < |v.bufs| && Now() == v.(qnext := qnext, head := idequeue, queue := v.queue + [b])
      modifies this`command, this`waiting, this`asked, this`requests
      ensures Now() == Requested(v, b, qnext, idequeue)
    {
      if idequeue == b {
        command := CommandFor(bufs[b]);
      }
      waiting, asked, requests := waiting + {b}, asked + [b], requests + [bufs[b]];
    }

    /** The controller carries out its command for b, and the handler takes the data and sets the flags. */
    method Transfer(b: nat, error: bool)
      requires b < |bufs| && bufs[b].id in disk && command == CommandFor(bufs[b])
      modifies this`bufs, this`disk
      ensures disk == SyncedDisk(old(disk), old(bufs)[b]) && bufs == old(bufs)[b := Handled(old(disk), old(bufs)[b], error)]
    {
      if command.WriteBlock? {
        disk := disk[command.id := command.data];
      }
      if !bufs[b].dirty && !error {
        bufs := bufs[b := bufs[b].(data := disk[bufs[b].id])];
      }
      bufs := bufs[b := bufs[b].(valid := true, dirty := false)];
    }

    /** ideintr with a request to complete, the driver's data going from v to w. */
    method Complete(error: bool, ghost v: View, ghost w: View)
      requires v == Now() && v.queue != [] && v.head == v.queue[0] < |v.bufs| == |v.qnext| && v.bufs[v.head].id in v.disk
      requires v.command == CommandFor(v.bufs[v.head]) && w == Interrupted(v, error)
      requires if w.head == |w.qnext| then w.command == Idle else w.head < |w.bufs| && w.command == CommandFor(w.bufs[w.head])
      modifies this`bufs, this`idequeue, this`queue, this`command, this`disk, this`done, this`failed
      ensures Now() == w
    {
      var b := idequeue;
      idequeue := qnext[b];
      Transfer(b, error);
      command := if idequeue != |qnext| then CommandFor(bufs[idequeue]) else Idle;
      queue, done, failed := w.queue, w.done, w.failed;
    }

    /**
     The controller finishes its command, with or without an error, and interrupts.  The request
     at the head of the queue is completed, with the effect that memide.c's iderw has in one step;
     a read that failed leaves the buffer's data, yet marks it valid.
     */
    method Interrupt(error: bool)
      requires Valid()
      modifies this`bufs, this`idequeue, this`queue, this`command, this`disk, this`done, this`failed
      ensures Valid() && waiting == old(waiting) && asked == old(asked) && requests == old(requests)
      ensures old(queue) == [] ==> queue == [] && disk == old(disk) && bufs == old(bufs) && failed == old(failed)
      ensures old(queue) != [] ==> queue == old(queue)[1..] && done == old(done) + [old(queue)[0]]
      ensures old(queue) != [] ==>
        var b := old(queue)[0];
        && b < |bufs| && old(bufs)[b].id in old(disk)
        && disk == SyncedDisk(old(disk), old(bufs)[b]) && bufs == old(bufs)[b := Handled(old(disk), old(bufs)[b], error)]
        && failed == Failing(old(failed), b, old(bufs)[b], error)
      ensures old(queue) != [] ==>
        var b := old(queue)[0];
        var x, y := old(bufs)[b], bufs[b];
        && y.id == x.id && y.valid && !y.dirty && y.data == (if x.dirty || error then x.data else old(disk)[x.id])
        && disk == (if x.dirty then old(disk)[x.id := x.data] else old(disk)) && (b in failed <==> error && !x.dirty)
      ensures |old(queue)| > 1 ==> var x := bufs[queue[0]]; command == if x.dirty then WriteBlock(x.id, x.data) else ReadBlock(x.id)
      ensures |old(queue)| <= 1 ==> command == Idle
    {
      if idequeue == |qnext| {
        return;
      }
      ghost var v := Now();
      InterruptSound(v, error);
      Complete(error, v, Interrupted(v, error));
    }

    /** iderw returns once its buffer is valid and clean: then it has left the queue and, unless its read failed, equals its disk block. */
    method Return(b: nat)
      requires Valid() && b in waiting && b < |bufs| && !Pending(bufs[b])
      modifies this`waiting
      ensures Valid() && waiting == old(waiting) - {b} && b !in queue
      ensures bufs[b].valid && !bufs[b].dirty && bufs[b].id in disk && (b in failed || bufs[b].data == disk[bufs[b].id])
    {
      assert WaitOk(bufs, disk, queue, failed, b);
      assert forall i :: 0 <= i < |queue| ==> queue[i] != b;
      waiting := waiting - {b};
    }
  }
}
