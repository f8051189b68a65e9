/** The process table (proc.c): what happens to it while ptable.lock is held. */
module ProcTable {
  datatype PState = Unused | Embryo | Sleeping | Runnable | Running | Zombie

  /** Sleep channels: the address of a process, used by wait, or anything else. */
  datatype Chan = NoChan | OfProc(p: nat) | Other(n: nat)

  /** `parent` is a slot number, or NONE for a nil pointer. */
  datatype Proc = Proc(state: PState, pid: nat, parent: nat, chan: Chan, killed: bool)

  type Table = seq<Proc>

  /** A slot number that is no slot: the nil parent. */
  function None(t: Table): nat {
    |t|
  }

  predicate SleepsOn(x: Proc, chan: Chan) {
    x.state.Sleeping? && x.chan == chan
  }

  /** wakeup1's effect. */
  function Woken(t: Table, chan: Chan): (r: Table)
    ensures |r| == |t|
  {
    seq(|t|, i requires 0 <= i < |t| => if SleepsOn(t[i], chan) then t[i].(state := Runnable) else t[i])
  }

  ghost predicate HasZombie(t: Table, c: nat) {
    exists i :: 0 <= i < |t| && t[i].parent == c && t[i].state.Zombie?
  }

  /**
   exit's effect on slot i when c exits: c's parent is woken, c's children go to init, and init
   is woken if one of them is a zombie.
   */
  ghost function ExitSlot(t: Table, c: nat, init: nat, i: nat): Proc
    requires i < |t| && c < |t|
  {
    var wake := SleepsOn(t[i], OfProc(t[c].parent)) || (SleepsOn(t[i], OfProc(init)) && HasZombie(t, c));
    t[i].(parent := if t[i].parent == c then init else t[i].parent,
          state := if i == c then Zombie else if wake then Runnable else t[i].state)
  }

  ghost function Exited(t: Table, c: nat, init: nat): (r: Table)
    requires c < |t|
    ensures |r| == |t|
  {
    seq(|t|, i requires 0 <= i < |t| => ExitSlot(t, c, init, i))
  }

  /** What wait finds: a zombie child to reap, children but no zombie, or no children. */
  datatype Found = Reap(i: nat) | Wait | Childless

  ghost predicate Finds(t: Table, c: nat, f: Found) {
    match f
    case Reap(i) => i < |t| && t[i].parent == c && t[i].state.Zombie? && forall j :: 0 <= j < i ==> !(t[j].parent == c && t[j].state.Zombie?)
    case Wait => !HasZombie(t, c) && exists i :: 0 <= i < |t| && t[i].parent == c
    case Childless => forall i :: 0 <= i < |t| ==> t[i].parent != c
  }

  function Reaped(t: Table, i: nat): (r: Table)
    requires i < |t|
    ensures |r| == |t|
  {
    t[i := Proc(Unused, 0, None(t), t[i].chan, false)]
  }

  class Ptable {
    const procs: array<Proc>

    constructor (n: nat)
      ensures fresh(procs) && procs.Length == n
      ensures forall i :: 0 <= i < n ==> procs[i] == Proc(Unused, 0, n, NoChan, false)
    {
      procs := new Proc[n](_ => Proc(Unused, 0, n, NoChan, false));
    }

    /** Wake every process sleeping on chan. */
    method Wakeup1(chan: Chan)
      modifies procs
      ensures procs[..] == Woken(old(procs[..]), chan)
      ensures forall i :: 0 <= i < procs.Length && old(procs[i]).state.Sleeping? && old(procs[i]).chan == chan ==>
        procs[i] == old(procs[i]).(state := Runnable)
      ensures forall i :: 0 <= i < procs.Length && !(old(procs[i]).state.Sleeping? && old(procs[i]).chan == chan) ==> procs[i] == old(procs[i])
      ensures forall i :: 0 <= i < procs.Length ==> !(procs[i].state.Sleeping? && procs[i].chan == chan)
    {
      var i := 0;
      while i < procs.Length
        invariant 0 <= i <= procs.Length
        invariant forall j :: 0 <= j < i ==> procs[j] == Woken(old(procs[..]), chan)[j]
        invariant forall j :: i <= j < procs.Length ==> procs[j] == old(procs[j])
      {
        if procs[i].state.Sleeping? && procs[i].chan == chan {
          procs[i] := procs[i].(state := Runnable);
        }
        i := i + 1;
      }
    }

    /** The part of exit that holds ptable.lock, up to sched. */
    method Exit(c: nat, init: nat)
      requires c < procs.Length && init < procs.Length && procs[c].state.Running?
      modifies procs
      ensures procs[..] == Exited(old(procs[..]), c, init) && procs[c].state.Zombie?
      ensures forall i :: 0 <= i < procs.Length ==>
        && procs[i].pid == old(procs[i]).pid && procs[i].chan == old(procs[i]).chan && procs[i].killed == old(procs[i]).killed
        && procs[i].parent == if old(procs[i]).parent == c then init else old(procs[i]).parent
      ensures forall i :: 0 <= i < procs.Length && i != c ==>
        var x, y := old(procs[i]), procs[i];
        if x.state.Sleeping? && (x.chan == OfProc(old(procs[c]).parent) || (x.chan == OfProc(init) && HasZombie(old(procs[..]), c)))
        then y.state == Runnable else y.state == x.state
    {
      ghost var t := procs[..];
      PassOn(c, init);
      forall i | 0 <= i < procs.Length ensures procs[i] == ExitSlot(t, c, init, i) {
        assert procs[..][i] == ExitSlot(t, c, init, i);
      }
    }

    /** The wakeups, the loop over the children and the new state. */
    method PassOn(c: nat, init: nat)
      requires c < procs.Length && init < procs.Length && procs[c].state.Running?
      modifies procs
      ensures procs[..] == Exited(old(procs[..]), c, init)
    {
      ghost var t := procs[..];
      Wakeup1(OfProc(procs[c].parent));
      var i := 0;
      ghost var seen := false;
      while i < procs.Length
        invariant 0 <= i <= procs.Length && procs[c].state.Running?
        invariant Passing(t, c, init, i, seen)
      {
        ghost var next := i + 1;
        seen := Adopt(t, c, init, i, next, seen);
        i := i + 1;
      }
      procs[c] := procs[c].(state := Zombie);
    }

    /** Slots below i have been passed on; `seen` says whether there was a zombie among them. */
    ghost predicate Passing(t: Table, c: nat, init: nat, i: nat, seen: bool)
      reads procs
    {
      && c < |t| == procs.Length && (seen <==> exists j :: 0 <= j < i && j < |t| && t[j].parent == c && t[j].state.Zombie?)
      && forall j :: 0 <= j < procs.Length ==> procs[j] == ExitPart(t, c, init, i, seen, j)
    }

    /** Slot i goes to init if it is a child of c. */
    method Adopt(ghost t: Table, c: nat, init: nat, i: nat, ghost next: nat, ghost seen: bool) returns (ghost seen': bool)
      requires i < procs.Length && next == i + 1 && c < procs.Length && procs[c].state.Running? && Passing(t, c, init, i, seen)
      modifies procs
      ensures procs[c].state.Running? && Passing(t, c, init, next, seen')
    {
      seen' := seen;
      if procs[i].parent == c {
        procs[i] := procs[i].(parent := init);
        if procs[i].state.Zombie? {
          seen' := true;
          Wakeup1(OfProc(init));
        }
      }
    }

    /** The scan of wait, which reaps the first zombie child. */
    method WaitScan(c: nat) returns (f: Found, pid: nat)
      modifies procs
      ensures Finds(old(procs[..]), c, f)
      ensures f.Reap? ==> pid == old(procs[..])[f.i].pid && procs[..] == Reaped(old(procs[..]), f.i)
      ensures f.Reap? ==> procs[f.i] == Proc(Unused, 0, procs.Length, old(procs[f.i]).chan, false)
      ensures f.Reap? ==> forall i :: 0 <= i < procs.Length && i != f.i ==> procs[i] == old(procs[i])
      ensures !f.Reap? ==> procs[..] == old(procs[..])
    {
      var havekids := false;
      ghost var t := procs[..];
      pid := 0;
      var i := 0;
      while i < procs.Length
        invariant 0 <= i <= procs.Length && procs[..] == t
        invariant havekids <==> exists j :: 0 <= j < i && t[j].parent == c
        invariant forall j :: 0 <= j < i ==> !(t[j].parent == c && t[j].state.Zombie?)
      {
        if procs[i].parent == c {
          havekids := true;
          if procs[i].state.Zombie? {
            pid := procs[i].pid;
            procs[i] := Proc(Unused, 0, procs.Length, procs[i].chan, false);
            return Reap(i), pid;
          }
        }
        i := i + 1;
      }
      f := if havekids then Wait else Childless;
    }

    /** allocproc's search: the first unused slot becomes an embryo with the next pid. */
    method Allocproc(nextpid: nat) returns (i: nat)
      modifies procs
      ensures i <= procs.Length && forall j :: 0 <= j < i ==> !old(procs[j]).state.Unused?
      ensures i < procs.Length ==> old(procs[i]).state.Unused? && procs[..] == old(procs[..])[i := old(procs[i]).(state := Embryo, pid := nextpid)]
      ensures i == procs.Length ==> procs[..] == old(procs[..])
    {
      i := 0;
      while i < procs.Length
        invariant 0 <= i <= procs.Length && procs[..] == old(procs[..])
        invariant forall j :: 0 <= j < i ==> !procs[j].state.Unused?
      {
        if procs[i].state.Unused? {
          procs[i] := procs[i].(state := Embryo, pid := nextpid);
          return;
        }
        i := i + 1;
      }
    }
  }

  /** Slot j part way through exit: slots below i have been passed on, `seen` says whether a zombie was among them. */
  ghost function ExitPart(t: Table, c: nat, init: nat, i: nat, seen: bool, j: nat): Proc
    requires j < |t| && c < |t|
  {
    var wake := SleepsOn(t[j], OfProc(t[c].parent)) || (SleepsOn(t[j], OfProc(init)) && seen);
    t[j].(parent := if t[j].parent == c && j < i then init else t[j].parent, state := if wake then Runnable else t[j].state)
  }
}
