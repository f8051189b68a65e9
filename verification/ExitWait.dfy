/**
 fork, exit, wait and kill (proc.c) as a machine.  Steps are the parts of the code that hold
 ptable.lock, plus fork's unlocked stores to the embryo it is building; states are those where
 ptable.lock is free.
 */
module ExitWait {
  import opened Machines
  import opened ProcTable

  /** What a process is doing in fork: nothing, building slot i, or building slot i with its parent set. */
  datatype Forking = NotForking | Building(i: nat) | Attached(i: nat)

  /** `forker` is the process building each embryo; `reaped` lists the pids wait has returned. */
  datatype State = State(t: Table, init: nat, nextpid: nat, forking: seq<Forking>, forker: seq<nat>, reaped: seq<nat>)

  datatype Label =
    | Alloc(c: nat, i: nat) | ForkFail(c: nat) | Attach(c: nat) | ForkDone(c: nat)
    | Run(c: nat) | Yield(c: nat) | Sleep(c: nat, n: nat) | Wakeup(n: nat) | Kill(c: nat)
    | Exit(c: nat) | WaitStep(c: nat, f: Found)

  ghost predicate Alive(x: Proc) {
    x.state.Sleeping? || x.state.Runnable? || x.state.Running?
  }

  ghost predicate Shaped(s: State) {
    |s.forking| == |s.forker| == |s.t| && s.init < |s.t|
  }

  ghost predicate Init(s: State) {
    && Shaped(s) && s.nextpid == 2 && s.reaped == []
    && (forall i :: 0 <= i < |s.t| ==> s.forking[i].NotForking?)
    && (forall i :: 0 <= i < |s.t| && i != s.init ==> s.t[i].state.Unused? && s.t[i].parent == None(s.t))
    && s.t[s.init].state.Runnable? && s.t[s.init].pid == 1 && s.t[s.init].parent == None(s.t)
  }

  ghost predicate Runs(s: State, c: nat) {
    Shaped(s) && c < |s.t| && s.t[c].state.Running?
  }

  /** Slot i with a new state. */
  function With(s: State, i: nat, st: PState): State
    requires i < |s.t|
  {
    s.(t := s.t[i := s.t[i].(state := st)])
  }

  ghost predicate Next(s: State, l: Label, u: State) {
    Shaped(s) &&
    match l
    case Alloc(c, i) =>
      && Runs(s, c) && s.forking[c].NotForking? && i < |s.t| && s.t[i].state.Unused?
      && u == s.(t := s.t[i := s.t[i].(state := Embryo, pid := s.nextpid)], nextpid := s.nextpid + 1,
                 forking := s.forking[c := Building(i)], forker := s.forker[i := c])
    case ForkFail(c) =>
      && Runs(s, c) && s.forking[c].Building? && s.forking[c].i < |s.t|
      && u == With(s, s.forking[c].i, Unused).(forking := s.forking[c := NotForking])
    case Attach(c) =>
      && Runs(s, c) && s.forking[c].Building? && s.forking[c].i < |s.t|
      && u == s.(t := s.t[s.forking[c].i := s.t[s.forking[c].i].(parent := c)], forking := s.forking[c := Attached(s.forking[c].i)])
    case ForkDone(c) =>
      && Runs(s, c) && s.forking[c].Attached? && s.forking[c].i < |s.t|
      && u == With(s, s.forking[c].i, Runnable).(forking := s.forking[c := NotForking])
    case Run(c) => c < |s.t| && s.t[c].state.Runnable? && u == With(s, c, Running)
    case Yield(c) => Runs(s, c) && u == With(s, c, Runnable)
    case Sleep(c, n) => Runs(s, c) && u == s.(t := s.t[c := s.t[c].(state := Sleeping, chan := Other(n))])
    case Wakeup(n) => u == s.(t := Woken(s.t, Other(n)))
    case Kill(c) =>
      && c < |s.t|
      && u == s.(t := s.t[c := s.t[c].(killed := true, state := if s.t[c].state.Sleeping? then Runnable else s.t[c].state)])
    case Exit(c) => Runs(s, c) && c != s.init && s.forking[c].NotForking? && u == s.(t := Exited(s.t, c, s.init))
    case WaitStep(c, f) =>
      && Runs(s, c) && s.forking[c].NotForking? && Finds(s.t, c, f)
      && match f
         case Reap(i) => u == s.(t := Reaped(s.t, i), reaped := s.reaped + [s.t[i].pid])
         case Wait => u == (if s.t[c].killed then s else s.(t := s.t[c := s.t[c].(state := Sleeping, chan := OfProc(c))]))
         case Childless => u == s
  }

  // ---------------------------------------------------------------- the invariant

  /** The family tree around slot i: parents are alive, and only init and the unborn have none. */
  ghost predicate FamilyOk(s: State, i: nat)
    requires Shaped(s) && i < |s.t|
  {
    var x := s.t[i];
    && x.parent <= |s.t|
    && (x.parent < |s.t| ==> Alive(s.t[x.parent]) && x.parent != i && i != s.init)
    && (x.state.Unused? ==> x.parent == None(s.t))
    && (x.state.Zombie? || Alive(x) ==> i == s.init || x.parent < |s.t|)
    && (i == s.init ==> Alive(x))
  }

  /** Who is building the embryo in slot i. */
  ghost predicate EmbryoOk(s: State, i: nat)
    requires Shaped(s) && i < |s.t|
  {
    s.t[i].state.Embryo? ==>
      var c := s.forker[i];
      c < |s.t| && if s.t[i].parent == None(s.t) then s.forking[c] == Building(i) else s.forking[c] == Attached(i) && s.t[i].parent == c
  }

  ghost predicate ForkOk(s: State, c: nat)
    requires Shaped(s) && c < |s.t|
  {
    !s.forking[c].NotForking? ==>
      var i := s.forking[c].i;
      && Alive(s.t[c]) && i < |s.t| && s.t[i].state.Embryo? && s.forker[i] == c
      && (s.forking[c].Building? <==> s.t[i].parent == None(s.t))
  }

  /** A zombie's parent is not asleep in wait. */
  ghost predicate ZombieOk(s: State, i: nat)
    requires Shaped(s) && i < |s.t|
  {
    s.t[i].state.Zombie? && s.t[i].parent < |s.t| ==> !SleepsOn(s.t[s.t[i].parent], OfProc(s.t[i].parent))
  }

  ghost predicate SlotOk(s: State, i: nat)
    requires Shaped(s) && i < |s.t|
  {
    FamilyOk(s, i) && EmbryoOk(s, i) && ForkOk(s, i) && ZombieOk(s, i)
  }

  ghost predicate TreeOk(s: State) {
    Shaped(s) && forall i {:trigger SlotOk(s, i)} :: 0 <= i < |s.t| ==> SlotOk(s, i)
  }

  /** Pids of processes are distinct, and distinct from every pid wait has returned. */
  ghost predicate PidsOk(s: State) {
    && (forall i :: 0 <= i < |s.t| && !s.t[i].state.Unused? ==> s.t[i].pid < s.nextpid && s.t[i].pid !in s.reaped)
    && (forall i, j :: 0 <= i < j < |s.t| && !s.t[i].state.Unused? && !s.t[j].state.Unused? ==> s.t[i].pid != s.t[j].pid)
    && (forall k :: 0 <= k < |s.reaped| ==> s.reaped[k] < s.nextpid)
    && (forall j, k :: 0 <= j < k < |s.reaped| ==> s.reaped[j] != s.reaped[k])
  }

  ghost predicate Inv(s: State) {
    TreeOk(s) && PidsOk(s)
  }

  lemma InitInv(s: State)
    requires Init(s)
    ensures Inv(s)
  {
  }

  /** Live processes stay alive, nothing else moves, and only a process without a zombie child may fall asleep in wait. */
  ghost predicate Stirs(s: State, u: State) {
    && Shaped(s) && |u.t| == |s.t| && u == s.(t := u.t)
    && forall i :: 0 <= i < |s.t| ==>
         && u.t[i].parent == s.t[i].parent && u.t[i].pid == s.t[i].pid
         && (if Alive(s.t[i]) then Alive(u.t[i]) else u.t[i].state == s.t[i].state)
         && (SleepsOn(u.t[i], OfProc(i)) ==> SleepsOn(s.t[i], OfProc(i)) || !HasZombie(s.t, i))
  }

  lemma StirsSlot(s: State, u: State, i: nat)
    requires TreeOk(s) && Stirs(s, u) && i < |s.t|
    ensures SlotOk(u, i)
  {
    assert SlotOk(s, i);
  }

  predicate Fork(l: Label) {
    l.Alloc? || l.ForkFail? || l.Attach? || l.ForkDone?
  }

  predicate Stirring(l: Label) {
    l.Run? || l.Yield? || l.Sleep? || l.Wakeup? || l.Kill? || (l.WaitStep? && !l.f.Reap?)
  }

  lemma StirringStirs(s: State, l: Label, u: State)
    requires Next(s, l, u) && Stirring(l)
    ensures Stirs(s, u)
  {
  }

  lemma ForkFamily(s: State, l: Label, u: State, i: nat)
    requires TreeOk(s) && Next(s, l, u) && Fork(l) && i < |s.t|
    ensures Shaped(u) && |u.t| == |s.t| && FamilyOk(u, i) && ZombieOk(u, i)
  {
    assert SlotOk(s, i) && SlotOk(s, l.c);
    if !l.Alloc? {
      assert SlotOk(s, s.forking[l.c].i);
    }
  }

  lemma AllocEmbryo(s: State, c: nat, k: nat, u: State, i: nat)
    requires TreeOk(s) && Next(s, Alloc(c, k), u) && i < |s.t|
    ensures Shaped(u) && |u.t| == |s.t| && EmbryoOk(u, i) && ForkOk(u, i)
  {
    assert SlotOk(s, i) && SlotOk(s, c) && SlotOk(s, k);
    if s.t[i].state.Embryo? {
      assert SlotOk(s, s.forker[i]);
    }
  }

  lemma ForkEmbryo(s: State, l: Label, u: State, i: nat)
    requires TreeOk(s) && Next(s, l, u) && Fork(l) && !l.Alloc? && i < |s.t|
    ensures Shaped(u) && |u.t| == |s.t| && EmbryoOk(u, i) && ForkOk(u, i)
  {
    assert SlotOk(s, i) && SlotOk(s, l.c);
    if s.t[i].state.Embryo? {
      assert SlotOk(s, s.forker[i]);
    }
  }

  lemma ExitSlotOk(s: State, c: nat, u: State, i: nat)
    requires TreeOk(s) && Next(s, Exit(c), u) && i < |s.t|
    ensures Shaped(u) && |u.t| == |s.t| && SlotOk(u, i)
  {
    assert SlotOk(s, i) && SlotOk(s, c) && SlotOk(s, s.init);
    if !s.forking[i].NotForking? {
      assert SlotOk(s, s.forking[i].i);
    }
  }

  lemma ReapSlotOk(s: State, c: nat, k: nat, u: State, i: nat)
    requires TreeOk(s) && Next(s, WaitStep(c, Reap(k)), u) && i < |s.t|
    ensures Shaped(u) && |u.t| == |s.t| && SlotOk(u, i)
  {
    assert SlotOk(s, i) && SlotOk(s, k);
  }

  lemma TreeStep(s: State, l: Label, u: State)
    requires TreeOk(s) && Next(s, l, u)
    ensures TreeOk(u)
  {
    if Stirring(l) {
      StirringStirs(s, l, u);
    }
    assert |u.t| == |s.t| && Shaped(u);
    forall i | 0 <= i < |s.t| ensures SlotOk(u, i) {
      if Stirring(l) {
        StirsSlot(s, u, i);
      } else if Fork(l) {
        ForkFamily(s, l, u, i);
        if l.Alloc? {
          AllocEmbryo(s, l.c, l.i, u, i);
        } else {
          ForkEmbryo(s, l, u, i);
        }
      } else if l.Exit? {
        ExitSlotOk(s, l.c, u, i);
      } else {
        ReapSlotOk(s, l.c, l.f.i, u, i);
      }
    }
  }

  /** No process appears and no pid changes. */
  lemma PidsKept(s: State, u: State)
    requires PidsOk(s) && |u.t| == |s.t| && u.nextpid == s.nextpid && u.reaped == s.reaped
    requires forall i :: 0 <= i < |s.t| && !u.t[i].state.Unused? ==> !s.t[i].state.Unused? && u.t[i].pid == s.t[i].pid
    ensures PidsOk(u)
  {
  }

  lemma PidsAlloc(s: State, c: nat, i: nat, u: State)
    requires PidsOk(s) && Next(s, Alloc(c, i), u)
    ensures PidsOk(u)
  {
  }

  lemma PidsReap(s: State, c: nat, i: nat, u: State)
    requires PidsOk(s) && Next(s, WaitStep(c, Reap(i)), u)
    ensures PidsOk(u)
  {
    forall j | 0 <= j < |u.t| && !u.t[j].state.Unused? ensures u.t[j].pid != s.t[i].pid {
      assert j != i;
    }
  }

  lemma PidsStep(s: State, l: Label, u: State)
    requires Inv(s) && Next(s, l, u)
    ensures PidsOk(u)
  {
    if Stirring(l) {
      StirringStirs(s, l, u);
      PidsKept(s, u);
    } else if l.Alloc? {
      PidsAlloc(s, l.c, l.i, u);
    } else if Fork(l) {
      assert SlotOk(s, l.c);
      PidsKept(s, u);
    } else if l.Exit? {
      PidsKept(s, u);
    } else {
      PidsReap(s, l.c, l.f.i, u);
    }
  }

  lemma ReachableInv(s: State, n: nat)
    requires Reach(Init, Next, s, n)
    ensures Inv(s)
  {
    forall x | Init(x) ensures Inv(x) {
      InitInv(x);
    }
    forall x, l, y | Inv(x) && Next(x, l, y) ensures Inv(y) {
      TreeStep(x, l, y);
      PidsStep(x, l, y);
    }
    Induct(Init, Next, Inv, s, n);
  }

  // ---------------------------------------------------------------- what it gives

  /** Whenever ptable.lock is free, a zombie has a live parent, which is not asleep in wait. */
  lemma ZombieHasParent(s: State, n: nat, i: nat)
    requires Reach(Init, Next, s, n) && i < |s.t| && s.t[i].state.Zombie?
    ensures Shaped(s) && s.t[i].parent < |s.t| && Alive(s.t[s.t[i].parent]) && !SleepsOn(s.t[s.t[i].parent], OfProc(s.t[i].parent))
  {
    ReachableInv(s, n);
    assert SlotOk(s, i);
  }

  /** No pid is returned by wait twice, and none that it has returned belongs to a process again. */
  lemma ReapedOnce(s: State, n: nat)
    requires Reach(Init, Next, s, n)
    ensures forall j, k :: 0 <= j < k < |s.reaped| ==> s.reaped[j] != s.reaped[k]
    ensures forall i :: 0 <= i < |s.t| && !s.t[i].state.Unused? ==> s.t[i].pid !in s.reaped
    ensures forall i, j :: 0 <= i < j < |s.t| && !s.t[i].state.Unused? && !s.t[j].state.Unused? ==> s.t[i].pid != s.t[j].pid
  {
    ReachableInv(s, n);
  }

  /** wakeup(chan): whoever slept on it can run, nobody sleeps on it any more, and no other process is touched. */
  lemma WakeupWakes(s: State, n: nat, u: State, i: nat)
    requires Next(s, Wakeup(n), u) && i < |s.t|
    ensures |u.t| == |s.t| && u == s.(t := u.t)
    ensures !(u.t[i].state.Sleeping? && u.t[i].chan == Other(n))
    ensures u.t[i] == if s.t[i].state.Sleeping? && s.t[i].chan == Other(n) then s.t[i].(state := Runnable) else s.t[i]
  {
  }

  /** exit(): its children are init's now, and the parent and, if there is a zombie among the children, init do not sleep on in wait. */
  lemma ExitPassesOn(s: State, c: nat, u: State, i: nat)
    requires Next(s, Exit(c), u) && i < |s.t|
    ensures |u.t| == |s.t| && u == s.(t := u.t) && u.t[c].state.Zombie? && u.t[i].pid == s.t[i].pid
    ensures u.t[i].parent == if s.t[i].parent == c then s.init else s.t[i].parent
    ensures i != c && i == s.t[c].parent ==> !(u.t[i].state.Sleeping? && u.t[i].chan == OfProc(i))
    ensures s.t[i].state.Zombie? && s.t[i].parent == c ==> !(u.t[s.init].state.Sleeping? && u.t[s.init].chan == OfProc(s.init))
  {
    if s.t[i].state.Zombie? && s.t[i].parent == c {
      assert HasZombie(s.t, c);
    }
  }
}
