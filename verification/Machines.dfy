/** Runs of a labelled transition system, and the rule for proving invariants of them. */
module Machines {

  /** s is where some run from an initial state is after n steps. */
  ghost predicate Reach<S(!new), L(!new)>(init: S -> bool, next: (S, L, S) -> bool, s: S, n: nat)
    decreases n
  {
    if n == 0 then init(s)
    else exists p: S, l: L :: Reach(init, next, p, n - 1) && next(p, l, s)
  }

  ghost predicate Inductive<S(!new), L(!new)>(init: S -> bool, next: (S, L, S) -> bool, inv: S -> bool) {
    && (forall s: S :: init(s) ==> inv(s))
    && (forall p: S, l: L, s: S :: inv(p) && next(p, l, s) ==> inv(s))
  }

  lemma {:induction false} Induct<S(!new), L(!new)>(init: S -> bool, next: (S, L, S) -> bool, inv: S -> bool, s: S,
      n: nat)
    requires Inductive(init, next, inv) && Reach(init, next, s, n)
    ensures inv(s)
    decreases n
  {
    if n > 0 {
      var p: S, l: L :| Reach(init, next, p, n - 1) && next(p, l, s);
      Induct(init, next, inv, p, n - 1);
    }
  }

  /** One more step. */
  lemma Extend<S(!new), L(!new)>(init: S -> bool, next: (S, L, S) -> bool, p: S, n: nat, l: L, s: S)
    requires Reach(init, next, p, n) && next(p, l, s)
    ensures Reach(init, next, s, n + 1)
  {
  }
}
