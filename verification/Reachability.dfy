/** Reachability by finitely many steps of a relation. */
module Reachability {

  ghost predicate ReachIn<T(!new)>(step: (T, T) -> bool, a: T, b: T, n: nat) {
    if n == 0 then a == b
    else exists mid :: step(a, mid) && ReachIn(step, mid, b, n - 1)
  }

  ghost predicate Reach<T(!new)>(step: (T, T) -> bool, a: T, b: T) {
    exists n: nat :: ReachIn(step, a, b, n)
  }

  lemma Stay<T(!new)>(step: (T, T) -> bool, a: T)
    ensures Reach(step, a, a)
  {
    assert ReachIn(step, a, a, 0);
  }

  lemma One<T(!new)>(step: (T, T) -> bool, a: T, b: T)
    requires step(a, b)
    ensures Reach(step, a, b)
  {
    assert ReachIn(step, b, b, 0);
    assert ReachIn(step, a, b, 1);
  }

  lemma {:induction false} TransitiveIn<T(!new)>(step: (T, T) -> bool, a: T, b: T, c: T, m: nat, n: nat)
    requires ReachIn(step, a, b, m) && ReachIn(step, b, c, n)
    ensures ReachIn(step, a, c, m + n)
    decreases m
  {
    if m > 0 {
      var mid :| step(a, mid) && ReachIn(step, mid, b, m - 1);
      TransitiveIn(step, mid, b, c, m - 1, n);
    }
  }

  lemma Transitive<T(!new)>(step: (T, T) -> bool, a: T, b: T, c: T)
    requires Reach(step, a, b) && Reach(step, b, c)
    ensures Reach(step, a, c)
  {
    var m: nat :| ReachIn(step, a, b, m);
    var n: nat :| ReachIn(step, b, c, n);
    TransitiveIn(step, a, b, c, m, n);
  }

  lemma {:induction false} SymmetricIn<T(!new)>(step: (T, T) -> bool, a: T, b: T, n: nat)
    requires forall x, y :: step(x, y) ==> step(y, x)
    requires ReachIn(step, a, b, n)
    ensures Reach(step, b, a)
    decreases n
  {
    if n == 0 {
      Stay(step, a);
    } else {
      var mid :| step(a, mid) && ReachIn(step, mid, b, n - 1);
      SymmetricIn(step, mid, b, n - 1);
      One(step, mid, a);
      Transitive(step, b, mid, a);
    }
  }

  lemma Symmetric<T(!new)>(step: (T, T) -> bool, a: T, b: T)
    requires forall x, y :: step(x, y) ==> step(y, x)
    requires Reach(step, a, b)
    ensures Reach(step, b, a)
  {
    var n: nat :| ReachIn(step, a, b, n);
    SymmetricIn(step, a, b, n);
  }

  /** A map that sends steps to steps sends runs to runs. */
  lemma {:induction false} LiftIn<S(!new), T(!new)>(
      inner: (S, S) -> bool, outer: (T, T) -> bool, f: S -> T, a: S, b: S, n: nat)
    requires forall x, y :: inner(x, y) ==> outer(f(x), f(y))
    requires ReachIn(inner, a, b, n)
    ensures ReachIn(outer, f(a), f(b), n)
    decreases n
  {
    if n > 0 {
      var mid :| inner(a, mid) && ReachIn(inner, mid, b, n - 1);
      LiftIn(inner, outer, f, mid, b, n - 1);
      assert outer(f(a), f(mid));
    }
  }

  lemma Lift<S(!new), T(!new)>(inner: (S, S) -> bool, outer: (T, T) -> bool, f: S -> T, a: S, b: S)
    requires forall x, y :: inner(x, y) ==> outer(f(x), f(y))
    requires Reach(inner, a, b)
    ensures Reach(outer, f(a), f(b))
  {
    var n: nat :| ReachIn(inner, a, b, n);
    LiftIn(inner, outer, f, a, b, n);
  }

  /** What one step keeps, every run keeps. */
  lemma {:induction false} InvariantIn<T(!new)>(step: (T, T) -> bool, inv: T -> bool, a: T, b: T, n: nat)
    requires forall x, y :: inv(x) && step(x, y) ==> inv(y)
    requires inv(a) && ReachIn(step, a, b, n)
    ensures inv(b)
    decreases n
  {
    if n > 0 {
      var mid :| step(a, mid) && ReachIn(step, mid, b, n - 1);
      InvariantIn(step, inv, mid, b, n - 1);
    }
  }

  lemma Invariant<T(!new)>(step: (T, T) -> bool, inv: T -> bool, a: T, b: T)
    requires forall x, y :: inv(x) && step(x, y) ==> inv(y)
    requires inv(a) && Reach(step, a, b)
    ensures inv(b)
  {
    var n: nat :| ReachIn(step, a, b, n);
    InvariantIn(step, inv, a, b, n);
  }
}
