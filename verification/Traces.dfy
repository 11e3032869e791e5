/** Runs of a transition function: folding a history of events, and repeating one step. */
module Traces {

  function Fold<S, E>(f: (S, E) -> S, s: S, trace: seq<E>): S
    decreases |trace|
  {
    if trace == [] then s
    else f(Fold(f, s, trace[..|trace| - 1]), trace[|trace| - 1])
  }

  function Iterate<S>(step: S -> S, s: S, n: nat): S
    decreases n
  {
    if n == 0 then s else step(Iterate(step, s, n - 1))
  }

  lemma {:induction false} FoldAppend<S, E>(f: (S, E) -> S, s: S, a: seq<E>, b: seq<E>)
    ensures Fold(f, s, a + b) == Fold(f, Fold(f, s, a), b)
    decreases |b|
  {
    if b == [] {
      assert a + b == a;
    } else {
      var last := |b| - 1;
      FoldAppend(f, s, a, b[..last]);
      assert (a + b)[..|a + b| - 1] == a + b[..last];
    }
  }

  /** What one event keeps, every history keeps. */
  lemma {:induction false} FoldInvariant<S(!new), E(!new)>(
    f: (S, E) -> S, holds: S -> bool, allowed: E -> bool, s: S, trace: seq<E>)
    requires holds(s)
    requires forall x, e :: holds(x) && allowed(e) ==> holds(f(x, e))
    requires forall e :: e in trace ==> allowed(e)
    ensures holds(Fold(f, s, trace))
    decreases |trace|
  {
    if trace != [] {
      FoldInvariant(f, holds, allowed, s, trace[..|trace| - 1]);
    }
  }

  lemma {:induction false} IterateInvariant<S(!new)>(step: S -> S, holds: S -> bool, s: S, n: nat)
    requires holds(s) && forall x :: holds(x) ==> holds(step(x))
    ensures holds(Iterate(step, s, n))
    decreases n
  {
    if n > 0 {
      IterateInvariant(step, holds, s, n - 1);
    }
  }

  lemma {:induction false} IterateAdd<S>(step: S -> S, s: S, a: nat, b: nat)
    ensures Iterate(step, s, a + b) == Iterate(step, Iterate(step, s, a), b)
    decreases b
  {
    if b > 0 {
      IterateAdd(step, s, a, b - 1);
    }
  }

  lemma {:induction false} IterateIsFold<S(!new), E>(f: (S, E) -> S, step: S -> S, e: E, s: S, n: nat)
    requires forall x :: step(x) == f(x, e)
    ensures Fold(f, s, seq(n, _ => e)) == Iterate(step, s, n)
    decreases n
  {
    if n > 0 {
      IterateIsFold(f, step, e, s, n - 1);
      assert seq(n, _ => e)[..n - 1] == seq(n - 1, _ => e);
    }
  }

  /** From `x` the step keeps the invariant, stays done once done, and lowers the rank until then. */
  ghost predicate Advances<S>(step: S -> S, holds: S -> bool, done: S -> bool, rank: S -> nat, x: S) {
    holds(x) ==>
      && holds(step(x))
      && (done(x) ==> done(step(x)))
      && (!done(x) ==> rank(step(x)) < rank(x))
  }

  lemma {:induction false} IterateReaches<S(!new)>(
    step: S -> S, holds: S -> bool, done: S -> bool, rank: S -> nat, s: S, n: nat)
    requires holds(s) && (done(s) || rank(s) <= n)
    requires forall x :: Advances(step, holds, done, rank, x)
    ensures done(Iterate(step, s, n))
    decreases n
  {
    assert Advances(step, holds, done, rank, s);
    if n > 0 {
      IterateReaches(step, holds, done, rank, step(s), n - 1);
      IterateAdd(step, s, 1, n - 1);
      assert Iterate(step, s, 1) == step(Iterate(step, s, 0));
    }
  }

  lemma Chain<S>(step: S -> S, s: S, a: nat, mid: S, b: nat, t: S)
    requires Iterate(step, s, a) == mid && Iterate(step, mid, b) == t
    ensures Iterate(step, s, a + b) == t
  {
    IterateAdd(step, s, a, b);
  }
}
