/** Repeating a step until it has no successor. */
module Iteration {
  import opened Common

  /** The iteration from s stops after at most n steps. */
  ghost predicate StopsWithin<S>(next: S -> Option<S>, s: S, n: nat)
    decreases n
  {
    next(s).None? || (n > 0 && StopsWithin(next, next(s).value, n - 1))
  }

  ghost predicate Stops<S>(next: S -> Option<S>, s: S) {
    exists n: nat :: StopsWithin(next, s, n)
  }

  lemma {:induction false} StopsLater<S>(next: S -> Option<S>, s: S, m: nat, n: nat)
    requires m <= n && StopsWithin(next, s, m)
    ensures StopsWithin(next, s, n)
    decreases m
  {
    if next(s).Some? {
      StopsLater(next, next(s).value, m - 1, n - 1);
    }
  }

  ghost function LeastWithin<S>(next: S -> Option<S>, s: S, n: nat): (m: nat)
    requires StopsWithin(next, s, n)
    ensures StopsWithin(next, s, m)
    ensures m > 0 ==> !StopsWithin(next, s, m - 1)
  {
    if n > 0 && StopsWithin(next, s, n - 1) then LeastWithin(next, s, n - 1) else n
  }

  /** The number of steps left: the least n within which the iteration stops. */
  ghost function StepsLeft<S>(next: S -> Option<S>, s: S): (m: nat)
    requires Stops(next, s)
    ensures StopsWithin(next, s, m)
    ensures m > 0 ==> !StopsWithin(next, s, m - 1)
  {
    var n :| StopsWithin(next, s, n);
    LeastWithin(next, s, n)
  }

  lemma StopsNext<S>(next: S -> Option<S>, s: S)
    requires Stops(next, s) && next(s).Some?
    ensures Stops(next, next(s).value) && StepsLeft(next, next(s).value) < StepsLeft(next, s)
  {
    var left := StepsLeft(next, s);
    assert StopsWithin(next, next(s).value, left - 1);
    var after := StepsLeft(next, next(s).value);
    if after >= left {
      StopsLater(next, next(s).value, left - 1, after - 1);
    }
  }

  lemma StopsBefore<S>(next: S -> Option<S>, s: S)
    requires next(s).Some? && Stops(next, next(s).value)
    ensures Stops(next, s)
  {
    var n: nat :| StopsWithin(next, next(s).value, n);
    assert StopsWithin(next, s, n + 1);
  }

  /** If every step keeps p and lowers a rank, the iteration stops. */
  lemma {:induction false} StopsByRank<S(!new)>(next: S -> Option<S>, p: S -> bool, rank: S -> nat, s: S)
    requires p(s) && forall x :: p(x) && next(x).Some? ==> p(next(x).value) && rank(next(x).value) < rank(x)
    ensures StopsWithin(next, s, rank(s))
    decreases rank(s)
  {
    if next(s).Some? {
      StopsByRank(next, p, rank, next(s).value);
      StopsLater(next, next(s).value, rank(next(s).value), rank(s) - 1);
    }
  }

  /** If P holds at s and every state with P has a successor with P, the iteration goes
      on for ever. */
  lemma {:induction false} GoesOn<S(!new)>(next: S -> Option<S>, p: S -> bool, s: S, n: nat)
    requires p(s) && forall x :: p(x) ==> next(x).Some? && p(next(x).value)
    ensures !StopsWithin(next, s, n)
    decreases n
  {
    if n > 0 {
      GoesOn(next, p, next(s).value, n - 1);
    }
  }
}
