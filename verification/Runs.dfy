/**
 Runs of a step system.  A system says where an action leads from a state; the
 protocol modules define one each and share what is said here about all of them.
 */
module Runs {
  import opened Wrappers

  /** The state an action leads to, or None where the action is not enabled. */
  type System<!S, !A> = (S, A) -> Option<S>

  ghost predicate IsRun<S, A>(next: System<S, A>, s: S, run: seq<A>)
    decreases |run|
  {
    run == [] || (next(s, run[0]).Some? && IsRun(next, next(s, run[0]).value, run[1..]))
  }

  ghost function Exec<S, A>(next: System<S, A>, s: S, run: seq<A>): S
    requires IsRun(next, s, run)
    decreases |run|
  {
    if run == [] then s else Exec(next, next(s, run[0]).value, run[1..])
  }

  ghost predicate Reaches<S(!new), A(!new)>(next: System<S, A>, initial: S, s: S) {
    exists run :: IsRun(next, initial, run) && Exec(next, initial, run) == s
  }

  /** Every action that is enabled keeps the invariant. */
  ghost predicate Inductive<S(!new), A(!new)>(next: System<S, A>, inv: S -> bool) {
    forall s, a :: inv(s) && next(s, a).Some? ==> inv(next(s, a).value)
  }

  lemma {:induction false} RunKeeps<S(!new), A(!new)>(next: System<S, A>, inv: S -> bool, s: S, run: seq<A>)
    requires Inductive(next, inv) && inv(s) && IsRun(next, s, run)
    ensures inv(Exec(next, s, run))
    decreases |run|
  {
    if run != [] { RunKeeps(next, inv, next(s, run[0]).value, run[1..]); }
  }

  /** An inductive invariant of the initial state holds in every reachable state. */
  lemma ReachableKeeps<S(!new), A(!new)>(next: System<S, A>, inv: S -> bool, initial: S, s: S)
    requires Inductive(next, inv) && inv(initial) && Reaches(next, initial, s)
    ensures inv(s)
  {
    var run :| IsRun(next, initial, run) && Exec(next, initial, run) == s;
    RunKeeps(next, inv, initial, run);
  }

  lemma RunCons<S, A>(next: System<S, A>, s: S, a: A, run: seq<A>)
    requires next(s, a).Some? && IsRun(next, next(s, a).value, run)
    ensures IsRun(next, s, [a] + run) && Exec(next, s, [a] + run) == Exec(next, next(s, a).value, run)
  {
    assert ([a] + run)[1..] == run;
  }

  lemma {:induction false} RunConcat<S(!new), A(!new)>(next: System<S, A>, s: S, x: seq<A>, y: seq<A>)
    requires IsRun(next, s, x) && IsRun(next, Exec(next, s, x), y)
    ensures IsRun(next, s, x + y) && Exec(next, s, x + y) == Exec(next, Exec(next, s, x), y)
    decreases |x|
  {
    if x == [] {
      assert x + y == y;
    } else {
      assert (x + y)[1..] == x[1..] + y;
      RunConcat(next, next(s, x[0]).value, x[1..], y);
    }
  }

  /** Reachability is closed under runs. */
  lemma ReachesAfter<S(!new), A(!new)>(next: System<S, A>, initial: S, s: S, run: seq<A>)
    requires Reaches(next, initial, s) && IsRun(next, s, run)
    ensures Reaches(next, initial, Exec(next, s, run))
  {
    var before :| IsRun(next, initial, before) && Exec(next, initial, before) == s;
    RunConcat(next, initial, before, run);
  }

  lemma ReachesInitial<S(!new), A(!new)>(next: System<S, A>, initial: S)
    ensures Reaches(next, initial, initial)
  {
    assert IsRun(next, initial, []) && Exec(next, initial, []) == initial;
  }

  lemma ReachesNext<S(!new), A(!new)>(next: System<S, A>, initial: S, s: S, a: A)
    requires Reaches(next, initial, s) && next(s, a).Some?
    ensures Reaches(next, initial, next(s, a).value)
  {
    var t := next(s, a).value;
    assert IsRun(next, t, []) && Exec(next, t, []) == t;
    assert [a][1..] == [];
    ReachesAfter(next, initial, s, [a]);
  }
}
