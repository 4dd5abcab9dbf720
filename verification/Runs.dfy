/** Runs of a transition system given by its one-step relation, and the two ways
    they are used: safety by induction, reachability by exhibiting a run. */
module Runs {

  /** run is a finite execution of step. */
  ghost predicate IsRun<S(!new)>(step: (S, S) -> bool, run: seq<S>) {
    run != [] && forall i :: 0 <= i < |run| - 1 ==> step(run[i], run[i + 1])
  }

  ghost predicate Leads<S(!new)>(step: (S, S) -> bool, a: S, b: S) {
    exists run :: IsRun(step, run) && run[0] == a && run[|run| - 1] == b
  }

  /** What one step keeps, every run keeps. */
  lemma {:induction false} Safety<S(!new)>(step: (S, S) -> bool, inv: S -> bool, run: seq<S>)
    requires IsRun(step, run) && inv(run[0])
    requires forall s, s' :: inv(s) && step(s, s') ==> inv(s')
    ensures inv(run[|run| - 1])
  {
    if |run| > 1 {
      var shorter := run[..|run| - 1];
      assert forall i :: 0 <= i < |shorter| - 1 ==> step(shorter[i], shorter[i + 1]);
      Safety(step, inv, shorter);
      assert step(run[|run| - 2], run[|run| - 1]);
    }
  }

  lemma Keeps<S(!new)>(step: (S, S) -> bool, inv: S -> bool, a: S, b: S)
    requires Leads(step, a, b) && inv(a)
    requires forall s, s' :: inv(s) && step(s, s') ==> inv(s')
    ensures inv(b)
  {
    var run :| IsRun(step, run) && run[0] == a && run[|run| - 1] == b;
    Safety(step, inv, run);
  }

  lemma Stay<S(!new)>(step: (S, S) -> bool, a: S)
    ensures Leads(step, a, a)
  {
    assert IsRun(step, [a]);
  }

  lemma Extend<S(!new)>(step: (S, S) -> bool, a: S, b: S, c: S)
    requires Leads(step, a, b) && step(b, c)
    ensures Leads(step, a, c)
  {
    var run :| IsRun(step, run) && run[0] == a && run[|run| - 1] == b;
    var longer := run + [c];
    forall i | 0 <= i < |longer| - 1 ensures step(longer[i], longer[i + 1]) {
      if i < |run| - 1 { assert longer[i] == run[i] && longer[i + 1] == run[i + 1]; }
    }
    assert IsRun(step, longer) && longer[0] == a && longer[|longer| - 1] == c;
  }
}
