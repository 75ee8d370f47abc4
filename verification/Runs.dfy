/** Runs of a machine: finite sequences of steps from one state to another. */
module Runs {
  /** `next(s, step, s')`: the step can happen in `s` and leads to `s'`. */
  ghost predicate Run<S(!new), A(!new)>(next: (S, A, S) -> bool, s: S, steps: seq<A>, s': S)
    decreases |steps|
  {
    if steps == [] then s' == s
    else exists mid :: next(s, steps[0], mid) && Run(next, mid, steps[1..], s')
  }

  ghost predicate Reaches<S(!new), A(!new)>(next: (S, A, S) -> bool, s: S, s': S) {
    exists steps :: Run(next, s, steps, s')
  }

  lemma StandsStill<S(!new), A(!new)>(next: (S, A, S) -> bool, s: S)
    ensures Reaches(next, s, s)
  {
    assert Run(next, s, [], s);
  }

  lemma {:induction false} RunsJoin<S(!new), A(!new)>(
    next: (S, A, S) -> bool, s: S, first: seq<A>, mid: S, second: seq<A>, s': S)
    requires Run(next, s, first, mid) && Run(next, mid, second, s')
    ensures Run(next, s, first + second, s')
    decreases |first|
  {
    if first == [] {
      assert first + second == second;
    } else {
      var s1 :| next(s, first[0], s1) && Run(next, s1, first[1..], mid);
      RunsJoin(next, s1, first[1..], mid, second, s');
      assert (first + second)[1..] == first[1..] + second;
    }
  }

  lemma ReachesFurther<S(!new), A(!new)>(next: (S, A, S) -> bool, s: S, mid: S, s': S)
    requires Reaches(next, s, mid) && Reaches(next, mid, s')
    ensures Reaches(next, s, s')
  {
    var first :| Run(next, s, first, mid);
    var second :| Run(next, mid, second, s');
    RunsJoin(next, s, first, mid, second, s');
  }

  lemma StepOn<S(!new), A(!new)>(next: (S, A, S) -> bool, s: S, mid: S, step: A, s': S)
    requires Reaches(next, s, mid) && next(mid, step, s')
    ensures Reaches(next, s, s')
  {
    assert [step][1..] == [] && Run(next, s', [], s');
    assert Run(next, mid, [step], s');
    ReachesFurther(next, s, mid, s');
  }

  /** A run without its last step. */
  lemma {:induction false} LastOfRun<S(!new), A(!new)>(next: (S, A, S) -> bool, s: S, steps: seq<A>, s': S) returns (mid: S)
    requires steps != [] && Run(next, s, steps, s')
    ensures Run(next, s, steps[..|steps| - 1], mid) && next(mid, steps[|steps| - 1], s')
    decreases |steps|
  {
    var s1 :| next(s, steps[0], s1) && Run(next, s1, steps[1..], s');
    if |steps| == 1 {
      mid := s;
    } else {
      mid := LastOfRun(next, s1, steps[1..], s');
      var init := steps[..|steps| - 1];
      assert steps[1..][..|steps| - 2] == init[1..];
    }
  }

  /** What every step keeps, every run keeps. */
  lemma {:induction false} RunKeeps<S(!new), A(!new)>(
    next: (S, A, S) -> bool, keeps: S -> bool, s: S, steps: seq<A>, s': S)
    requires forall a, step, b | keeps(a) && next(a, step, b) :: keeps(b)
    requires keeps(s) && Run(next, s, steps, s')
    ensures keeps(s')
    decreases |steps|
  {
    if steps != [] {
      var mid :| next(s, steps[0], mid) && Run(next, mid, steps[1..], s');
      RunKeeps(next, keeps, mid, steps[1..], s');
    }
  }

  lemma ReachableKeeps<S(!new), A(!new)>(next: (S, A, S) -> bool, keeps: S -> bool, s: S, s': S)
    requires forall a, step, b | keeps(a) && next(a, step, b) :: keeps(b)
    requires keeps(s) && Reaches(next, s, s')
    ensures keeps(s')
  {
    var steps :| Run(next, s, steps, s');
    RunKeeps(next, keeps, s, steps, s');
  }
}
