/** Runs of a machine that takes one step at a time; `take` gives the state after a step that is enabled. */
module Steps {
  import opened Base

  predicate CanRun<S, T>(take: (S, T) -> Option<S>, a: S, steps: seq<T>)
    decreases |steps|
  {
    steps == [] || (take(a, steps[0]).Some? && CanRun(take, take(a, steps[0]).value, steps[1..]))
  }

  function After<S, T>(take: (S, T) -> Option<S>, a: S, steps: seq<T>): S
    requires CanRun(take, a, steps)
    decreases |steps|
  {
    if steps == [] then a else After(take, take(a, steps[0]).value, steps[1..])
  }

  ghost predicate IsRun<S, T>(take: (S, T) -> Option<S>, a: S, steps: seq<T>, b: S) {
    CanRun(take, a, steps) && After(take, a, steps) == b
  }

  /** Some run of steps leads from one state to the other. */
  ghost predicate Reaches<S, T(!new)>(take: (S, T) -> Option<S>, a: S, b: S) {
    exists steps: seq<T> :: IsRun(take, a, steps, b)
  }

  lemma ReachesSelf<S, T(!new)>(take: (S, T) -> Option<S>, a: S)
    ensures Reaches(take, a, a)
  {
    var none: seq<T> := [];
    assert IsRun(take, a, none, a);
  }

  lemma ReachesByStep<S, T(!new)>(take: (S, T) -> Option<S>, a: S, step: T)
    requires take(a, step).Some?
    ensures Reaches(take, a, take(a, step).value)
  {
    var b := take(a, step).value;
    assert [step][1..] == [];
    assert IsRun(take, b, [], b);
    assert IsRun(take, a, [step], b);
  }

  lemma {:induction false} RunsJoin<S, T>(take: (S, T) -> Option<S>, a: S, first: seq<T>, b: S, second: seq<T>, c: S)
    requires IsRun(take, a, first, b) && IsRun(take, b, second, c)
    ensures IsRun(take, a, first + second, c)
    decreases |first|
  {
    if first == [] {
      assert first + second == second;
    } else {
      RunsJoin(take, take(a, first[0]).value, first[1..], b, second, c);
      assert (first + second)[0] == first[0] && (first + second)[1..] == first[1..] + second;
    }
  }

  lemma ReachesTrans<S, T(!new)>(take: (S, T) -> Option<S>, a: S, b: S, c: S)
    requires Reaches(take, a, b) && Reaches(take, b, c)
    ensures Reaches(take, a, c)
  {
    var first :| IsRun(take, a, first, b);
    var second :| IsRun(take, b, second, c);
    RunsJoin(take, a, first, b, second, c);
  }

  /** Each step keeps the property. */
  ghost predicate Inductive<S(!new), T(!new)>(take: (S, T) -> Option<S>, holds: S -> bool) {
    forall s, step :: holds(s) && take(s, step).Some? ==> holds(take(s, step).value)
  }

  lemma {:induction false} RunKeeps<S(!new), T(!new)>(take: (S, T) -> Option<S>, holds: S -> bool, a: S, steps: seq<T>)
    requires Inductive(take, holds) && holds(a) && CanRun(take, a, steps)
    ensures holds(After(take, a, steps))
    decreases |steps|
  {
    if steps != [] {
      RunKeeps(take, holds, take(a, steps[0]).value, steps[1..]);
    }
  }

  /** What each step keeps, every run keeps. */
  lemma ReachesKeeps<S(!new), T(!new)>(take: (S, T) -> Option<S>, holds: S -> bool, a: S, b: S)
    requires Inductive(take, holds) && holds(a) && Reaches(take, a, b)
    ensures holds(b)
  {
    var steps :| IsRun(take, a, steps, b);
    RunKeeps(take, holds, a, steps);
  }
}
