/** Runs of a protocol given by its steps: a partial function from a state and a step to the next state,
    undefined where the step is blocked or not that party's next one. */
module StateMachine {
  import opened Wrappers

  /** A whole interleaving; None as soon as one of its steps could not be taken. */
  function Run<S, E>(apply: (S, E) -> Option<S>, s: S, steps: seq<E>): Option<S>
    decreases |steps|
  {
    if steps == [] then Some(s)
    else match apply(s, steps[0])
      case None => None
      case Some(s') => Run(apply, s', steps[1..])
  }

  ghost predicate Reaches<S, E(!new)>(apply: (S, E) -> Option<S>, a: S, b: S)
  {
    exists steps: seq<E> :: Run(apply, a, steps) == Some(b)
  }

  /** Every step keeps inv. */
  ghost predicate Inductive<S(!new), E(!new)>(apply: (S, E) -> Option<S>, inv: S -> bool)
  {
    forall s, e :: inv(s) && apply(s, e).Some? ==> inv(apply(s, e).value)
  }

  lemma {:induction false} RunKeeps<S(!new), E(!new)>(apply: (S, E) -> Option<S>, inv: S -> bool, s: S, steps: seq<E>)
    requires Inductive(apply, inv) && inv(s) && Run(apply, s, steps).Some?
    ensures inv(Run(apply, s, steps).value)
    decreases |steps|
  {
    if steps != [] {
      RunKeeps(apply, inv, apply(s, steps[0]).value, steps[1..]);
    }
  }

  lemma ReachedKeeps<S(!new), E(!new)>(apply: (S, E) -> Option<S>, inv: S -> bool, a: S, b: S)
    requires Inductive(apply, inv) && inv(a) && Reaches(apply, a, b)
    ensures inv(b)
  {
    var steps: seq<E> :| Run(apply, a, steps) == Some(b);
    RunKeeps(apply, inv, a, steps);
  }

  lemma {:induction false} RunAppend<S, E>(apply: (S, E) -> Option<S>, s: S, steps: seq<E>, e: E)
    requires Run(apply, s, steps).Some?
    ensures Run(apply, s, steps + [e]) == apply(Run(apply, s, steps).value, e)
    decreases |steps|
  {
    if steps == [] {
      assert ([] + [e])[1..] == [];
      if apply(s, e).Some? {
        assert Run(apply, apply(s, e).value, []) == apply(s, e);
      }
    } else {
      assert (steps + [e])[1..] == steps[1..] + [e];
      RunAppend(apply, apply(s, steps[0]).value, steps[1..], e);
    }
  }

  lemma Here<S, E(!new)>(apply: (S, E) -> Option<S>, s: S)
    ensures Reaches(apply, s, s)
  {
    assert Run(apply, s, []) == Some(s);
  }

  /** One step further along a run. */
  lemma Then<S, E(!new)>(apply: (S, E) -> Option<S>, a: S, b: S, e: E) returns (c: S)
    requires Reaches(apply, a, b) && apply(b, e).Some?
    ensures c == apply(b, e).value && Reaches(apply, a, c)
  {
    var steps :| Run(apply, a, steps) == Some(b);
    RunAppend(apply, a, steps, e);
    c := apply(b, e).value;
  }

  lemma OneStep<S, E>(apply: (S, E) -> Option<S>, s: S, a: E)
    ensures Run(apply, s, [a]) == apply(s, a)
  {
    assert [a][1..] == [];
    if apply(s, a).Some? {
      assert Run(apply, apply(s, a).value, []) == apply(s, a);
    }
  }

  lemma TwoSteps<S, E>(apply: (S, E) -> Option<S>, s: S, a: E, b: E)
    ensures Run(apply, s, [a, b]) == if apply(s, a).None? then None else apply(apply(s, a).value, b)
  {
    assert [a, b][1..] == [b];
    if apply(s, a).Some? {
      OneStep(apply, apply(s, a).value, b);
    }
  }
}
