/** The states a run passes through, for objects that remember how they got where they are. */
module Paths {

  ghost predicate Path<S(!new), E(!new)>(next: (S, E) -> S, start: S, states: seq<S>, steps: seq<E>) {
    && |states| == |steps| + 1 && states[0] == start
    && (forall i {:trigger steps[i]} :: 0 <= i < |steps| ==> states[i + 1] == next(states[i], steps[i]))
  }

  lemma PathNext<S(!new), E(!new)>(next: (S, E) -> S, start: S, states: seq<S>, steps: seq<E>, step: E)
    requires Path(next, start, states, steps)
    ensures Path(next, start, states + [next(states[|steps|], step)], steps + [step])
  {
    var longer := states + [next(states[|steps|], step)];
    forall i | 0 <= i < |steps| + 1 ensures longer[i + 1] == next(longer[i], (steps + [step])[i]) {
      if i < |steps| { assert (steps + [step])[i] == steps[i]; }
    }
  }

  lemma PathFront<S(!new), E(!new)>(next: (S, E) -> S, start: S, states: seq<S>, steps: seq<E>)
    requires Path(next, start, states, steps) && steps != []
    ensures Path(next, start, states[..|steps|], steps[..|steps| - 1])
    ensures states[|steps|] == next(states[|steps| - 1], steps[|steps| - 1])
  {
    var front := steps[..|steps| - 1];
    assert forall i :: 0 <= i < |front| ==> front[i] == steps[i];
  }
}
