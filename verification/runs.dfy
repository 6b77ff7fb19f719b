/** Runs of a system that moves in steps, and what one part of it does in them. */
module Runs {
  import opened Wrappers

  /** next yields nothing if the step is not enabled. */
  datatype System<!S, !T> = System(init: S, next: (S, T) -> Option<S>)

  /** The state a sequence of steps leads to, if each of them is enabled. */
  function Play<S, T>(sys: System<S, T>, steps: seq<T>): Option<S> {
    if steps == [] then Some(sys.init)
    else
      var before := Play(sys, steps[..|steps| - 1]);
      if before.Some? then sys.next(before.value, steps[|steps| - 1]) else None
  }

  lemma PlayOne<S, T>(sys: System<S, T>, steps: seq<T>, step: T)
    ensures Play(sys, steps + [step])
         == if Play(sys, steps).Some? then sys.next(Play(sys, steps).value, step) else None
    ensures Play(sys, []) == Some(sys.init)
  {
    assert (steps + [step])[..|steps|] == steps;
  }

  ghost predicate LeadsTo<S, T>(sys: System<S, T>, steps: seq<T>, s: S) {
    Play(sys, steps) == Some(s)
  }

  ghost predicate Reachable<S, T(!new)>(sys: System<S, T>, s: S) {
    exists steps: seq<T> :: LeadsTo(sys, steps, s)
  }

  lemma StartReachable<S, T(!new)>(sys: System<S, T>)
    ensures Reachable(sys, sys.init)
  {
    assert LeadsTo(sys, [], sys.init);
  }

  lemma Extend<S, T(!new)>(sys: System<S, T>, s: S, step: T, t: S)
    requires Reachable(sys, s) && sys.next(s, step) == Some(t)
    ensures Reachable(sys, t)
  {
    var steps: seq<T> :| LeadsTo(sys, steps, s);
    PlayOne(sys, steps, step);
    assert LeadsTo(sys, steps + [step], t);
  }

  // ---------------------------------------------------------------- one part of the system

  /** The acts of a part, in these steps. */
  function Side<T, A>(part: T -> Option<A>, steps: seq<T>): seq<A> {
    if steps == [] then []
    else Side(part, steps[..|steps| - 1]) + Acts(part(steps[|steps| - 1]))
  }

  function Acts<A>(act: Option<A>): seq<A> {
    if act.Some? then [act.value] else []
  }

  lemma SideOne<T, A>(part: T -> Option<A>, steps: seq<T>, step: T)
    ensures Side(part, steps + [step]) == Side(part, steps) + Acts(part(step))
  {
    assert (steps + [step])[..|steps|] == steps;
  }

  /** These steps lead here, and these are the acts of the part. */
  ghost predicate PlaysOut<S, T, A>(sys: System<S, T>, part: T -> Option<A>, steps: seq<T>, acts: seq<A>, s: S) {
    Play(sys, steps) == Some(s) && Side(part, steps) == acts
  }

  ghost predicate IsPlayed<S, T(!new), A>(sys: System<S, T>, part: T -> Option<A>, acts: seq<A>, s: S) {
    exists steps: seq<T> :: PlaysOut(sys, part, steps, acts, s)
  }

  lemma StartPlayed<S, T(!new), A>(sys: System<S, T>, part: T -> Option<A>)
    ensures IsPlayed(sys, part, [], sys.init)
  {
    assert PlaysOut(sys, part, [], [], sys.init);
  }

  lemma PlayOn<S, T(!new), A>(sys: System<S, T>, part: T -> Option<A>, acts: seq<A>, s: S, step: T, t: S)
    requires IsPlayed(sys, part, acts, s) && sys.next(s, step) == Some(t)
    ensures IsPlayed(sys, part, acts + Acts(part(step)), t)
  {
    var steps: seq<T> :| PlaysOut(sys, part, steps, acts, s);
    PlayOne(sys, steps, step);
    SideOne(part, steps, step);
    assert PlaysOut(sys, part, steps + [step], acts + Acts(part(step)), t);
  }

  /** What the last step of a run was, for a run of at least one step. */
  lemma LastStep<S, T, A>(sys: System<S, T>, part: T -> Option<A>, steps: seq<T>)
    returns (before: seq<T>, step: T, s: S, t: S)
    requires steps != [] && Play(sys, steps).Some?
    ensures steps == before + [step] && |before| < |steps|
    ensures Play(sys, before) == Some(s) && sys.next(s, step) == Some(t) && Play(sys, steps) == Some(t)
    ensures Side(part, steps) == Side(part, before) + Acts(part(step))
  {
    before, step := steps[..|steps| - 1], steps[|steps| - 1];
    s, t := Play(sys, before).value, Play(sys, steps).value;
  }
}
