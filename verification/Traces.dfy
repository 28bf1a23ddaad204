/** Runs of a state machine whose steps are possible or not: what a sequence of events leads to. */
module Traces {
  import opened Models

  /** Each event is possible where the ones before it lead. */
  ghost predicate Trace<S, E>(step: (S, E) -> Option<S>, s: S, events: seq<E>)
    decreases |events|
  {
    events == [] || (step(s, events[0]).Some? && Trace(step, step(s, events[0]).value, events[1..]))
  }

  function End<S, E>(step: (S, E) -> Option<S>, s: S, events: seq<E>): S
    requires Trace(step, s, events)
    decreases |events|
  {
    if events == [] then s else End(step, step(s, events[0]).value, events[1..])
  }

  ghost predicate Reached<S, E>(step: (S, E) -> Option<S>, before: S, events: seq<E>, s: S) {
    Trace(step, before, events) && End(step, before, events) == s
  }

  lemma {:induction false} Extend<S, E>(step: (S, E) -> Option<S>, before: S, events: seq<E>, e: E, s: S)
    returns (longer: seq<E>)
    requires Reached(step, before, events, s) && step(s, e).Some?
    ensures longer == events + [e] && Reached(step, before, longer, step(s, e).value)
    decreases |events|
  {
    longer := events + [e];
    if events == [] {
      assert longer == [e] && [e][1..] == [];
      assert Trace(step, step(s, e).value, []);
    } else {
      var rest := Extend(step, step(before, events[0]).value, events[1..], e, s);
      assert longer[0] == events[0] && longer[1..] == rest;
    }
  }

  lemma Single<S, E>(step: (S, E) -> Option<S>, s: S, e: E)
    requires step(s, e).Some?
    ensures Reached(step, s, [e], step(s, e).value)
  {
    assert [e][1..] == [];
    assert Reached(step, step(s, e).value, [], step(s, e).value);
  }

  /** Two runs after one another are one run. */
  lemma {:induction false} Join<S, E>(step: (S, E) -> Option<S>, before: S, first: seq<E>, between: S,
                                      second: seq<E>, s: S)
    requires Reached(step, before, first, between) && Reached(step, between, second, s)
    ensures Reached(step, before, first + second, s)
    decreases |first|
  {
    if first == [] {
      assert first + second == second;
    } else {
      Join(step, step(before, first[0]).value, first[1..], between, second, s);
      assert (first + second)[0] == first[0] && (first + second)[1..] == first[1..] + second;
    }
  }

  /** What follows a part of a run is a run from where that part leads. */
  lemma {:induction false} Split<S, E>(step: (S, E) -> Option<S>, before: S, first: seq<E>, between: S,
                                       second: seq<E>, s: S)
    requires Reached(step, before, first, between) && Reached(step, before, first + second, s)
    ensures Reached(step, between, second, s)
    decreases |first|
  {
    if first == [] {
      assert first + second == second;
    } else {
      assert (first + second)[0] == first[0] && (first + second)[1..] == first[1..] + second;
      Split(step, step(before, first[0]).value, first[1..], between, second, s);
    }
  }
}
