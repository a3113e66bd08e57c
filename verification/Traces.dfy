/** Runs of a deterministic state machine whose every turn emits one event until it stops. */
module Traces {

  datatype Turn<S, E> = Stop | Go(event: E, next: S)

  /** From s the machine emits the events in order and is then in state t. */
  ghost predicate Yields<S, E>(turn: S -> Turn<S, E>, s: S, events: seq<E>, t: S)
    decreases |events|
  {
    if events == [] then t == s
    else turn(s).Go? && turn(s).event == events[0] && Yields(turn, turn(s).next, events[1..], t)
  }

  lemma {:induction false} YieldsMore<S, E>(turn: S -> Turn<S, E>, s: S, events: seq<E>, t: S,
                                            more: seq<E>, u: S)
    requires Yields(turn, s, events, t) && Yields(turn, t, more, u)
    ensures Yields(turn, s, events + more, u)
    decreases |events|
  {
    if events == [] {
      assert events + more == more;
    } else {
      YieldsMore(turn, turn(s).next, events[1..], t, more, u);
      assert (events + more)[1..] == events[1..] + more;
    }
  }

  lemma YieldsOne<S, E>(turn: S -> Turn<S, E>, s: S, event: E, t: S)
    requires turn(s) == Go(event, t)
    ensures Yields(turn, s, [event], t)
  {
  }

  /** A turn that emits an event consumes the first of the events that lead to a stop. */
  lemma YieldsStep<S, E>(turn: S -> Turn<S, E>, s: S, events: seq<E>, t: S, event: E, next: S)
    requires Yields(turn, s, events, t) && turn(t).Stop? && turn(s) == Go(event, next)
    ensures events != [] && events[0] == event && Yields(turn, next, events[1..], t)
  {
  }

  lemma YieldsStop<S, E>(turn: S -> Turn<S, E>, s: S, events: seq<E>, t: S)
    requires Yields(turn, s, events, t) && turn(s).Stop?
    ensures events == [] && t == s
  {
  }

  /** The machine is deterministic: behind some of its events it emits the rest of them. */
  lemma {:induction false} YieldsRest<S, E>(turn: S -> Turn<S, E>, s: S, events: seq<E>, u: S, rest: seq<E>, t: S)
    requires Yields(turn, s, events, u) && Yields(turn, s, events + rest, t)
    ensures Yields(turn, u, rest, t)
    decreases |events|
  {
    if events == [] {
      assert events + rest == rest;
    } else {
      assert (events + rest)[1..] == events[1..] + rest;
      YieldsRest(turn, turn(s).next, events[1..], u, rest, t);
    }
  }
}
