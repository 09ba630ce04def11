/** Accounting over runs of an arbitrary deterministic step. */
module Ledger {

  import opened TokenBucket

  function RunState<S, E>(step: (S, E) -> S, s: S, events: seq<E>): S
    decreases events
  {
    if events == [] then s else RunState(step, step(s, events[0]), events[1..])
  }

  /** How many events of the run are counted. */
  function Count<S, E>(step: (S, E) -> S, counted: (S, E) -> bool, s: S, events: seq<E>): nat
    decreases events
  {
    if events == [] then 0
    else (if counted(s, events[0]) then 1 else 0) + Count(step, counted, step(s, events[0]), events[1..])
  }

  ghost predicate TimesMonotone<E>(read: E -> Clock64, events: seq<E>)
  {
    forall i, j :: 0 <= i < j < |events| ==> read(events[i]) <= read(events[j])
  }

  /** A step pays for what it counts out of a potential that grows with time. */
  ghost predicate PaysAt<S(!new), E(!new)>(
    step: (S, E) -> S, counted: (S, E) -> bool, read: E -> Clock64,
    ok: (S, Clock64) -> bool, potential: (S, Clock64) -> nat, rate: nat,
    s: S, e: E, t: Clock64)
  {
    ok(s, t) && t <= read(e) ==>
      && ok(step(s, e), read(e))
      && StepPays(if counted(s, e) then 1 else 0, potential(step(s, e), read(e)), potential(s, t), t, read(e), rate)
  }

  /** Every step pays, from every state and time. */
  ghost predicate Pays<S(!new), E(!new)>(
    step: (S, E) -> S, counted: (S, E) -> bool, read: E -> Clock64,
    ok: (S, Clock64) -> bool, potential: (S, Clock64) -> nat, rate: nat)
  {
    forall x: S, e: E, now: Clock64 :: PaysAt(step, counted, read, ok, potential, rate, x, e, now)
  }

  /** What a paying run counts is paid for by what it started with and by elapsed time. */
  lemma {:induction false} CountWithinPotential<S(!new), E(!new)>(
    step: (S, E) -> S, counted: (S, E) -> bool, read: E -> Clock64,
    ok: (S, Clock64) -> bool, potential: (S, Clock64) -> nat, rate: nat,
    s: S, t: Clock64, events: seq<E>)
    requires Pays(step, counted, read, ok, potential, rate)
    requires events != [] && TimesMonotone(read, events)
    requires ok(s, t) && t <= read(events[0])
    ensures PaidFor(Count(step, counted, s, events), potential(s, t), t, read(events[|events| - 1]), rate)
    decreases events
  {
    var e, rest := events[0], events[1..];
    var now, next := read(e), step(s, e);
    var one := if counted(s, e) then 1 else 0;
    assert PaysAt(step, counted, read, ok, potential, rate, s, e, t);
    if rest == [] {
      NothingToPay(potential(next, now), now, rate);
      PaidForBoth(one, 0, potential(s, t), potential(next, now), t, now, now, rate);
    } else {
      CountWithinPotential(step, counted, read, ok, potential, rate, next, now, rest);
      PaidForBoth(one, Count(step, counted, next, rest), potential(s, t), potential(next, now), t, now,
                  read(rest[|rest| - 1]), rate);
    }
  }
}
