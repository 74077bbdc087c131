/** The environment object: the lists built at construction, the initial state
    drawn from them, and the episode clock that every transition advances. */
module Env {
  import opened Mdp
  import opened Spaces
  import opened Dynamics

  class CabDriver {
    const actionSpace: seq<Action>
    const stateSpace: seq<State>
    const stateInit: State
    const maxTime: nat
    const actionSize: nat
    const stateSizeArch1: nat
    const stateSizeArch2: nat
    /** Hours elapsed in the current episode. */
    var totalTime: nat

    /** The lists and sizes fixed at construction. */
    ghost predicate Configured() {
      && actionSpace == ActionSpace() && stateSpace == StateSpace()
      && stateInit in stateSpace
      && maxTime == MaxTime && actionSize == ActionSize
      && stateSizeArch1 == StateSizeArch1 && stateSizeArch2 == StateSizeArch2
    }

    /** Between calls the clock never rests above the episode length. */
    ghost predicate Valid()
      reads this
    {
      Configured() && totalTime <= maxTime
    }

    /** `initIndex` is the random draw that picks the initial state. */
    constructor (initIndex: nat)
      requires initIndex < Cities * Hours * Days
      ensures Valid()
      ensures stateInit == StateSpace()[initIndex] && ValidState(stateInit)
      ensures |actionSpace| == actionSize
      ensures totalTime == 0
    {
      actionSpace := ActionSpace();
      stateSpace := StateSpace();
      stateInit := StateSpace()[initIndex];
      totalTime := 0;
      maxTime := 24 * 30;
      actionSize := Cities * (Cities - 1) + 1;
      stateSizeArch1 := Cities + Hours + Days + Cities + Cities;
      stateSizeArch2 := Cities + Hours + Days;
      new;
      ActionSpaceShape();
      StateSpaceMembership(stateInit);
      var _, _, _ := Reset();
    }

    /** Ends the episode: the clock goes back to 0 and the same lists and the
        same initial state are handed out again. The result does not depend on
        the clock, so a second reset returns the same and changes nothing. */
    method Reset() returns (actions: seq<Action>, states: seq<State>, init: State)
      requires Configured()
      modifies this
      ensures Valid()
      ensures totalTime == 0
      ensures actions == actionSpace && states == stateSpace && init == stateInit
    {
      totalTime := 0;
      return actionSpace, stateSpace, stateInit;
    }

    /** One step: the next state of Transition, the step's hours added to the
        clock, and the episode ended (and the clock reset) once the clock
        passes maxTime. */
    method NextStateFunc(s: State, a: Action, tm: TimeMatrix) returns (next: State, isTerminal: bool)
      requires Valid() && ValidState(s) && ValidAction(a)
      modifies this
      ensures Valid()
      ensures next == Transition(s, a, tm).next
      ensures isTerminal <==> old(totalTime) + Transition(s, a, tm).elapsed > maxTime
      ensures totalTime == if isTerminal then 0 else old(totalTime) + Transition(s, a, tm).elapsed
      ensures Clock(totalTime, isTerminal) == Tick(old(totalTime), Transition(s, a, tm).elapsed)
    {
      ghost var step := Transition(s, a, tm);
      var location, timeHour, weekDay := s.loc, s.hour, s.day;
      var timeNext, nextDay, nextLocation;
      if a.pickup == 0 && a.drop == 0 {
        totalTime := totalTime + 1;
        timeNext := (timeHour + 1) % Hours;
        nextDay := (weekDay + (timeHour + 1) / Hours) % Days;
        nextLocation := location;
        assert State(nextLocation, timeNext, nextDay) == Advance(s, 1) == step.next;
        assert totalTime == old(totalTime) + step.elapsed;
      } else {
        var tripTime;
        next, tripTime := Ride(s, a, tm);
        nextLocation, timeNext, nextDay := next.loc, next.hour, next.day;
        totalTime := totalTime + tripTime;
      }
      next := State(nextLocation, timeNext, nextDay);
      isTerminal := totalTime > maxTime;
      if isTerminal {
        var _, _, _ := Reset();
      }
    }
  }

  /** The ride branch of the step, as the source computes it: the pickup leg
      (when the cab is elsewhere) moves the clock by the pickup rule, the drop
      leg by the ordinary rule, and the trip time adds up both legs. */
  method Ride(s: State, a: Action, tm: TimeMatrix) returns (next: State, tripTime: nat)
    requires ValidState(s) && ValidAction(a) && !IsNoRide(a)
    ensures next == Transition(s, a, tm).next
    ensures tripTime == Transition(s, a, tm).elapsed
  {
    var location, timeHour, weekDay := s.loc, s.hour, s.day;
    tripTime := 0;
    if location != a.pickup {
      var pickupTime := tm(location, a.pickup, timeHour, weekDay);
      timeHour := (timeHour + pickupTime) % Hours;
      weekDay := (weekDay + (timeHour + pickupTime) / Hours) % Days;
      tripTime := tripTime + pickupTime;
      assert State(location, timeHour, weekDay) == PickupAdvance(s, pickupTime);
    }
    assert State(location, timeHour, weekDay) == AtPickup(s, a, tm);
    assert tripTime == PickupTime(s, a, tm);
    var dropTime := tm(a.pickup, a.drop, timeHour, weekDay);
    var timeNext := (timeHour + dropTime) % Hours;
    var nextDay := (weekDay + (timeHour + dropTime) / Hours) % Days;
    assert dropTime == DropTime(s, a, tm);
    assert State(location, timeNext, nextDay) == Advance(AtPickup(s, a, tm), dropTime);
    tripTime := tripTime + dropTime;
    next := State(a.drop, timeNext, nextDay);
  }
}
