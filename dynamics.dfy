/** Rewards, transitions and the episode clock of the cab-dispatch process.
    The travel-time table is a parameter: a total function from
    (origin, destination, hour, day) to whole hours. */
module Dynamics {
  import opened Mdp

  // ---------------------------------------------------------------------------
  // Clock rules
  // ---------------------------------------------------------------------------

  /** Hours since the start of the week. */
  function WeekHour(s: State): int {
    s.day * Hours + s.hour
  }

  /** The ordinary rule: hour (h + e) mod t, day advanced by (h + e) div t, mod d.
      Used for the drop leg and for the one idle hour of the no-ride action. */
  function Advance(s: State, e: nat): (r: State)
    requires ValidState(s)
    ensures ValidState(r) && r.loc == s.loc
  {
    State(s.loc, (s.hour + e) % Hours, (s.day + (s.hour + e) / Hours) % Days)
  }

  /** The rule the pickup leg applies: the hour is advanced first, and the day
      is then advanced by (new hour + e) div t, from the already advanced hour. */
  function PickupAdvance(s: State, e: nat): (r: State)
    requires ValidState(s)
    ensures ValidState(r) && r.loc == s.loc
  {
    var hour := (s.hour + e) % Hours;
    State(s.loc, hour, (s.day + (hour + e) / Hours) % Days)
  }

  /** Whole days past the week wrap around; the hour within the day is kept. */
  lemma WeekWrap(x: int, r: int)
    requires 0 <= r < Hours
    ensures (x * Hours + r) % (Hours * Days) == (x % Days) * Hours + r
  {
    var n := x * 24 + r;
    var q, y := x / 7, x % 7;
    assert x == q * 7 + y;
    assert n == q * 168 + (y * 24 + r);
    assert 0 <= y * 24 + r < 168;
    assert n % 168 == y * 24 + r;
  }

  /** The ordinary rule is a week-periodic clock: it moves the hour of the
      week forward by exactly e, modulo the length of a week. */
  lemma AdvanceMovesWeekClock(s: State, e: nat)
    requires ValidState(s)
    ensures WeekHour(Advance(s, e)) == (WeekHour(s) + e) % (Hours * Days)
  {
    var q, r := (s.hour + e) / 24, (s.hour + e) % 24;
    assert s.hour + e == q * 24 + r;
    assert WeekHour(s) + e == (s.day + q) * 24 + r;
    WeekWrap(s.day + q, r);
  }

  lemma HoursSplit(x: nat, y: nat)
    ensures (x + y) / Hours == x / Hours + (x % Hours + y) / Hours
    ensures (x + y) % Hours == (x % Hours + y) % Hours
  {
    var q, r := x / 24, x % 24;
    assert x + y == q * 24 + (r + y);
  }

  lemma DaysAdd(x: nat, y: nat)
    ensures (x % Days + y) % Days == (x + y) % Days
  {
    var q := x / 7;
    assert x + y == q * 7 + (x % 7 + y);
  }

  /** Advancing by a and then by b is advancing by a + b. */
  lemma AdvanceAdds(s: State, a: nat, b: nat)
    requires ValidState(s)
    ensures Advance(Advance(s, a), b) == Advance(s, a + b)
  {
    var s1 := Advance(s, a);
    var carry := (s1.hour + b) / Hours;
    HoursSplit(s.hour + a, b);
    assert (s.hour + a + b) / Hours == (s.hour + a) / Hours + carry;
    assert (s.hour + a + b) % Hours == (s1.hour + b) % Hours;
    DaysAdd(s.day + (s.hour + a) / Hours, carry);
    assert (s1.day + carry) % Days == (s.day + (s.hour + a + b) / Hours) % Days;
  }

  /** The pickup rule always gets the hour right. */
  lemma PickupAdvanceHour(s: State, e: nat)
    requires ValidState(s)
    ensures PickupAdvance(s, e).hour == Advance(s, e).hour
  {
  }

  /** ... but not always the day: from 20:00 a 3-hour pickup stays before
      midnight and still moves to the next day, and a 5-hour pickup passes
      midnight and stays on the same day. */
  lemma PickupAdvanceMisdates()
    ensures PickupAdvance(State(0, 20, 0), 3) == State(0, 23, 1)
    ensures Advance(State(0, 20, 0), 3) == State(0, 23, 0)
    ensures PickupAdvance(State(0, 20, 0), 5) == State(0, 1, 0)
    ensures Advance(State(0, 20, 0), 5) == State(0, 1, 1)
  {
  }

  /** Exactly when the pickup rule gets the day right: when the day carry
      computed from the new hour equals the true carry, or, equivalently, when
      twice the new hour lies in [h, h + t). A leg that is a whole number of
      days long, for instance, always lands on the right day. */
  lemma PickupAdvanceDayRight(s: State, e: nat)
    requires ValidState(s)
    ensures PickupAdvance(s, e) == Advance(s, e)
            <==> ((s.hour + e) % Hours + e) / Hours == (s.hour + e) / Hours
    ensures PickupAdvance(s, e) == Advance(s, e)
            <==> s.hour <= 2 * ((s.hour + e) % Hours) < s.hour + Hours
  {
    var h := s.hour;
    var q, r := (h + e) / 24, (h + e) % 24;
    assert h + e == 24 * q + r;
    var k := if 2 * r - h < 0 then -1 else if 2 * r - h < 24 then 0 else 1;
    assert r + e == 24 * (q + k) + (2 * r - h - 24 * k);
    assert (r + e) / 24 == q + k;
    assert PickupAdvance(s, e).day == (s.day + q + k) % 7;
    assert Advance(s, e).day == (s.day + q) % 7;
  }

  // ---------------------------------------------------------------------------
  // Transition (the value part of next_state_func)
  // ---------------------------------------------------------------------------

  /** The next state and the hours the step adds to the episode clock. */
  datatype Step = Step(next: State, elapsed: nat)

  predicate IsNoRide(a: Action) {
    a.pickup == 0 && a.drop == 0
  }

  /** Hours from the current location to the pickup; 0 when already there. */
  function PickupTime(s: State, a: Action, tm: TimeMatrix): nat {
    if s.loc != a.pickup then tm(s.loc, a.pickup, s.hour, s.day) else 0
  }

  /** Where and when the passenger is picked up. */
  function AtPickup(s: State, a: Action, tm: TimeMatrix): (r: State)
    requires ValidState(s)
    ensures ValidState(r)
  {
    if s.loc != a.pickup then PickupAdvance(s, PickupTime(s, a, tm)) else s
  }

  /** The cab reaches the pickup at the time the ordinary clock gives after
      the pickup hours exactly when there is no pickup leg or the pickup rule
      happens to get the day right. */
  lemma AtPickupOnTime(s: State, a: Action, tm: TimeMatrix)
    requires ValidState(s)
    ensures AtPickup(s, a, tm) == Advance(s, PickupTime(s, a, tm))
            <==> s.loc == a.pickup
                 || s.hour <= 2 * ((s.hour + PickupTime(s, a, tm)) % Hours) < s.hour + Hours
  {
    var p := PickupTime(s, a, tm);
    if s.loc == a.pickup {
      assert Advance(s, 0) == s;
    } else {
      PickupAdvanceDayRight(s, p);
    }
  }

  /** Hours of the revenue leg, looked up at the pickup time. */
  function DropTime(s: State, a: Action, tm: TimeMatrix): nat
    requires ValidState(s)
  {
    var p := AtPickup(s, a, tm);
    tm(a.pickup, a.drop, p.hour, p.day)
  }

  function Transition(s: State, a: Action, tm: TimeMatrix): (r: Step)
    requires ValidState(s) && ValidAction(a)
    ensures ValidState(r.next)
  {
    if IsNoRide(a) then
      Step(Advance(s, 1), 1)
    else
      var dropped := Advance(AtPickup(s, a, tm), DropTime(s, a, tm));
      Step(State(a.drop, dropped.hour, dropped.day),
           PickupTime(s, a, tm) + DropTime(s, a, tm))
  }

  /** No ride: one idle hour at the same location; the day moves on only when
      the hour wraps from t-1 to 0. */
  lemma NoRideStep(s: State, tm: TimeMatrix)
    requires ValidState(s)
    ensures Transition(s, NoRide, tm).elapsed == 1
    ensures Transition(s, NoRide, tm).next
            == State(s.loc, (s.hour + 1) % Hours,
                     if s.hour == Hours - 1 then (s.day + 1) % Days else s.day)
  {
  }

  /** A ride ends at the drop location, charges pickup plus drop hours, and
      moves the hour of the day by exactly those hours. */
  lemma RideStep(s: State, a: Action, tm: TimeMatrix)
    requires ValidState(s) && ValidAction(a) && !IsNoRide(a)
    ensures Transition(s, a, tm).next.loc == a.drop
    ensures Transition(s, a, tm).elapsed == PickupTime(s, a, tm) + DropTime(s, a, tm)
    ensures Transition(s, a, tm).next.hour == (s.hour + Transition(s, a, tm).elapsed) % Hours
  {
    var p, d := PickupTime(s, a, tm), DropTime(s, a, tm);
    var at := AtPickup(s, a, tm);
    assert at.hour == (s.hour + p) % 24;
    assert Transition(s, a, tm).next.hour == (at.hour + d) % 24;
    HoursSplit(s.hour + p, d);
  }

  /** Without a pickup leg (declining, or a ride from where the cab stands)
      the hour of the week moves by exactly the hours charged to the clock. */
  lemma StepMovesWeekClockWithoutPickupLeg(s: State, a: Action, tm: TimeMatrix)
    requires ValidState(s) && ValidAction(a)
    requires IsNoRide(a) || s.loc == a.pickup
    ensures WeekHour(Transition(s, a, tm).next)
            == (WeekHour(s) + Transition(s, a, tm).elapsed) % (Hours * Days)
  {
    if IsNoRide(a) {
      AdvanceMovesWeekClock(s, 1);
    } else {
      AdvanceMovesWeekClock(s, DropTime(s, a, tm));
    }
  }

  /** With a pickup leg the day can be off: three hours to the pickup and three
      more to the drop, starting at 20:00 on day 0, land at 02:00 on day 2,
      although six hours after the start is 02:00 on day 1. */
  lemma PickupLegSkipsADay(tm: TimeMatrix)
    requires forall o, d, h, w :: tm(o, d, h, w) == 3
    ensures Transition(State(0, 20, 0), Action(1, 2), tm) == Step(State(2, 2, 2), 6)
    ensures Advance(State(0, 20, 0), 6) == State(0, 2, 1)
  {
  }

  // ---------------------------------------------------------------------------
  // Reward (reward_func)
  // ---------------------------------------------------------------------------

  /** Revenue for the hours with a passenger minus the cost of every hour
      driven: R - C per hour of the drop leg, -C per hour of the pickup leg. */
  function Reward(s: State, a: Action, tm: TimeMatrix): (r: int)
    requires ValidState(s) && ValidAction(a)
    ensures IsNoRide(a) ==> r == -CostPerHour
    ensures !IsNoRide(a) ==>
              r == (RevenuePerHour - CostPerHour) * DropTime(s, a, tm) - CostPerHour * PickupTime(s, a, tm)
  {
    if IsNoRide(a) then
      -CostPerHour
    else
      var pickupTime := if s.loc != a.pickup then tm(s.loc, a.pickup, s.hour, s.day) else 0;
      var at := if s.loc != a.pickup then PickupAdvance(s, pickupTime) else s;
      var dropTime := tm(a.pickup, a.drop, at.hour, at.day);
      RevenuePerHour * dropTime - CostPerHour * (pickupTime + dropTime)
  }

  /** Declining every request costs one hour, whatever the state. */
  lemma RewardNoRide(s: State, tm: TimeMatrix)
    requires ValidState(s)
    ensures Reward(s, NoRide, tm) == -CostPerHour
  {
  }

  /** A ride from where the cab stands earns R - C per hour of the drop leg,
      looked up at the current hour and day. */
  lemma RewardWithoutPickupLeg(s: State, a: Action, tm: TimeMatrix)
    requires ValidState(s) && ValidAction(a) && !IsNoRide(a) && s.loc == a.pickup
    ensures Reward(s, a, tm)
            == (RevenuePerHour - CostPerHour) * tm(a.pickup, a.drop, s.hour, s.day)
  {
  }

  /** Reward and transition agree: the reward is revenue for the drop leg the
      transition charges, minus the cost of every hour it charges to the clock. */
  lemma RewardMatchesTransition(s: State, a: Action, tm: TimeMatrix)
    requires ValidState(s) && ValidAction(a)
    ensures Reward(s, a, tm)
            == RevenuePerHour * (if IsNoRide(a) then 0 else DropTime(s, a, tm))
               - CostPerHour * Transition(s, a, tm).elapsed
  {
  }

  /** The worked example: from (2, 10, 3), ride (1, 4), two hours to the pickup
      and three to the drop give reward 2, next state (4, 15, 3) and 5 hours. */
  lemma WorkedExample(tm: TimeMatrix)
    requires tm(2, 1, 10, 3) == 2 && tm(1, 4, 12, 3) == 3
    ensures Reward(State(2, 10, 3), Action(1, 4), tm) == 2
    ensures Transition(State(2, 10, 3), Action(1, 4), tm) == Step(State(4, 15, 3), 5)
    ensures Reward(State(2, 10, 3), NoRide, tm) == -5
    ensures Transition(State(2, 10, 3), NoRide, tm) == Step(State(2, 11, 3), 1)
  {
  }

  // ---------------------------------------------------------------------------
  // Episode clock
  // ---------------------------------------------------------------------------

  /** The clock after a step and whether the step ended the episode. */
  datatype Clock = Clock(time: nat, terminal: bool)

  /** Adds the step's hours; past MaxTime the episode ends and the clock is
      reset to 0. The clock never rests above MaxTime. */
  function Tick(time: nat, elapsed: nat): (c: Clock)
    ensures c.time <= MaxTime
    ensures c.terminal <==> time + elapsed > MaxTime
  {
    if time + elapsed > MaxTime then Clock(0, true) else Clock(time + elapsed, false)
  }

  /** The clock after n no-ride steps from a fresh episode. */
  function IdleClock(n: nat): Clock {
    if n == 0 then Clock(0, false) else Tick(IdleClock(n - 1).time, 1)
  }

  /** During the first MaxTime idle steps the clock counts them and the
      episode goes on. */
  lemma {:induction false} IdleClockCounts(n: nat)
    requires n <= MaxTime
    ensures IdleClock(n) == Clock(n, false)
  {
    if n > 0 {
      IdleClockCounts(n - 1);
    }
  }

  /** Step MaxTime + 1 of idling ends the episode and leaves the clock at 0. */
  lemma IdleEpisodeEnds()
    ensures IdleClock(MaxTime + 1) == Clock(0, true)
  {
    IdleClockCounts(MaxTime);
  }
}
