# Cab-dispatch environment (CabDriver) in Dafny

This project models the environment of a reinforcement-learning cab driver,
the `CabDriver` class of `Env.py`. The driver lives in a world of m = 5
cities. A state is (location, hour of the day, day of the week), and an action
is a ride (pickup, drop). The pair (0, 0) means "decline every request".

- At construction the environment builds the list of the 21 actions and the
  list of the 840 states. It draws an initial state and starts the episode
  clock at 0.
- At every step the environment offers the requests of the current location:
  a Poisson-distributed count, capped at 15, of distinct random rides, plus the
  no-ride action.
- It prices an action: revenue R = 9 per hour with a passenger, minus cost
  C = 5 per hour of driving.
- It moves to the next state and adds the step's hours to the clock. Once the
  clock passes 720 hours, the episode ends and the clock is reset.
- It encodes states, or states with actions, as one-hot vectors for a neural
  network.

The files:

| file | module | contents |
|---|---|---|
| `mdp.dfy` | `Mdp` | the hyper-parameters m, t, d, C and R, the derived sizes, `State`, `Action`, the travel-time table type |
| `spaces.dfy` | `Spaces` | the action list and the state list, as the nested comprehensions build them, and what they contain |
| `encoding.dfy` | `Encoding` | the two one-hot encoders, which write into fresh arrays |
| `requests.dfy` | `Requests` | arrival rates per location, and the request offer |
| `dynamics.dfy` | `Dynamics` | the clock rules, the transition, the reward and the episode clock, as functions with lemmas |
| `cab_driver.dfy` | `Env` | the `CabDriver` class: its fields, its constructor, `Reset` and `NextStateFunc` |

The class keeps the fields the source sets. Only `totalTime` ever changes.
`NextStateFunc` is the source's step-by-step computation, written as a method
over local variables; its ride branch is the method `Ride`. It updates
`totalTime` in place and calls `Reset` when the episode ends. Its `ensures` ties the result to the pure `Transition` and
`Tick` functions. The properties of those two functions are proved as lemmas.

The encoders and `reward_func` read no field of the object. `requests` reads
only `action_size` and `action_space` (Env.py:87-88), which never change after
construction. The model therefore writes all four as module-level members: two
methods that allocate and fill an array, one method that builds the offer, and
one function. The offer uses `ActionSpace()` and `ActionSize`, which
`CabDriver.Configured()` ties to the two fields.

## Where the code departs from its evident intent

The model follows the code. It proves what the code does, including the two
places where the code departs from what its own comments and docstring say.

- **The day after a pickup leg.**
  - The comments at Env.py:115 and Env.py:144 say the line computes the "new
    day after pickup". That is the day at pickup time, which the ordinary rule
    of Env.py:136 and Env.py:150 gives.
  - The pickup leg (Env.py:114-115 and Env.py:143-144) first overwrites the
    hour h with the new hour h' = (h + p) mod 24. It then advances the day by
    (h' + p) div 24 instead of (h + p) div 24.
  - The hour always comes out right (`Dynamics.PickupAdvanceHour`).
  - The day comes out right exactly when the two carries agree. Equivalently,
    it is right when h ≤ 2·h' < h + 24 (`Dynamics.PickupAdvanceDayRight`). A
    pickup of a whole number of days, for instance, always lands on the right
    day.
  - Otherwise the day is off by one in either direction. From 20:00, a 3-hour
    pickup stays before midnight and still moves to the next day. A 5-hour
    pickup passes midnight and stays on the same day
    (`Dynamics.PickupAdvanceMisdates`).
  - `Dynamics.PickupLegSkipsADay` follows one whole ride. It starts at 20:00
    on day 0 and takes 3 hours to the pickup and 3 to the drop. It ends at
    02:00 on day 2, although six hours after the start is day 1.
  - Without a pickup leg the clock is exact
    (`Dynamics.StepMovesWeekClockWithoutPickupLeg`).
- **The pickup block of the state-and-action encoding.**
  - The docstring at Env.py:42 gives the vector as m + t + d + m + m entries:
    location, hour and day, followed by a pickup block and a drop block
    (the comments at Env.py:48-49).
  - Env.py:48-49 write the pickup at offset m + t + m and the drop at
    m + t + m + m, not after the day block at m + t + d and m + t + d + m.
  - So the pickup block overlaps days 5 and 6. The last two entries of the
    vector are never set (`Encoding.Arch1TailUnused`).
  - A vector holds four ones instead of five when day = m + pickup
    (`Encoding.Arch1CountsOnes`).
  - Distinct inputs can share a vector (`Encoding.Arch1Collides`).
  - The layout the length provides for, `Encoding.IntendedArch1Ones`, always
    marks five ones (`Encoding.IntendedArch1CountsFive`) and tells every
    state and action apart (`Encoding.IntendedArch1Injective`).

## Model

| member | source | states |
|---|---|---|
| Spaces.ActionSpace | Env.py:20 | the action comprehension evaluates to exactly the 21 pairs, in pickup-major order |
| Spaces.ActionSpaceShape | Env.py:20-30 | the action list has m(m-1)+1 entries, so it agrees with `action_size`; entry 0 is the no-ride pair (0,0); every other entry is a valid ride with pickup ≠ drop |
| Spaces.ActionSpaceMembership | Env.py:20 | an action is listed iff both locations are in range and pickup ≠ drop or pickup = 0 |
| Spaces.ActionSpaceOrdered | Env.py:20 | the action list is strictly increasing in (pickup, drop), so it has no repeats |
| Spaces.StateSpace | Env.py:23 | the state comprehension has m·t·d entries |
| Spaces.StateSpaceAt | Env.py:23 | entry i is (i div (t·d), (i div d) mod t, i mod d); that state is well formed and sits at its own index |
| Spaces.StateSpaceMembership | Env.py:23 | a state is listed iff it is well formed, and a well-formed state sits at index loc·t·d + hour·d + day |
| Spaces.StateSpaceOrdered | Env.py:23 | the state list is strictly increasing in (location, hour, day) order |
| Encoding.StateEncodArch1 | Env.py:41-50 | returns a fresh array of length m+t+d+m+m that is 1 exactly at the location, m+hour, m+t+day, m+t+m+pickup and m+t+m+m+drop, and 0 elsewhere |
| Encoding.Arch1CountsOnes | Env.py:45-49 | the vector holds 5 ones, or 4 when the day entry and the pickup entry coincide (day = m + pickup) |
| Encoding.Arch1TailUnused | Env.py:43-49 | the last two entries of the state-and-action vector are always 0 |
| Encoding.Arch1Collides | Env.py:47-48 | (day 5, pickup 1) and (day 6, pickup 0) give the same vector |
| Encoding.IntendedArch1CountsFive | Env.py:42-49 | with the pickup and drop blocks placed after the day block, as the vector's length m+t+d+m+m provides for, every valid state and action marks exactly five ones |
| Encoding.IntendedArch1Injective | Env.py:42-49 | in that layout, equal vectors from valid inputs imply equal states and equal actions |
| Encoding.StateEncodArch2 | Env.py:54-62 | returns a fresh array of length m+t+d that is 1 exactly at the location, m+hour and m+t+day, and 0 elsewhere |
| Encoding.Arch2CountsThree | Env.py:57-60 | the state vector holds exactly three ones |
| Encoding.Arch2Injective | Env.py:57-60 | distinct well-formed states get distinct state vectors |
| Requests.ArrivalRate | Env.py:69-81 | locations 0..4 have Poisson means 2, 12, 4, 7 and 8; any other location has none |
| Requests.Requests | Env.py:66-93 | for a location outside 0..4, no offer. Otherwise, with count = min(draw, 15): count distinct ride indices drawn from 1..20, their actions looked up in the action list, all real rides and pairwise distinct, followed by index 0 and the no-ride action |
| Dynamics.Advance | Env.py:135-136 | the ordinary clock rule yields a well-formed state at the same location |
| Dynamics.AdvanceMovesWeekClock | Env.py:149-150 | the ordinary rule moves the hour of the week forward by exactly the elapsed hours, modulo t·d |
| Dynamics.AdvanceAdds | Env.py:149-150 | advancing by a and then by b equals advancing by a + b |
| Dynamics.PickupAdvance | Env.py:143-144 | the pickup-leg rule yields a well-formed state at the same location |
| Dynamics.PickupAdvanceHour | Env.py:114-115 | the pickup-leg rule gives the same hour as the ordinary rule |
| Dynamics.PickupAdvanceDayRight | Env.py:143-144 | the pickup-leg rule gives the same state as the ordinary rule iff the day carry from the new hour equals the true carry, iff h ≤ 2·(new hour) < h + t |
| Dynamics.PickupAdvanceMisdates | Env.py:143-144 | the pickup-leg rule gets the day wrong both ways: a 3-hour pickup from 20:00 moves the day, and a 5-hour pickup does not |
| Dynamics.AtPickupOnTime | Env.py:141-144 | the cab is at the pickup at the ordinary clock's time after the pickup hours iff there is no pickup leg or h ≤ 2·(new hour) < h + t |
| Dynamics.AtPickup | Env.py:141-144 | the state at pickup time is well formed |
| Dynamics.Transition | Env.py:129-157 | the next state is well formed; the step is built from the shared PickupTime, AtPickup and DropTime legs, the same ones `Reward` uses |
| Dynamics.NoRideStep | Env.py:133-137 | declining costs one hour at the same location; the day moves only when the hour wraps from 23 to 0 |
| Dynamics.RideStep | Env.py:138-153 | a ride ends at the drop location, takes pickup plus drop hours, and moves the hour of the day by exactly those hours |
| Dynamics.StepMovesWeekClockWithoutPickupLeg | Env.py:133-153 | without a pickup leg, the next state's hour of the week is the old one plus the elapsed hours, modulo a week |
| Dynamics.PickupLegSkipsADay | Env.py:141-150 | with 3-hour legs, ride (1,2) from (0, 20:00, day 0) ends at (2, 02:00, day 2) after 6 hours, while 6 hours on the ordinary clock reach day 1 |
| Dynamics.Reward | Env.py:97-121 | declining earns −C; a ride earns (R − C) per hour of the drop leg and −C per hour of the pickup leg, the legs being the shared PickupTime and DropTime that `Transition` charges |
| Dynamics.RewardNoRide | Env.py:105-106 | declining earns −C |
| Dynamics.RewardWithoutPickupLeg | Env.py:108-119 | a ride from the current location earns (R − C) times the drop time at the current hour and day |
| Dynamics.RewardMatchesTransition | Env.py:97-121 | the reward is R times the drop-leg hours minus C times the hours the transition charges to the clock |
| Dynamics.WorkedExample | Env.py:97-157 | from (2, 10, 3), ride (1,4) with a 2-hour pickup and a 3-hour drop earns 2 and reaches (4, 15, 3) after 5 hours; declining earns −5 and reaches (2, 11, 3) |
| Dynamics.Tick | Env.py:160-163 | the clock never rests above 720 hours, and the step is terminal iff the old clock plus the step's hours exceeds 720 |
| Dynamics.IdleClockCounts | Env.py:133-134 | during the first 720 idle steps the clock counts the steps and the episode goes on |
| Dynamics.IdleEpisodeEnds | Env.py:160-163 | idle step 721 ends the episode and leaves the clock at 0 |
| Env.CabDriver.constructor | Env.py:17-35 | the fields hold the two lists and the sizes; the initial state is the drawn entry of the state list and is well formed; the clock is 0 |
| Env.CabDriver.Reset | Env.py:168-170 | the clock is 0; returns the action list, the state list and the initial state, none of which depend on the clock |
| Env.Ride | Env.py:138-153 | the ride branch of the step, computed leg by leg as the source does, returns exactly `Transition`'s next state and elapsed hours |
| Env.CabDriver.NextStateFunc | Env.py:126-165 | returns `Transition`'s next state; terminal iff the clock plus the step's hours exceeds 720; the new clock is 0 if terminal, otherwise the sum, i.e. exactly `Tick` |

## Left out

- Randomness is an input. The Poisson draw is a parameter `draw` that maps
  the mean to a count. `random.sample` is the prefix of an input ordering of
  the ride indices 1..20. The initial state is an index given to the
  constructor. Distributions are not modelled.
- The travel-time table is a parameter: a total function from (origin,
  destination, hour, day) to whole hours. Its construction and loading are not
  part of this model.
- Out-of-range states and actions are excluded by `requires`. In the source,
  an index past the end raises IndexError. A negative index silently wraps
  around in numpy and Python.
- Out-of-range inputs that the source accepts without any error are excluded
  by the same `requires`. The no-ride paths (Env.py:105-106 and
  Env.py:133-137) look nothing up and return a result for any state.
  `state_encod_arch_2` with an hour of 24..30 writes into the day block
  without raising.
- The `int(...)` casts and numpy's float vectors are not modelled. Travel
  times are whole hours, so the casts change nothing; the encoders use `int`
  entries.
- The `reshape` on Env.py:44 is not modelled. Its result is discarded, so it
  has no effect.
- Requests.Requests: the source fails with an unbound variable when the
  location is outside 0..4. The model returns `None` instead.
- Requests.Requests: the guarantee that 15 ≤ 20 indices exist is stated in the
  precondition on the ordering, not derived from `random.sample`'s own error
  for too large a sample.
- Env.CabDriver.NextStateFunc: states and actions are passed as values. The
  source's tuples are immutable, so no aliasing is lost.
