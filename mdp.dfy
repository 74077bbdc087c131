/** The fixed hyper-parameters of the cab-dispatch decision process and the
    values it works on: states (location, hour, day) and actions (pickup, drop). */
module Mdp {

  /** m: number of cities, locations range over 0 .. m-1. */
  const Cities := 5
  /** t: hours in a day. */
  const Hours := 24
  /** d: days in a week. */
  const Days := 7
  /** C: fuel and other costs per hour of driving. */
  const CostPerHour := 5
  /** R: revenue per hour of driving a passenger. */
  const RevenuePerHour := 9

  /** Length of an episode in hours: thirty days. */
  const MaxTime := 24 * 30
  /** Upper bound on the number of ride requests offered in one step. */
  const MaxRequests := 15
  /** m(m-1) rides with pickup != drop, plus the "no ride" action. */
  const ActionSize := Cities * (Cities - 1) + 1
  /** Length of the state-and-action encoding, m + t + d + m + m. */
  const StateSizeArch1 := Cities + Hours + Days + Cities + Cities
  /** Length of the state-only encoding, m + t + d. */
  const StateSizeArch2 := Cities + Hours + Days

  datatype Option<T> = None | Some(value: T)

  datatype State = State(loc: int, hour: int, day: int)

  datatype Action = Action(pickup: int, drop: int)

  /** The "no ride accepted" action (0,0). */
  const NoRide := Action(0, 0)

  predicate ValidState(s: State) {
    0 <= s.loc < Cities && 0 <= s.hour < Hours && 0 <= s.day < Days
  }

  /** Both locations index the travel-time table; pickup == drop is not excluded. */
  predicate ValidAction(a: Action) {
    0 <= a.pickup < Cities && 0 <= a.drop < Cities
  }

  /** The external travel-time table: hours from origin to destination when
      leaving at the given hour and day. */
  type TimeMatrix = (int, int, int, int) -> nat
}
