/** Request sampling: how many ride requests the driver sees at a location and
    which rides they are. The two random draws are inputs: `draw` is the Poisson
    sampler (the count it returns for a given mean) and `order` is a random
    ordering of the ride indices 1 .. ActionSize-1, whose first k entries are a
    sample of k distinct indices without replacement. */
module Requests {
  import opened Mdp
  import opened Spaces

  /** Mean number of requests per step at each location; locations outside
      0 .. m-1 have none, and the source then fails with an unbound count. */
  function ArrivalRate(loc: int): (r: Option<nat>)
    ensures r.Some? <==> 0 <= loc < Cities
  {
    if loc == 0 then Some(2)
    else if loc == 1 then Some(12)
    else if loc == 2 then Some(4)
    else if loc == 3 then Some(7)
    else if loc == 4 then Some(8)
    else None
  }

  /** The offered ride indices into the action list and the matching actions. */
  datatype Offer = Offer(indices: seq<int>, actions: seq<Action>)

  /** A random ordering of all the ride indices, the sentinel index 0 excluded. */
  predicate OrdersRides(order: seq<int>) {
    && |order| == ActionSize - 1
    && (forall i :: 0 <= i < |order| ==> 1 <= order[i] < ActionSize)
    && (forall i, j :: 0 <= i < j < |order| ==> order[i] != order[j])
  }

  method Requests(s: State, draw: nat -> nat, order: seq<int>) returns (r: Option<Offer>)
    requires OrdersRides(order)
    ensures r.None? <==> !(0 <= s.loc < Cities)
    ensures r.Some? ==>
      var drawn := draw(ArrivalRate(s.loc).value);
      var count := if drawn > MaxRequests then MaxRequests else drawn;
      var offer := r.value;
      && |offer.indices| == count + 1 && |offer.actions| == count + 1
      && offer.indices[..count] == order[..count]
      && (forall i :: 0 <= i < count ==> 1 <= offer.indices[i] < ActionSize)
      && (forall i, j :: 0 <= i < j < count ==> offer.indices[i] != offer.indices[j])
      && (forall i :: 0 <= i <= count ==>
            0 <= offer.indices[i] < |ActionSpace()| && offer.actions[i] == ActionSpace()[offer.indices[i]])
      && (forall i :: 0 <= i < count ==>
            ValidAction(offer.actions[i]) && offer.actions[i].pickup != offer.actions[i].drop)
      && (forall i, j :: 0 <= i < j < count ==> offer.actions[i] != offer.actions[j])
      && offer.indices[count] == 0 && offer.actions[count] == NoRide
  {
    var rate := ArrivalRate(s.loc);
    if rate.None? {
      return None;
    }
    var requests := draw(rate.value);
    if requests > MaxRequests {
      requests := MaxRequests;
    }
    ActionSpaceShape();
    ActionSpaceOrdered();
    // At most 15 of the 20 ride indices are drawn, so the sample always exists.
    var possibleActionsIndex := order[..requests];
    var actions := seq(requests, i requires 0 <= i < requests => ActionSpace()[possibleActionsIndex[i]]);
    actions := actions + [NoRide];
    possibleActionsIndex := possibleActionsIndex + [0];
    r := Some(Offer(possibleActionsIndex, actions));
  }
}
