/** One-hot encodings of a state (and of a state with an action) for the
    network input. Each encoder zeroes a fresh array and writes 1 at fixed
    offsets, as the source does. */
module Encoding {
  import opened Mdp

  /** A 0/1 vector of length n with 1 exactly at the positions in `ones`. */
  function Indicator(n: nat, ones: set<int>): seq<int> {
    seq(n, i => if i in ones then 1 else 0)
  }

  /** Number of entries equal to 1. */
  function CountOnes(v: seq<int>): nat {
    if v == [] then 0 else CountOnes(v[..|v| - 1]) + (if v[|v| - 1] == 1 then 1 else 0)
  }

  function Below(ones: set<int>, n: int): set<int> {
    set i | i in ones && 0 <= i < n
  }

  /** An indicator vector holds as many ones as it has marked positions in range. */
  lemma {:induction false} CountIndicator(n: nat, ones: set<int>)
    ensures CountOnes(Indicator(n, ones)) == |Below(ones, n)|
  {
    if n == 0 {
      assert Below(ones, 0) == {};
    } else {
      CountIndicator(n - 1, ones);
      assert Indicator(n, ones)[..n - 1] == Indicator(n - 1, ones);
      if n - 1 in ones {
        assert Below(ones, n) == Below(ones, n - 1) + {n - 1};
      } else {
        assert Below(ones, n) == Below(ones, n - 1);
      }
    }
  }

  // ---------------------------------------------------------------------------
  // Architecture 2: state only, length m + t + d
  // ---------------------------------------------------------------------------

  /** Positions set for a state: location, then m + hour, then m + t + day. */
  function Arch2Ones(s: State): set<int> {
    {s.loc, Cities + s.hour, Cities + Hours + s.day}
  }

  method StateEncodArch2(s: State) returns (v: array<int>)
    requires ValidState(s)
    ensures fresh(v) && v.Length == StateSizeArch2
    ensures v[..] == Indicator(StateSizeArch2, Arch2Ones(s))
  {
    v := new int[Cities + Hours + Days](_ => 0);
    v[s.loc] := 1;
    v[Cities + s.hour] := 1;
    v[Cities + Hours + s.day] := 1;
  }

  /** The three blocks never overlap: exactly three ones. */
  lemma Arch2CountsThree(s: State)
    requires ValidState(s)
    ensures CountOnes(Indicator(StateSizeArch2, Arch2Ones(s))) == 3
  {
    CountIndicator(StateSizeArch2, Arch2Ones(s));
    assert Below(Arch2Ones(s), StateSizeArch2) == Arch2Ones(s);
  }

  /** Distinct well-formed states get distinct vectors. */
  lemma Arch2Injective(s: State, s': State)
    requires ValidState(s) && ValidState(s')
    requires Indicator(StateSizeArch2, Arch2Ones(s)) == Indicator(StateSizeArch2, Arch2Ones(s'))
    ensures s == s'
  {
    var v := Indicator(StateSizeArch2, Arch2Ones(s));
    assert v[s.loc] == 1 && v[Cities + s.hour] == 1 && v[Cities + Hours + s.day] == 1;
    assert s.loc in Arch2Ones(s');
    assert Cities + s.hour in Arch2Ones(s');
    assert Cities + Hours + s.day in Arch2Ones(s');
  }

  // ---------------------------------------------------------------------------
  // Architecture 1: state and action, length m + t + d + m + m
  // ---------------------------------------------------------------------------

  /** Offset of the pickup block as the source writes it: m + t + m, not
      m + t + d, so the pickup block's first two entries are the day block's
      last two (days 5 and 6). */
  const PickupOffset := Cities + Hours + Cities
  const DropOffset := Cities + Hours + Cities + Cities

  function Arch1Ones(s: State, a: Action): set<int> {
    {s.loc, Cities + s.hour, Cities + Hours + s.day, PickupOffset + a.pickup, DropOffset + a.drop}
  }

  method StateEncodArch1(s: State, a: Action) returns (v: array<int>)
    requires ValidState(s) && ValidAction(a)
    ensures fresh(v) && v.Length == StateSizeArch1
    ensures v[..] == Indicator(StateSizeArch1, Arch1Ones(s, a))
  {
    v := new int[Cities + Hours + Days + Cities + Cities](_ => 0);
    v[s.loc] := 1;
    v[Cities + s.hour] := 1;
    v[Cities + Hours + s.day] := 1;
    v[Cities + Hours + Cities + a.pickup] := 1;
    v[Cities + Hours + Cities + Cities + a.drop] := 1;
  }

  /** Five ones, except when the day's one and the pickup's one fall on the
      same place (day == m + pickup), which leaves four. */
  lemma Arch1CountsOnes(s: State, a: Action)
    requires ValidState(s) && ValidAction(a)
    ensures CountOnes(Indicator(StateSizeArch1, Arch1Ones(s, a)))
            == if s.day == Cities + a.pickup then 4 else 5
  {
    CountIndicator(StateSizeArch1, Arch1Ones(s, a));
    assert Below(Arch1Ones(s, a), StateSizeArch1) == Arch1Ones(s, a);
  }

  /** The last two entries, which the intended layout reserves for drops 3 and 4,
      are never set. */
  lemma Arch1TailUnused(s: State, a: Action)
    requires ValidState(s) && ValidAction(a)
    ensures Indicator(StateSizeArch1, Arch1Ones(s, a))[StateSizeArch1 - 2] == 0
    ensures Indicator(StateSizeArch1, Arch1Ones(s, a))[StateSizeArch1 - 1] == 0
  {
  }

  /** The overlap makes different inputs share a vector: day 5 with pickup 1 and
      day 6 with pickup 0 both mark positions 34 and 35. */
  lemma Arch1Collides()
    ensures Indicator(StateSizeArch1, Arch1Ones(State(0, 0, 5), Action(1, 2)))
            == Indicator(StateSizeArch1, Arch1Ones(State(0, 0, 6), Action(0, 2)))
  {
    assert Arch1Ones(State(0, 0, 5), Action(1, 2)) == Arch1Ones(State(0, 0, 6), Action(0, 2));
  }

  /** The layout the vector's length m + t + d + m + m provides for: the pickup
      block right after the day block, then the drop block. */
  function IntendedArch1Ones(s: State, a: Action): set<int> {
    {s.loc, Cities + s.hour, Cities + Hours + s.day,
     Cities + Hours + Days + a.pickup, Cities + Hours + Days + Cities + a.drop}
  }

  /** In that layout the five blocks never overlap: always five ones. */
  lemma IntendedArch1CountsFive(s: State, a: Action)
    requires ValidState(s) && ValidAction(a)
    ensures CountOnes(Indicator(StateSizeArch1, IntendedArch1Ones(s, a))) == 5
  {
    CountIndicator(StateSizeArch1, IntendedArch1Ones(s, a));
    assert Below(IntendedArch1Ones(s, a), StateSizeArch1) == IntendedArch1Ones(s, a);
  }

  /** ... and distinct inputs get distinct vectors, which the source's layout
      loses (Arch1Collides). */
  lemma IntendedArch1Injective(s: State, a: Action, s': State, a': Action)
    requires ValidState(s) && ValidAction(a) && ValidState(s') && ValidAction(a')
    requires Indicator(StateSizeArch1, IntendedArch1Ones(s, a))
             == Indicator(StateSizeArch1, IntendedArch1Ones(s', a'))
    ensures s == s' && a == a'
  {
    var v := Indicator(StateSizeArch1, IntendedArch1Ones(s, a));
    assert v[s.loc] == 1 && v[Cities + s.hour] == 1 && v[Cities + Hours + s.day] == 1;
    assert v[Cities + Hours + Days + a.pickup] == 1;
    assert v[Cities + Hours + Days + Cities + a.drop] == 1;
    assert s.loc in IntendedArch1Ones(s', a');
    assert Cities + s.hour in IntendedArch1Ones(s', a');
    assert Cities + Hours + s.day in IntendedArch1Ones(s', a');
    assert Cities + Hours + Days + a.pickup in IntendedArch1Ones(s', a');
    assert Cities + Hours + Days + Cities + a.drop in IntendedArch1Ones(s', a');
  }
}
