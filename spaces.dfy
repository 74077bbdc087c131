/** The action list and the state list that the environment builds once, at
    construction, with nested list comprehensions. A comprehension with several
    `for` clauses is the concatenation of the lists its inner clauses build,
    which is how both are written here. */
module Spaces {
  import opened Mdp

  /** Flattens a list of lists, as a comprehension with nested `for` clauses does. */
  function Concat<X>(xss: seq<seq<X>>): seq<X> {
    if xss == [] then [] else xss[0] + Concat(xss[1..])
  }

  predicate Uniform<X>(xss: seq<seq<X>>, k: nat) {
    forall b :: 0 <= b < |xss| ==> |xss[b]| == k
  }

  lemma {:induction false} ConcatLength<X>(xss: seq<seq<X>>, k: nat)
    requires Uniform(xss, k)
    ensures |Concat(xss)| == |xss| * k
  {
    if xss != [] {
      ConcatLength(xss[1..], k);
      assert |xss| * k == k + |xss[1..]| * k;
    }
  }

  /** In a flattening of blocks of equal length k, entry j of block b sits at b*k + j. */
  lemma {:induction false} ConcatAt<X>(xss: seq<seq<X>>, k: nat, b: nat, j: nat)
    requires Uniform(xss, k) && b < |xss| && j < k
    ensures b * k + j < |Concat(xss)| && Concat(xss)[b * k + j] == xss[b][j]
  {
    if b > 0 {
      ConcatAt(xss[1..], k, b - 1, j);
      assert b * k + j == k + ((b - 1) * k + j);
    }
  }

  lemma ConcatFive<X>(xss: seq<seq<X>>)
    requires |xss| == 5
    ensures Concat(xss) == xss[0] + xss[1] + xss[2] + xss[3] + xss[4]
  {
    assert Concat(xss[4..]) == xss[4] by {
      assert xss[4..][1..] == [];
    }
    assert Concat(xss[3..]) == xss[3] + xss[4] by {
      assert xss[3..][1..] == xss[4..];
    }
    assert Concat(xss[2..]) == xss[2] + xss[3] + xss[4] by {
      assert xss[2..][1..] == xss[3..];
    }
    assert Concat(xss[1..]) == xss[1] + xss[2] + xss[3] + xss[4] by {
      assert xss[1..][1..] == xss[2..];
    }
  }

  // ---------------------------------------------------------------------------
  // Action space: pairs (p, q) for p in range(m) for q in range(m) if p != q or p == 0
  // ---------------------------------------------------------------------------

  /** The filtered innermost clause: a one-element list when the pair is kept. */
  function Kept(pickup: int, drop: int): seq<Action> {
    if pickup != drop || pickup == 0 then [Action(pickup, drop)] else []
  }

  /** All kept pairs with the given pickup, drops in increasing order. */
  function PickupRow(pickup: int): seq<Action> {
    Concat(seq(Cities, drop => Kept(pickup, drop)))
  }

  lemma PickupRowList(pickup: int)
    requires 0 <= pickup < Cities
    ensures PickupRow(pickup)
            == Kept(pickup, 0) + Kept(pickup, 1) + Kept(pickup, 2) + Kept(pickup, 3) + Kept(pickup, 4)
  {
    ConcatFive(seq(Cities, drop => Kept(pickup, drop)));
  }

  /** The five rows of the action comprehension, joined. */
  lemma JoinRows()
    ensures [Action(0, 0), Action(0, 1), Action(0, 2), Action(0, 3), Action(0, 4)]
            + [Action(1, 0), Action(1, 2), Action(1, 3), Action(1, 4)]
            + [Action(2, 0), Action(2, 1), Action(2, 3), Action(2, 4)]
            + [Action(3, 0), Action(3, 1), Action(3, 2), Action(3, 4)]
            + [Action(4, 0), Action(4, 1), Action(4, 2), Action(4, 3)]
            == [
      Action(0, 0), Action(0, 1), Action(0, 2), Action(0, 3), Action(0, 4),
      Action(1, 0), Action(1, 2), Action(1, 3), Action(1, 4),
      Action(2, 0), Action(2, 1), Action(2, 3), Action(2, 4),
      Action(3, 0), Action(3, 1), Action(3, 2), Action(3, 4),
      Action(4, 0), Action(4, 1), Action(4, 2), Action(4, 3)]
  {
  }

  /** The action comprehension, which evaluates to these 21 pairs, in this order. */
  function ActionSpace(): (r: seq<Action>)
    ensures r == [
      Action(0, 0), Action(0, 1), Action(0, 2), Action(0, 3), Action(0, 4),
      Action(1, 0), Action(1, 2), Action(1, 3), Action(1, 4),
      Action(2, 0), Action(2, 1), Action(2, 3), Action(2, 4),
      Action(3, 0), Action(3, 1), Action(3, 2), Action(3, 4),
      Action(4, 0), Action(4, 1), Action(4, 2), Action(4, 3)]
  {
    var rows := seq(Cities, pickup => PickupRow(pickup));
    assert rows[0] == [Action(0, 0), Action(0, 1), Action(0, 2), Action(0, 3), Action(0, 4)] by {
      PickupRowList(0);
    }
    assert rows[1] == [Action(1, 0), Action(1, 2), Action(1, 3), Action(1, 4)] by {
      PickupRowList(1);
    }
    assert rows[2] == [Action(2, 0), Action(2, 1), Action(2, 3), Action(2, 4)] by {
      PickupRowList(2);
    }
    assert rows[3] == [Action(3, 0), Action(3, 1), Action(3, 2), Action(3, 4)] by {
      PickupRowList(3);
    }
    assert rows[4] == [Action(4, 0), Action(4, 1), Action(4, 2), Action(4, 3)] by {
      PickupRowList(4);
    }
    ConcatFive(rows);
    JoinRows();
    Concat(rows)
  }

  /** An action the comprehension keeps: a real ride, or the no-ride pair (0,0). */
  predicate Listed(a: Action) {
    ValidAction(a) && (a.pickup != a.drop || a.pickup == 0)
  }

  /** Lexicographic order on (pickup, drop), the order the comprehension produces. */
  predicate Before(a: Action, b: Action) {
    a.pickup < b.pickup || (a.pickup == b.pickup && a.drop < b.drop)
  }

  predicate StrictlyOrdered(s: seq<Action>) {
    forall i, j :: 0 <= i < j < |s| ==> Before(s[i], s[j])
  }

  /** Each neighbour pair in order makes the whole list ordered. */
  lemma {:induction false} AdjacentOrdered(s: seq<Action>)
    requires forall i :: 0 <= i < |s| - 1 ==> Before(s[i], s[i + 1])
    ensures StrictlyOrdered(s)
  {
    if |s| > 1 {
      AdjacentOrdered(s[1..]);
      forall j | 0 < j < |s| ensures Before(s[0], s[j]) {
        if j > 1 {
          assert Before(s[1..][0], s[1..][j - 1]);
        }
      }
      forall i, j | 0 <= i < j < |s| ensures Before(s[i], s[j]) {
        if i > 0 {
          assert Before(s[1..][i - 1], s[1..][j - 1]);
        }
      }
    }
  }

  /** The action list has exactly m(m-1)+1 entries and starts with the no-ride
      pair; every later entry is a real ride (pickup != drop). */
  lemma ActionSpaceShape()
    ensures |ActionSpace()| == ActionSize
    ensures ActionSpace()[0] == NoRide
    ensures forall i :: 0 < i < |ActionSpace()| ==>
              ValidAction(ActionSpace()[i]) && ActionSpace()[i].pickup != ActionSpace()[i].drop
  {
  }

  /** The action list holds exactly the listed pairs. */
  lemma ActionSpaceMembership()
    ensures forall a :: a in ActionSpace() <==> Listed(a)
  {
  }

  /** The action list is in lexicographic (pickup, drop) order, hence without repeats. */
  lemma ActionSpaceOrdered()
    ensures StrictlyOrdered(ActionSpace())
    ensures forall i, j :: 0 <= i < j < |ActionSpace()| ==> ActionSpace()[i] != ActionSpace()[j]
  {
    AdjacentOrdered(ActionSpace());
  }

  // ---------------------------------------------------------------------------
  // State space: (l, h, w) for l in range(m) for h in range(t) for w in range(d)
  // ---------------------------------------------------------------------------

  function DayRow(loc: int, hour: int): seq<State> {
    seq(Days, day => State(loc, hour, day))
  }

  function HourBlock(loc: int): (r: seq<State>)
    ensures |r| == Hours * Days
  {
    ConcatLength(seq(Hours, hour => DayRow(loc, hour)), Days);
    Concat(seq(Hours, hour => DayRow(loc, hour)))
  }

  /** The state comprehension: one entry per location, hour and day. */
  function StateSpace(): (r: seq<State>)
    ensures |r| == Cities * Hours * Days
  {
    ConcatLength(seq(Cities, loc => HourBlock(loc)), Hours * Days);
    Concat(seq(Cities, loc => HourBlock(loc)))
  }

  /** The position of a state in the list: location-major, then hour, then day. */
  function StateIndex(s: State): int {
    s.loc * (Hours * Days) + s.hour * Days + s.day
  }

  lemma HourBlockAt(loc: int, hour: nat, day: nat)
    requires hour < Hours && day < Days
    ensures HourBlock(loc)[hour * Days + day] == State(loc, hour, day)
  {
    ConcatAt(seq(Hours, h => DayRow(loc, h)), Days, hour, day);
  }

  /** Entry i of the state list is the state whose location, hour and day are
      the digits of i in the mixed radix (m, t, d); it is well formed and sits
      at its own StateIndex. */
  lemma StateSpaceAt(i: int)
    requires 0 <= i < Cities * Hours * Days
    ensures |StateSpace()| == Cities * Hours * Days
    ensures StateSpace()[i] == State(i / (Hours * Days), (i / Days) % Hours, i % Days)
    ensures ValidState(StateSpace()[i]) && StateIndex(StateSpace()[i]) == i
  {
    var blocks := seq(Cities, loc => HourBlock(loc));
    var loc, r := i / 168, i % 168;
    var hour, day := r / 7, r % 7;
    ConcatAt(blocks, 168, loc, r);
    HourBlockAt(loc, hour, day);
    assert r == hour * 7 + day;
    assert i / 7 == loc * 24 + hour;
    assert i == loc * 168 + hour * 7 + day;
  }

  /** StateIndex spelled out in digits: location, then an offset within the
      location's block of t·d = 168 states. */
  lemma StateIndexDigits(s: State)
    requires ValidState(s)
    ensures StateIndex(s) == s.loc * 168 + (s.hour * 7 + s.day)
    ensures 0 <= s.hour * 7 + s.day < 168
  {
    assert Hours * Days == 168 && Days == 7;
  }

  /** StateIndex is the mixed-radix number of a state, so it orders states
      lexicographically and tells them apart. */
  lemma StateIndexOrder(a: State, b: State)
    requires ValidState(a) && ValidState(b)
    ensures StateIndex(a) < StateIndex(b) ==> StateBefore(a, b)
    ensures StateIndex(a) == StateIndex(b) ==> a == b
  {
    StateIndexDigits(a);
    StateIndexDigits(b);
  }

  /** Every well-formed state is listed, at StateIndex, and nothing else is. */
  lemma StateSpaceMembership(s: State)
    ensures s in StateSpace() <==> ValidState(s)
    ensures ValidState(s) ==>
              0 <= StateIndex(s) < |StateSpace()| && StateSpace()[StateIndex(s)] == s
  {
    if ValidState(s) {
      var i := StateIndex(s);
      assert i == s.loc * 168 + s.hour * 7 + s.day;
      StateSpaceAt(i);
      StateIndexOrder(StateSpace()[i], s);
    }
    if s in StateSpace() {
      var i :| 0 <= i < |StateSpace()| && StateSpace()[i] == s;
      StateSpaceAt(i);
    }
  }

  /** Lexicographic order on (location, hour, day). */
  predicate StateBefore(a: State, b: State) {
    a.loc < b.loc || (a.loc == b.loc && (a.hour < b.hour || (a.hour == b.hour && a.day < b.day)))
  }

  /** The state list is in location-major, then hour, then day order. */
  lemma StateSpaceOrdered(i: int, j: int)
    requires 0 <= i < j < Cities * Hours * Days
    ensures |StateSpace()| == Cities * Hours * Days
    ensures StateBefore(StateSpace()[i], StateSpace()[j])
  {
    StateSpaceAt(i);
    StateSpaceAt(j);
    StateIndexOrder(StateSpace()[i], StateSpace()[j]);
  }
}
