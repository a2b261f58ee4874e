/** What the optimizer takes for near: the distance on the plane, in terms of latitude and longitude. */
module RouteDistance {
  import opened Text
  import opened Journey
  import opened RouteOptimizer
  import opened OptimizerResults
  import opened OptimizingTwice

  function Lat(s: Stop): (x: real)
    requires HasCoordinate(s)
  {
    GetStopCoordinate(s).value.lat
  }

  function Lng(s: Stop): (x: real)
    requires HasCoordinate(s)
  {
    GetStopCoordinate(s).value.lng
  }

  function Gap(x: real, y: real): (d: real) {
    if x < y then y - x else x - y
  }

  /** Numbers are the coordinate, `null` is zero, and a field that is left out gives no coordinate. */
  lemma CoordinateOfFields(s: Stop)
    ensures s.lat.Missing? || s.lng.Missing? <==> !HasCoordinate(s)
    ensures HasCoordinate(s) && s.lat.Number? ==> Lat(s) == s.lat.value
    ensures HasCoordinate(s) && s.lng.Number? ==> Lng(s) == s.lng.value
    ensures HasCoordinate(s) && s.lat.Null? ==> Lat(s) == 0.0
    ensures HasCoordinate(s) && s.lng.Null? ==> Lng(s) == 0.0
  {}

  // ---------- Squares and gaps ----------

  lemma ProductGrows(x: real, y: real, z: real, left: real, right: real)
    requires 0.0 <= x && y < z && left == x * y && right == x * z
    ensures left <= right && (0.0 < x ==> left < right)
  {
    ProductSign(x, z - y, right - left);
  }

  lemma ProductSign(x: real, y: real, product: real)
    requires 0.0 <= x && 0.0 < y && product == x * y
    ensures 0.0 <= product && (0.0 < x ==> 0.0 < product)
  {
    if 0.0 < x {
      ProductIsPositive(x, y, product);
    }
  }

  lemma SquareOrder(x: real, y: real)
    requires 0.0 <= x < y
    ensures Square(x) < Square(y)
  {
    ProductGrows(x, x, y, Square(x), x * y);
    ProductGrows(y, x, y, y * x, Square(y));
  }

  lemma SquareOfGap(x: real, y: real)
    ensures Square(x - y) == Square(Gap(x, y))
  {
    SquareOfNegative(x - y);
    assert -(x - y) == y - x;
  }

  /** The distance of two stops adds the squares of both gaps. */
  lemma DistanceOfGaps(a: Stop, b: Stop)
    requires HasCoordinate(a) && HasCoordinate(b)
    ensures Distance(a, b) == Some(Square(Gap(Lat(a), Lat(b))) + Square(Gap(Lng(a), Lng(b))))
  {
    SquareOfGap(Lat(a), Lat(b));
    SquareOfGap(Lng(a), Lng(b));
  }

  // ---------- Which stop is nearer ----------

  /** A stop that is no farther in either direction is not farther, and it is nearer if it is so in one. */
  lemma NearerInBoth(a: Stop, b: Stop, c: Stop)
    requires HasCoordinate(a) && HasCoordinate(b) && HasCoordinate(c)
    requires Gap(Lat(a), Lat(b)) <= Gap(Lat(a), Lat(c)) && Gap(Lng(a), Lng(b)) <= Gap(Lng(a), Lng(c))
    ensures !Less(Distance(a, c), Distance(a, b))
    ensures Less(Distance(a, b), Distance(a, c)) <==>
      Gap(Lat(a), Lat(b)) < Gap(Lat(a), Lat(c)) || Gap(Lng(a), Lng(b)) < Gap(Lng(a), Lng(c))
  {
    DistanceOfGaps(a, b);
    DistanceOfGaps(a, c);
    var x, y, u, v := Gap(Lat(a), Lat(b)), Gap(Lat(a), Lat(c)), Gap(Lng(a), Lng(b)), Gap(Lng(a), Lng(c));
    if x < y {
      SquareOrder(x, y);
    }
    if u < v {
      SquareOrder(u, v);
    }
  }

  /** A stop without a coordinate is infinitely far away. */
  lemma UnplacedIsFar(a: Stop, b: Stop, c: Stop)
    requires HasCoordinate(a) && HasCoordinate(b) && !HasCoordinate(c)
    ensures Less(Distance(a, b), Distance(a, c)) && !Less(Distance(a, c), Distance(a, b))
  {}

  lemma DistanceIsSymmetric(a: Stop, b: Stop)
    ensures Distance(a, b) == Distance(b, a)
  {
    if HasCoordinate(a) && HasCoordinate(b) {
      DistanceOfGaps(a, b);
      DistanceOfGaps(b, a);
    }
  }

  /** The stop with its latitude and longitude exchanged. */
  function Turned(s: Stop): (t: Stop) {
    s.(lat := s.lng, lng := s.lat)
  }

  /** Exchanging latitude and longitude everywhere changes no distance, and so no comparison. */
  lemma TurnedDistance(a: Stop, b: Stop)
    ensures Distance(Turned(a), Turned(b)) == Distance(a, b)
  {}

  lemma RotatedSquares(c: real, s: real, x: real, y: real)
    requires c * c + s * s == 1.0
    ensures Square(c * x - s * y) + Square(s * x + c * y) == Square(x) + Square(y)
  {
    var n := x * x + y * y;
    assert Square(c * x - s * y) + Square(s * x + c * y) == (c * c + s * s) * n;
  }

  /** The distance of two stops does not change when the plane is turned by any angle. */
  lemma RotatedDistance(c: real, s: real, a: Stop, b: Stop, p: Stop, q: Stop)
    requires c * c + s * s == 1.0
    requires HasCoordinate(a) && HasCoordinate(b) && HasCoordinate(p) && HasCoordinate(q)
    requires Lat(p) == c * Lat(a) - s * Lng(a) && Lng(p) == s * Lat(a) + c * Lng(a)
    requires Lat(q) == c * Lat(b) - s * Lng(b) && Lng(q) == s * Lat(b) + c * Lng(b)
    ensures Distance(p, q) == Distance(a, b)
  {
    var x, y := Lat(a) - Lat(b), Lng(a) - Lng(b);
    RotatedSquares(c, s, x, y);
    assert Lat(p) - Lat(q) == c * x - s * y;
    assert Lng(p) - Lng(q) == s * x + c * y;
  }

  // ---------- A run on one meridian, or on one parallel ----------

  /** The coordinate that changes along a meridian (`byLat`) or along a parallel. */
  function Along(byLat: bool, s: Stop): (x: real)
    requires HasCoordinate(s)
  {
    if byLat then Lat(s) else Lng(s)
  }

  /** All these stops have coordinates, on one meridian or on one parallel. */
  predicate InLine(byLat: bool, s: Stop, t: Stop) {
    HasCoordinate(s) && HasCoordinate(t) && Along(!byLat, s) == Along(!byLat, t)
  }

  lemma NearerInLine(byLat: bool, a: Stop, b: Stop, c: Stop)
    requires InLine(byLat, a, b) && InLine(byLat, a, c)
    ensures Less(Distance(a, b), Distance(a, c)) <==>
      Gap(Along(byLat, a), Along(byLat, b)) < Gap(Along(byLat, a), Along(byLat, c))
  {
    if Gap(Along(byLat, a), Along(byLat, b)) <= Gap(Along(byLat, a), Along(byLat, c)) {
      NearerInBoth(a, b, c);
    } else {
      NearerInBoth(a, c, b);
    }
  }

  /** Neither locked nor without a coordinate: stops `a` to `b` may move, and their neighbours may not. */
  predicate MovesFreely(stops: seq<Stop>, a: nat, b: nat) {
    && a < b <= |stops|
    && (forall i | a <= i < b :: !stops[i].locked && HasCoordinate(stops[i]))
    && (a == 0 || stops[a - 1].locked || !HasCoordinate(stops[a - 1]))
    && (b == |stops| || stops[b].locked || !HasCoordinate(stops[b]))
  }

  /** What place `i` of a swept line says: no later stop would have been a shorter way, and ties are old. */
  ghost predicate ShortestWay(byLat: bool, from: Stop, chosen: Stop, other: Stop, rank: nat, otherRank: nat)
    requires HasCoordinate(from) && HasCoordinate(chosen) && HasCoordinate(other)
  {
    var gap, otherGap := Gap(Along(byLat, from), Along(byLat, chosen)), Gap(Along(byLat, from), Along(byLat, other));
    gap <= otherGap && (gap == otherGap ==> rank < otherRank)
  }

  ghost predicate Swept(byLat: bool, cursor: Stop, tour: seq<Stop>, rank: seq<nat>)
    requires |tour| == |rank| && HasCoordinate(cursor) && forall i | 0 <= i < |tour| :: HasCoordinate(tour[i])
  {
    forall i, j | 0 <= i < j < |tour| ::
      ShortestWay(byLat, Before(cursor, tour, i), tour[i], tour[j], rank[i], rank[j])
  }

  lemma GreedyIsSwept(byLat: bool, cursor: Stop, tour: seq<Stop>, rank: seq<nat>)
    requires |tour| == |rank| && IsGreedy(cursor, tour, rank)
    requires HasCoordinate(cursor) && forall i | 0 <= i < |tour| :: InLine(byLat, cursor, tour[i])
    ensures forall i | 0 <= i < |tour| :: HasCoordinate(tour[i])
    ensures Swept(byLat, cursor, tour, rank)
  {
    assert forall i | 0 <= i < |tour| :: InLine(byLat, cursor, tour[i]) && HasCoordinate(tour[i]);
    forall i, j | 0 <= i < j < |tour|
      ensures ShortestWay(byLat, Before(cursor, tour, i), tour[i], tour[j], rank[i], rank[j])
    {
      assert GreedyChoice(cursor, tour, rank, i, j);
      assert InLine(byLat, cursor, tour[i]) && InLine(byLat, cursor, tour[j]);
      assert i > 0 ==> InLine(byLat, cursor, tour[i - 1]);
      var from := Before(cursor, tour, i);
      NearerInLine(byLat, from, tour[i], tour[j]);
      NearerInLine(byLat, from, tour[j], tour[i]);
    }
  }

  lemma RankedInLine(byLat: bool, cursor: Stop, before: seq<Stop>, tour: seq<Stop>, rank: seq<nat>)
    requires IsRanking(before, tour, rank) && forall i | 0 <= i < |before| :: InLine(byLat, cursor, before[i])
    ensures forall i | 0 <= i < |tour| :: InLine(byLat, cursor, tour[i])
  {
    forall i | 0 <= i < |tour|
      ensures InLine(byLat, cursor, tour[i])
    {
      assert tour[i] == before[rank[i]];
    }
  }

  /**
    A run in one line is swept along the line: every stop is at the shortest way from the one before
    it, in degrees of latitude or of longitude, among all that follow, and the older one of two that
    are equally far.
   */
  lemma LineIsSwept(byLat: bool, stops: seq<Stop>, a: nat, b: nat) returns (rank: seq<nat>)
    requires MovesFreely(stops, a, b) && b - a >= 2 && (a > 0 ==> HasCoordinate(stops[a - 1]))
    requires var from := if a == 0 then stops[0] else stops[a - 1]; forall i | a <= i < b :: InLine(byLat, from, stops[i])
    ensures var from, n := if a == 0 then stops[0] else stops[a - 1], if a == 0 then 1 else 0;
      var tour := OptimizedDay(stops)[a..b][n..];
      && (a == 0 ==> OptimizedDay(stops)[0] == stops[0])
      && IsRanking(stops[a..b][n..], tour, rank)
      && HasCoordinate(from) && (forall i | 0 <= i < |tour| :: HasCoordinate(tour[i]))
      && Swept(byLat, from, tour, rank)
  {
    var from, n := if a == 0 then stops[0] else stops[a - 1], if a == 0 then 1 else 0;
    var run, day := stops[a..b], OptimizedDay(stops);
    assert InLine(byLat, from, stops[a]);
    assert IsRun(stops, a, b);
    RunOfOptimized(stops, a, b);
    rank := WrittenIsGreedy(run, AnchorOf(stops, a));
    assert a == 0 ==> day[a..b][0] == day[0] && run[0] == stops[0];
    forall i | 0 <= i < |run[n..]|
      ensures InLine(byLat, from, run[n..][i])
    {
      assert run[n..][i] == stops[a + n + i];
    }
    RankedInLine(byLat, from, run[n..], day[a..b][n..], rank);
    GreedyIsSwept(byLat, from, day[a..b][n..], rank);
  }

  /** Three movable stops: the nearer one comes first although the other one is nearer in latitude. */
  lemma LongitudeCounts(s: Stop, b: Stop, c: Stop)
    requires !s.locked && !b.locked && !c.locked
    requires GetStopCoordinate(s) == Some(Point(0.0, 0.0)) && GetStopCoordinate(b) == Some(Point(1.0, 0.0))
    requires GetStopCoordinate(c) == Some(Point(0.5, 5.0))
    ensures OptimizedDay([s, b, c]) == OptimizedDay([s, c, b]) == [s, b, c]
  {
    assert Distance(s, b) == Some(1.0) && Distance(s, c) == Some(25.25);
    FirstOfThree(s, b, c);
  }

  lemma FirstOfThree(s: Stop, b: Stop, c: Stop)
    requires CanOptimize(s) && CanOptimize(b) && CanOptimize(c) && Less(Distance(s, b), Distance(s, c))
    ensures OptimizedDay([s, b, c]) == OptimizedDay([s, c, b]) == [s, b, c]
  {
    TourOfTwo(s, b, c);
    ThreeStops(s, b, c);
    TourTurnsTwo(s, c, b);
    ThreeStops(s, c, b);
  }

  lemma ThreeStops(s: Stop, b: Stop, c: Stop)
    requires CanOptimize(s) && CanOptimize(b) && CanOptimize(c)
    ensures OptimizedDay([s, b, c]) == [s] + Tour(s, [b, c])
  {
    WholeDay([s, b, c]);
    assert [s, b, c][1..] == [b, c];
  }

  lemma TourTurnsTwo(cursor: Stop, s: Stop, t: Stop)
    requires Less(Distance(cursor, t), Distance(cursor, s))
    ensures Tour(cursor, [s, t]) == [t, s]
  {
    assert [s, t][..1] == [s];
    assert Nearest(cursor, [s, t]) == 1;
    TourFirst(cursor, [s, t], 1);
    assert RemoveAt([s, t], 1) == [s] && RemoveAt([s], 0) == [];
    assert Tour(t, [s]) == [s];
    assert Tour(cursor, [s, t]) == [Tour(cursor, [s, t])[0]] + Tour(cursor, [s, t])[1..];
  }

  /** A day of movable stops only keeps its first stop and tours the rest. */
  lemma WholeDay(stops: seq<Stop>)
    requires |stops| >= 2 && forall i | 0 <= i < |stops| :: CanOptimize(stops[i])
    ensures OptimizedDay(stops) == [stops[0]] + Tour(stops[0], stops[1..])
  {
    assert IsRun(stops, 0, |stops|);
    RunOfOptimized(stops, 0, |stops|);
    assert stops[0..|stops|] == stops;
    TakeAll(OptimizedDay(stops));
    assert OptimizedDay(stops)[0..|stops|] == OptimizedDay(stops)[..|stops|];
  }
}
