/** Optimizing a day that was optimized before: when this changes it again. */
module OptimizingTwice {
  import opened Text
  import opened Journey
  import opened RouteOptimizer
  import opened OptimizerResults

  /** No stop between them is as near to the first stop of the run as the last one. */
  predicate LastIsNearest(run: seq<Stop>) {
    |run| >= 2 && Nearest(run[0], run[1..]) == |run| - 2
  }

  /** So it is in every run of two or more that starts behind a stop without a coordinate. */
  predicate Settled(stops: seq<Stop>) {
    forall a | 0 <= a < |stops| && Unanchored(stops, a) :: LastIsNearest(stops[a..RunEnd(stops, a)])
  }

  // ---------- One run ----------

  lemma ProductIsPositive(x: real, y: real, product: real)
    requires x > 0.0 && y > 0.0 && product == x * y
    ensures product > 0.0
  {}

  lemma SquareOfPositive(x: real)
    requires x > 0.0
    ensures Square(x) > 0.0
  {
    ProductIsPositive(x, x, Square(x));
  }

  lemma SquareOfNegative(x: real)
    ensures Square(x) == Square(-x)
  {}

  lemma SquareIsPositive(x: real)
    requires x != 0.0
    ensures Square(x) > 0.0
  {
    SquareOfNegative(x);
    SquareOfPositive(if x > 0.0 then x else -x);
  }

  lemma SquareSign(x: real)
    ensures Square(x) >= 0.0 && (Square(x) == 0.0 <==> x == 0.0)
  {
    if x != 0.0 {
      SquareIsPositive(x);
    }
  }

  /** A stop that is nearer to some place than another stop does not stand where that one stands. */
  lemma NearerIsApart(from: Stop, near: Stop, far: Stop)
    requires HasCoordinate(from) && HasCoordinate(near) && HasCoordinate(far)
    requires Less(Distance(from, near), Distance(from, far))
    ensures Less(Distance(near, near), Distance(near, far))
  {
    var p, q := GetStopCoordinate(near).value, GetStopCoordinate(far).value;
    assert p != q;
    SquareSign(p.lat - q.lat);
    SquareSign(p.lng - q.lng);
    SquareSign(0.0);
    assert Distance(near, near) == Some(Square(0.0) + Square(0.0));
  }

  /** What a second tour starts with. */
  lemma WrittenTwice(run: seq<Stop>, anchor: Option<Stop>)
    requires |run| >= 2 && !AnchorServes(anchor)
    ensures var tour, last := Tour(run[0], run[1..]), run[|run| - 1];
      Written(Written(run, anchor), anchor) == Tour(tour[0], tour[1..] + [last]) + [last]
  {
    WrittenUnanchored(run, anchor);
    WrittenAppended(Tour(run[0], run[1..]), run[|run| - 1], anchor);
  }

  lemma WrittenAppended(tour: seq<Stop>, last: Stop, anchor: Option<Stop>)
    requires tour != [] && !AnchorServes(anchor)
    ensures Written(tour + [last], anchor) == Tour(tour[0], tour[1..] + [last]) + [last]
  {
    WrittenUnanchored(tour + [last], anchor);
    assert (tour + [last])[1..] == tour[1..] + [last];
  }

  lemma TourFirst(cursor: Stop, remaining: seq<Stop>, k: nat)
    requires remaining != [] && k == Nearest(cursor, remaining)
    ensures Tour(cursor, remaining)[0] == remaining[k]
    ensures Tour(cursor, remaining)[1..] == Tour(remaining[k], RemoveAt(remaining, k))
  {}

  /** A tour that comes to the last stop at once goes through the others, and would do so again. */
  lemma LastComesFirst(last: Stop, others: seq<Stop>)
    requires forall j | 0 <= j < |others| :: Less(Distance(last, last), Distance(last, others[j]))
    ensures Tour(last, others + [last]) == [last] + Tour(last, others)
  {
    var all := others + [last];
    assert IsFirstNearest(last, all, |others|);
    NearestIsFirst(last, all);
    FirstNearestIsUnique(last, all, |others|, Nearest(last, all));
    TourFirst(last, all, |others|);
    assert RemoveAt(all, |others|) == others;
    assert Tour(last, all) == [Tour(last, all)[0]] + Tour(last, all)[1..];
  }

  lemma SettledRunStays(run: seq<Stop>, anchor: Option<Stop>)
    requires !AnchorServes(anchor) && LastIsNearest(run) && forall i | 0 <= i < |run| :: HasCoordinate(run[i])
    ensures Written(Written(run, anchor), anchor) == Written(run, anchor)
  {
    var rest, last := run[1..], run[|run| - 1];
    var k := |run| - 2;
    var between := RemoveAt(rest, k);
    var tour := Tour(run[0], rest);
    TourFirst(run[0], rest, k);
    NearestIsFirst(run[0], rest);
    var others := Tour(last, between);
    TourPermutes(last, between);
    forall j | 0 <= j < |others|
      ensures Less(Distance(last, last), Distance(last, others[j]))
    {
      var i := PlaceInPermutation(others, between, j);
      assert between[i] == rest[i];
      NearerIsApart(run[0], last, rest[i]);
    }
    LastComesFirst(last, others);
    TourIdempotent(last, between);
    WrittenUnanchored(run, anchor);
    WrittenTwice(run, anchor);
    assert tour == [last] + others;
  }

  lemma OtherFirst(rest: seq<Stop>, k: nat)
    requires Distinct(rest) && k < |rest| - 1
    ensures rest[k] !in RemoveAt(rest, k) + [rest[|rest| - 1]]
  {}

  /** If another stop comes first, a second tour does not have it any more. */
  lemma OtherRunMoves(run: seq<Stop>, anchor: Option<Stop>)
    requires |run| >= 2 && !AnchorServes(anchor) && !LastIsNearest(run) && Distinct(run)
    ensures Written(Written(run, anchor), anchor) != Written(run, anchor)
  {
    WrittenUnanchored(run, anchor);
    WrittenTwice(run, anchor);
    SecondTourDiffers(run[0], run[1..]);
    var tour, last := Tour(run[0], run[1..]), run[|run| - 1];
    HeadsDiffer(Tour(tour[0], tour[1..] + [last]), tour, last);
  }

  lemma HeadsDiffer<T>(s: seq<T>, t: seq<T>, x: T)
    requires s != [] && t != [] && s[0] != t[0]
    ensures s + [x] != t + [x]
  {
    assert (s + [x])[0] == s[0] && (t + [x])[0] == t[0];
  }

  lemma SecondTourDiffers(first: Stop, rest: seq<Stop>)
    requires rest != [] && Distinct(rest) && Nearest(first, rest) < |rest| - 1
    ensures var tour := Tour(first, rest); Tour(tour[0], tour[1..] + [rest[|rest| - 1]])[0] != tour[0]
  {
    var k := Nearest(first, rest);
    var tour, more := Tour(first, rest), Tour(first, rest)[1..] + [rest[|rest| - 1]];
    TourFirst(first, rest, k);
    TourPermutes(rest[k], RemoveAt(rest, k));
    TourPermutes(tour[0], more);
    OtherFirst(rest, k);
    NotInPermutation(tour[1..], RemoveAt(rest, k), rest[k]);
    NotInPermutation(Tour(tour[0], more), more, rest[k]);
    assert Tour(tour[0], more)[0] in Tour(tour[0], more);
  }

  lemma NotInPermutation<T>(s: seq<T>, t: seq<T>, x: T)
    requires multiset(s) == multiset(t) && x !in t
    ensures x !in s
  {
    assert x !in multiset(t);
    assert x !in multiset(s);
  }

  // ---------- A whole day ----------

  /** A run of the optimized day, and what optimizing again makes of it. */
  lemma RunAgain(stops: seq<Stop>, a: nat, b: nat)
    requires IsRun(stops, a, b)
    ensures var day, anchor := OptimizedDay(stops), AnchorOf(stops, a);
      && day[a..b] == Written(stops[a..b], anchor)
      && OptimizedDay(day)[a..b] == Written(Written(stops[a..b], anchor), anchor)
  {
    var day := OptimizedDay(stops);
    forall i | 0 <= i < |stops|
      ensures CanOptimize(day[i]) == CanOptimize(stops[i])
    {
      SameKind(stops, i);
    }
    RunStaysARun(stops, day, a, b);
    RunOfOptimized(stops, a, b);
    RunOfOptimized(day, a, b);
  }

  lemma RunSettles(stops: seq<Stop>, a: nat, b: nat)
    requires IsRun(stops, a, b) && Settled(stops)
    ensures Written(Written(stops[a..b], AnchorOf(stops, a)), AnchorOf(stops, a)) == Written(stops[a..b], AnchorOf(stops, a))
  {
    var run, anchor := stops[a..b], AnchorOf(stops, a);
    if |run| < 2 || AnchorServes(anchor) {
      WrittenIdempotent(run, anchor);
    } else {
      assert Unanchored(stops, a);
      RunIsUnique(stops, a, b, a);
      AllOptimizable(stops, a, b);
      SettledRunStays(run, anchor);
    }
  }

  lemma SettledStays(stops: seq<Stop>)
    requires Settled(stops)
    ensures OptimizedDay(OptimizedDay(stops)) == OptimizedDay(stops)
  {
    var day := OptimizedDay(stops);
    forall i | 0 <= i < |stops|
      ensures OptimizedDay(day)[i] == day[i]
    {
      PlaceStays(stops, i);
    }
    SameSeq(OptimizedDay(day), day);
  }

  lemma PlaceStays(stops: seq<Stop>, i: nat)
    requires Settled(stops) && i < |stops|
    ensures OptimizedDay(OptimizedDay(stops))[i] == OptimizedDay(stops)[i]
  {
    SameKind(stops, i);
    if CanOptimize(stops[i]) {
      var a, b := RunStart(stops, i), RunEnd(stops, i);
      RunAgain(stops, a, b);
      RunSettles(stops, a, b);
      SliceAt(OptimizedDay(stops), a, b, i);
      SliceAt(OptimizedDay(OptimizedDay(stops)), a, b, i);
    }
  }

  /** So an anchored day is changed once at most. */
  lemma OptimizedDayIdempotent(stops: seq<Stop>)
    requires Anchored(stops)
    ensures OptimizedDay(OptimizedDay(stops)) == OptimizedDay(stops)
  {
    SettledStays(stops);
  }

  lemma DistinctSlice(stops: seq<Stop>, a: nat, b: nat)
    requires Distinct(stops) && a <= b <= |stops|
    ensures Distinct(stops[a..b])
  {}

  lemma UnsettledMoves(stops: seq<Stop>, a: nat)
    requires Distinct(stops) && a < |stops| && Unanchored(stops, a) && !LastIsNearest(stops[a..RunEnd(stops, a)])
    ensures OptimizedDay(OptimizedDay(stops)) != OptimizedDay(stops)
  {
    var b := RunEnd(stops, a);
    RunGoesOn(stops, a, b);
    DistinctSlice(stops, a, b);
    RunAgain(stops, a, b);
    OtherRunMoves(stops[a..b], AnchorOf(stops, a));
  }

  /**
    Exactly when optimizing a day of different stops a second time changes nothing: in every run that
    starts behind a stop without a coordinate, the last stop is the first nearest to the first one.
   */
  lemma OptimizedTwiceIff(stops: seq<Stop>)
    requires Distinct(stops)
    ensures OptimizedDay(OptimizedDay(stops)) == OptimizedDay(stops) <==> Settled(stops)
  {
    if Settled(stops) {
      SettledStays(stops);
    } else {
      var a: nat :| a < |stops| && Unanchored(stops, a) && !LastIsNearest(stops[a..RunEnd(stops, a)]);
      UnsettledMoves(stops, a);
    }
  }

  lemma RunBehind(x: Stop, run: seq<Stop>)
    requires !HasCoordinate(x) && |run| >= 2 && forall i | 0 <= i < |run| :: CanOptimize(run[i])
    ensures OptimizedDay([x] + run) == [x] + (Tour(run[0], run[1..]) + [run[|run| - 1]])
  {
    var stops := [x] + run;
    var day := OptimizedDay(stops);
    assert stops[1..|stops|] == run;
    assert IsRun(stops, 1, |stops|);
    RunOfOptimized(stops, 1, |stops|);
    WrittenUnanchored(run, Some(x));
    HeadAndRest(day, x, Tour(run[0], run[1..]) + [run[|run| - 1]]);
  }

  lemma HeadAndRest<T>(s: seq<T>, x: T, rest: seq<T>)
    requires |s| == 1 + |rest| && s[0] == x && s[1..|s|] == rest
    ensures s == [x] + rest
  {}

  lemma TourOfTwo(cursor: Stop, s: Stop, t: Stop)
    requires !Less(Distance(cursor, t), Distance(cursor, s))
    ensures Tour(cursor, [s, t]) == [s, t]
  {
    assert [s, t][..1] == [s];
    assert Nearest(cursor, [s, t]) == 0;
    assert RemoveAt([s, t], 0) == [t] && RemoveAt([t], 0) == [];
    assert Tour(s, [t]) == [t];
  }

  /** Three stops in a line behind a stop without a coordinate lose one stop more with every click. */
  lemma LostAgainExample(x: Stop, a: Stop, b: Stop, c: Stop)
    requires !HasCoordinate(x) && !a.locked && !b.locked && !c.locked
    requires GetStopCoordinate(a) == Some(Point(0.0, 0.0))
    requires GetStopCoordinate(b) == Some(Point(1.0, 0.0))
    requires GetStopCoordinate(c) == Some(Point(2.0, 0.0))
    ensures OptimizedDay([x, a, b, c]) == [x, b, c, c] && OptimizedDay([x, b, c, c]) == [x, c, c, c]
  {
    assert Distance(a, b) == Some(1.0) && Distance(a, c) == Some(4.0);
    LostBehind(x, a, b, c);
    LostBehind(x, b, c, c);
  }

  lemma LostBehind(x: Stop, a: Stop, b: Stop, c: Stop)
    requires !HasCoordinate(x) && CanOptimize(a) && CanOptimize(b) && CanOptimize(c)
    requires !Less(Distance(a, c), Distance(a, b))
    ensures OptimizedDay([x, a, b, c]) == [x, b, c, c]
  {
    RunBehind(x, [a, b, c]);
    assert [x] + [a, b, c] == [x, a, b, c];
    assert [a, b, c][1..] == [b, c];
    TourOfTwo(a, b, c);
  }
}
