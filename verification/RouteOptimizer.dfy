/**
  Re-ordering a day by nearest next stop (frontend/journey-editor.js): every run of stops that may
  move is re-ordered on its own, starting from the stop in front of it.
 */
module RouteOptimizer {
  import opened Text
  import opened Journey

  function Square(x: real): (y: real) {
    x * x
  }

  /** The squared distance of two stops; `None` is infinity. */
  function Distance(left: Stop, right: Stop): (d: Option<real>) {
    match (GetStopCoordinate(left), GetStopCoordinate(right))
    case (Some(l), Some(r)) => Some(Square(l.lat - r.lat) + Square(l.lng - r.lng))
    case _ => None
  }

  predicate Less(d: Option<real>, e: Option<real>) {
    d.Some? && (e.None? || d.value < e.value)
  }

  predicate CanOptimize(stop: Stop) {
    !stop.locked && HasCoordinate(stop)
  }

  // ---------- The nearest stop, and the tour that always goes there ----------

  /** `stops[k]` is nearest to `cursor`, and the first one that is. */
  predicate IsFirstNearest(cursor: Stop, stops: seq<Stop>, k: nat) {
    && k < |stops|
    && (forall j | 0 <= j < k :: Less(Distance(cursor, stops[k]), Distance(cursor, stops[j])))
    && (forall j | k <= j < |stops| :: !Less(Distance(cursor, stops[j]), Distance(cursor, stops[k])))
  }

  function Nearest(cursor: Stop, stops: seq<Stop>): (k: nat)
    requires stops != []
    ensures k < |stops|
  {
    if |stops| == 1 then 0
    else
      var last := |stops| - 1;
      var k := Nearest(cursor, stops[..last]);
      if Less(Distance(cursor, stops[last]), Distance(cursor, stops[k])) then last else k
  }

  lemma {:induction false} NearestIsFirst(cursor: Stop, stops: seq<Stop>)
    requires stops != []
    ensures IsFirstNearest(cursor, stops, Nearest(cursor, stops))
  {
    if |stops| > 1 {
      var last := |stops| - 1;
      NearestIsFirst(cursor, stops[..last]);
      assert forall j | 0 <= j < last :: stops[..last][j] == stops[j];
    }
  }

  function RemoveAt<T>(s: seq<T>, k: nat): (r: seq<T>)
    requires k < |s|
    ensures |r| == |s| - 1
  {
    s[..k] + s[k + 1..]
  }

  function Tour(cursor: Stop, remaining: seq<Stop>): (tour: seq<Stop>)
    ensures |tour| == |remaining|
    decreases |remaining|
  {
    if remaining == [] then []
    else
      var k := Nearest(cursor, remaining);
      [remaining[k]] + Tour(remaining[k], RemoveAt(remaining, k))
  }

  /**
    The new order of a run.  Behind an anchor without a coordinate the first stop only serves as
    the starting point and is not put into the result.
   */
  function SortedRun(run: seq<Stop>, anchor: Option<Stop>): (ordered: seq<Stop>)
    ensures |ordered| == if |run| < 2 || AnchorServes(anchor) then |run| else |run| - 1
  {
    if |run| < 2 then run
    else if anchor.None? then [run[0]] + Tour(run[0], run[1..])
    else if HasCoordinate(anchor.value) then Tour(anchor.value, run)
    else Tour(run[0], run[1..])
  }

  predicate AnchorServes(anchor: Option<Stop>) {
    anchor.None? || HasCoordinate(anchor.value)
  }

  lemma FirstNearestIsUnique(cursor: Stop, stops: seq<Stop>, j: nat, k: nat)
    requires IsFirstNearest(cursor, stops, j) && IsFirstNearest(cursor, stops, k)
    ensures j == k
  {
    var dj, dk := Distance(cursor, stops[j]), Distance(cursor, stops[k]);
    assert Less(dj, dk) ==> j <= k;
  }

  /** The inner loop: later stops win only if they are strictly nearer. */
  method FindNearest(cursor: Stop, remaining: seq<Stop>) returns (bestIndex: nat)
    requires remaining != []
    ensures bestIndex == Nearest(cursor, remaining)
  {
    bestIndex := 0;
    var bestDistance := Distance(cursor, remaining[0]);
    for index := 1 to |remaining|
      invariant bestIndex < index && bestDistance == Distance(cursor, remaining[bestIndex])
      invariant forall j | 0 <= j < bestIndex :: Less(bestDistance, Distance(cursor, remaining[j]))
      invariant forall j | bestIndex <= j < index :: !Less(Distance(cursor, remaining[j]), bestDistance)
    {
      var distance := Distance(cursor, remaining[index]);
      if Less(distance, bestDistance) {
        bestDistance := distance;
        bestIndex := index;
      }
    }
    NearestIsFirst(cursor, remaining);
    FirstNearestIsUnique(cursor, remaining, bestIndex, Nearest(cursor, remaining));
  }

  method SortOptimizableRun(stops: seq<Stop>, anchor: Option<Stop>) returns (ordered: seq<Stop>)
    ensures ordered == SortedRun(stops, anchor)
  {
    if |stops| < 2 {
      return stops;
    }
    var remaining := stops;
    ordered := [];
    var cursor;
    if anchor.Some? && HasCoordinate(anchor.value) {
      cursor := anchor.value;
    } else {
      cursor := remaining[0];
      remaining := remaining[1..];
    }
    if anchor.None? {
      ordered := [cursor];
    }
    ghost var all := ordered + Tour(cursor, remaining);
    assert all == SortedRun(stops, anchor);
    while remaining != []
      invariant ordered + Tour(cursor, remaining) == all
      decreases |remaining|
    {
      var bestIndex := FindNearest(cursor, remaining);
      var nextStop := remaining[bestIndex];
      remaining := RemoveAt(remaining, bestIndex);
      Assoc(ordered, [nextStop], Tour(nextStop, remaining));
      ordered := ordered + [nextStop];
      cursor := nextStop;
    }
  }

  // ---------- A whole day ----------

  /** `stops[a..b]` is a longest stretch of stops that may move. */
  predicate IsRun(stops: seq<Stop>, a: nat, b: nat) {
    && a < b <= |stops|
    && (forall i | a <= i < b :: CanOptimize(stops[i]))
    && (a == 0 || !CanOptimize(stops[a - 1]))
    && (b == |stops| || !CanOptimize(stops[b]))
  }

  function RunStart(stops: seq<Stop>, i: nat): (a: nat)
    requires i < |stops| && CanOptimize(stops[i])
    ensures a <= i && (forall j | a <= j <= i :: CanOptimize(stops[j]))
    ensures a == 0 || !CanOptimize(stops[a - 1])
  {
    if i == 0 || !CanOptimize(stops[i - 1]) then i else RunStart(stops, i - 1)
  }

  function RunEnd(stops: seq<Stop>, i: nat): (b: nat)
    requires i < |stops| && CanOptimize(stops[i])
    ensures i < b <= |stops| && (forall j | i <= j < b :: CanOptimize(stops[j]))
    ensures b == |stops| || !CanOptimize(stops[b])
    decreases |stops| - i
  {
    if i + 1 == |stops| || !CanOptimize(stops[i + 1]) then i + 1 else RunEnd(stops, i + 1)
  }

  lemma RunIsUnique(stops: seq<Stop>, a: nat, b: nat, i: nat)
    requires IsRun(stops, a, b) && a <= i < b
    ensures RunStart(stops, i) == a && RunEnd(stops, i) == b
  {
  }

  function AnchorOf(stops: seq<Stop>, a: nat): (anchor: Option<Stop>)
    requires a < |stops|
  {
    if a > 0 then Some(stops[a - 1]) else None
  }

  /** What stands at the places of a run after its new order was written over it. */
  function Written(run: seq<Stop>, anchor: Option<Stop>): (r: seq<Stop>)
    ensures |r| == |run|
  {
    var ordered := SortedRun(run, anchor);
    ordered + run[|ordered|..]
  }

  function OptimizedAt(stops: seq<Stop>, i: nat): (stop: Stop)
    requires i < |stops|
  {
    if !CanOptimize(stops[i]) then stops[i]
    else
      var a, b := RunStart(stops, i), RunEnd(stops, i);
      Written(stops[a..b], AnchorOf(stops, a))[i - a]
  }

  function OptimizedDay(stops: seq<Stop>): (next: seq<Stop>)
    ensures |next| == |stops|
    ensures forall i | 0 <= i < |stops| :: next[i] == OptimizedAt(stops, i)
  {
    seq(|stops|, i requires 0 <= i < |stops| => OptimizedAt(stops, i))
  }

  /** What the loop over a day has done when it stands at `index`: all runs before it are written. */
  ghost predicate OptimizedUpTo(stops: seq<Stop>, next: seq<Stop>, index: nat) {
    && index <= |next| == |stops|
    && next[..index] == OptimizedDay(stops)[..index]
    && next[index..] == stops[index..]
    && (index == 0 || index == |stops| || !CanOptimize(stops[index - 1]) || !CanOptimize(stops[index]))
  }

  method FindRunEnd(stops: seq<Stop>, start: nat) returns (index: nat)
    requires start < |stops| && CanOptimize(stops[start])
    ensures start < index <= |stops|
    ensures forall j | start <= j < index :: CanOptimize(stops[j])
    ensures index == |stops| || !CanOptimize(stops[index])
  {
    index := start;
    while index < |stops| && CanOptimize(stops[index])
      invariant start <= index <= |stops|
      invariant forall j | start <= j < index :: CanOptimize(stops[j])
    {
      index := index + 1;
    }
  }

  method Overwrite(stops: seq<Stop>, start: nat, stretch: seq<Stop>) returns (next: seq<Stop>)
    requires start + |stretch| <= |stops|
    ensures next == stops[..start] + stretch + stops[start + |stretch|..]
  {
    next := stops;
    for offset := 0 to |stretch|
      invariant next == stops[..start] + stretch[..offset] + stops[start + offset..]
    {
      next := next[start + offset := stretch[offset]];
    }
  }

  lemma SkipKeeps(stops: seq<Stop>, next: seq<Stop>, index: nat)
    requires OptimizedUpTo(stops, next, index) && index < |stops| && !CanOptimize(stops[index])
    ensures OptimizedUpTo(stops, next, index + 1)
  {}

  /** The places of one run, in the optimized day. */
  lemma RunOfOptimized(stops: seq<Stop>, a: nat, b: nat)
    requires IsRun(stops, a, b)
    ensures OptimizedDay(stops)[a..b] == Written(stops[a..b], AnchorOf(stops, a))
  {
    var day, written := OptimizedDay(stops), Written(stops[a..b], AnchorOf(stops, a));
    forall i | a <= i < b
      ensures day[i] == written[i - a]
    {
      OptimizedAtRun(stops, a, b, i);
    }
    SliceIs(day, a, b, written);
  }

  lemma OptimizedAtRun(stops: seq<Stop>, a: nat, b: nat, i: nat)
    requires IsRun(stops, a, b) && a <= i < b
    ensures OptimizedAt(stops, i) == Written(stops[a..b], AnchorOf(stops, a))[i - a]
  {
    RunIsUnique(stops, a, b, i);
  }

  lemma SliceIs<T>(s: seq<T>, a: nat, b: nat, slice: seq<T>)
    requires a <= b <= |s| && |slice| == b - a
    requires forall i | a <= i < b :: s[i] == slice[i - a]
    ensures s[a..b] == slice
  {}

  lemma RunKeeps(stops: seq<Stop>, next: seq<Stop>, a: nat, b: nat, after: seq<Stop>)
    requires OptimizedUpTo(stops, next, a) && IsRun(stops, a, b)
    requires next[a..b] == stops[a..b] && AnchorOf(next, a) == AnchorOf(stops, a)
    requires var ordered := SortedRun(next[a..b], AnchorOf(next, a));
      after == next[..a] + ordered + next[a + |ordered|..]
    ensures OptimizedUpTo(stops, after, b)
  {
    var ordered := SortedRun(stops[a..b], AnchorOf(stops, a));
    RunOfOptimized(stops, a, b);
    WriteStretch(stops, next, a, b, ordered, after);
    TakeThrough(OptimizedDay(stops), a, b);
  }

  /** A run of one stop is left alone. */
  lemma ShortRunKeeps(stops: seq<Stop>, next: seq<Stop>, a: nat, b: nat)
    requires OptimizedUpTo(stops, next, a) && IsRun(stops, a, b) && b - a < 2
    requires next[a..b] == stops[a..b] && AnchorOf(next, a) == AnchorOf(stops, a)
    ensures OptimizedUpTo(stops, next, b)
  {
    assert next == next[..a] + next[a..b] + next[b..];
    RunKeeps(stops, next, a, b, next);
  }

  lemma TakeThrough<T>(s: seq<T>, a: nat, b: nat)
    requires a <= b <= |s|
    ensures s[..b] == s[..a] + s[a..b]
  {}

  /** Writing over the beginning of a stretch leaves the rest of it, and what follows, alone. */
  lemma WriteStretch<T>(was: seq<T>, next: seq<T>, a: nat, b: nat, stretch: seq<T>, after: seq<T>)
    requires a <= b <= |next| == |was| && next[a..] == was[a..] && |stretch| <= b - a
    requires after == next[..a] + stretch + next[a + |stretch|..]
    ensures |after| == |was|
    ensures after[..b] == next[..a] + (stretch + was[a..b][|stretch|..]) && after[b..] == was[b..]
  {
    assert forall i | a <= i < |next| :: next[i] == next[a..][i - a] == was[a..][i - a] == was[i];
  }

  /** A stop that may move and stands next to another that may. */
  predicate InLongRun(stops: seq<Stop>, i: nat)
    requires i < |stops|
  {
    CanOptimize(stops[i]) && ((i > 0 && CanOptimize(stops[i - 1])) || (i + 1 < |stops| && CanOptimize(stops[i + 1])))
  }

  /** How many of the first `n` stops are in a run of two or more. */
  function Sortable(stops: seq<Stop>, n: nat): (count: nat)
    requires n <= |stops|
  {
    if n == 0 then 0 else Sortable(stops, n - 1) + if InLongRun(stops, n - 1) then 1 else 0
  }

  lemma SortableSkip(stops: seq<Stop>, n: nat)
    requires n < |stops| && !CanOptimize(stops[n])
    ensures Sortable(stops, n + 1) == Sortable(stops, n)
  {}

  lemma {:induction false} SortableInRun(stops: seq<Stop>, a: nat, b: nat, n: nat)
    requires IsRun(stops, a, b) && a <= n <= b
    ensures Sortable(stops, n) == Sortable(stops, a) + if b - a >= 2 then n - a else 0
  {
    if a < n {
      SortableInRun(stops, a, b, n - 1);
      assert InLongRun(stops, n - 1) <==> b - a >= 2;
    }
  }

  /** Sorts one run and writes it over its old order. */
  method ReorderRun(stops: seq<Stop>, start: nat, index: nat) returns (written: seq<Stop>)
    requires start < index <= |stops|
    ensures var ordered := SortedRun(stops[start..index], AnchorOf(stops, start));
      written == stops[..start] + ordered + stops[start + |ordered|..]
  {
    var run := stops[start..index];
    var anchor := if start > 0 then Some(stops[start - 1]) else None;
    var sortedRun := SortOptimizableRun(run, anchor);
    written := Overwrite(stops, start, sortedRun);
  }

  method OptimizeJourneyDayStops(stops: seq<Stop>)
    returns (nextStops: seq<Stop>, changed: bool, optimizedCount: nat)
    ensures nextStops == OptimizedDay(stops)
    ensures changed <==> nextStops != stops
    ensures optimizedCount == Sortable(stops, |stops|)
  {
    nextStops := stops;
    optimizedCount := 0;
    var index := 0;
    while index < |nextStops|
      invariant OptimizedUpTo(stops, nextStops, index)
      invariant optimizedCount == Sortable(stops, index)
      decreases |stops| - index
    {
      NextIsOld(stops, nextStops, index);
      if !CanOptimize(nextStops[index]) {
        SkipKeeps(stops, nextStops, index);
        SortableSkip(stops, index);
        index := index + 1;
        continue;
      }
      var start := index;
      index := FindRunEnd(nextStops, start);
      RunFound(stops, nextStops, start, index);
      SortableInRun(stops, start, index, index);
      if index - start < 2 {
        ShortRunKeeps(stops, nextStops, start, index);
        continue;
      }
      var written := ReorderRun(nextStops, start, index);
      RunKeeps(stops, nextStops, start, index, written);
      nextStops := written;
      optimizedCount := optimizedCount + (index - start);
    }
    DayIsDone(stops, nextStops);
    changed := nextStops != stops;
  }

  lemma NextIsOld(stops: seq<Stop>, next: seq<Stop>, index: nat)
    requires OptimizedUpTo(stops, next, index) && index < |stops|
    ensures next[index] == stops[index]
  {
    assert next[index] == next[index..][0];
  }

  lemma DayIsDone(stops: seq<Stop>, next: seq<Stop>)
    requires OptimizedUpTo(stops, next, |stops|)
    ensures next == OptimizedDay(stops)
  {
    TakeAll(next);
    TakeAll(OptimizedDay(stops));
  }

  lemma TakeAll<T>(s: seq<T>)
    ensures s[..|s|] == s
  {}

  /** The stretch that the inner loop finds is a run of the day as it was, behind an unmoved anchor. */
  lemma RunFound(stops: seq<Stop>, next: seq<Stop>, a: nat, b: nat)
    requires OptimizedUpTo(stops, next, a) && a < b <= |stops|
    requires forall j | a <= j < b :: CanOptimize(next[j])
    requires b == |stops| || !CanOptimize(next[b])
    ensures IsRun(stops, a, b) && next[a..b] == stops[a..b] && AnchorOf(next, a) == AnchorOf(stops, a)
  {
    forall j | a <= j < |stops|
      ensures next[j] == stops[j]
    {
      assert next[j] == next[a..][j - a];
    }
    if a > 0 {
      assert next[a - 1] == next[..a][a - 1] == OptimizedAt(stops, a - 1);
    }
  }
}
