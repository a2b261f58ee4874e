/** What the re-ordering of a day keeps, how good it is, and when it loses a stop. */
module OptimizerResults {
  import opened Text
  import opened Journey
  import opened RouteOptimizer

  // ---------- A tour visits every stop once, always going to the first nearest ----------

  lemma RemovedElement<T>(s: seq<T>, k: nat)
    requires k < |s|
    ensures multiset(RemoveAt(s, k)) + multiset{s[k]} == multiset(s)
  {
    assert s == s[..k] + [s[k]] + s[k + 1..];
  }

  lemma {:induction false} TourPermutes(cursor: Stop, remaining: seq<Stop>)
    ensures multiset(Tour(cursor, remaining)) == multiset(remaining)
    decreases |remaining|
  {
    if remaining != [] {
      var k := Nearest(cursor, remaining);
      TourPermutes(remaining[k], RemoveAt(remaining, k));
      RemovedElement(remaining, k);
    }
  }

  /** Where a tour goes from: the stop before, or the cursor. */
  function Before(cursor: Stop, tour: seq<Stop>, i: nat): (stop: Stop)
    requires i <= |tour|
  {
    if i == 0 then cursor else tour[i - 1]
  }

  /** `rank[i]` is the old place of `tour[i]`. */
  ghost predicate IsRanking(before: seq<Stop>, tour: seq<Stop>, rank: seq<nat>) {
    && |rank| == |tour| == |before|
    && (forall i | 0 <= i < |rank| :: rank[i] < |before| && tour[i] == before[rank[i]])
    && (forall i, j | 0 <= i < j < |rank| :: rank[i] != rank[j])
  }

  /** At place `i` no later stop would have been nearer, nor as near and earlier in the old order. */
  ghost predicate GreedyChoice(cursor: Stop, tour: seq<Stop>, rank: seq<nat>, i: nat, j: nat)
    requires i < j < |tour| == |rank|
  {
    var from := Before(cursor, tour, i);
    && !Less(Distance(from, tour[j]), Distance(from, tour[i]))
    && (Less(Distance(from, tour[i]), Distance(from, tour[j])) || rank[i] < rank[j])
  }

  ghost predicate IsGreedy(cursor: Stop, tour: seq<Stop>, rank: seq<nat>)
    requires |tour| == |rank|
  {
    forall i, j | 0 <= i < j < |tour| :: GreedyChoice(cursor, tour, rank, i, j)
  }

  function Shifted(rank: seq<nat>, k: nat): (r: seq<nat>) {
    seq(|rank|, i requires 0 <= i < |rank| => if rank[i] < k then rank[i] else rank[i] + 1)
  }

  lemma {:induction false} TourIsGreedy(cursor: Stop, remaining: seq<Stop>) returns (rank: seq<nat>)
    ensures IsRanking(remaining, Tour(cursor, remaining), rank)
    ensures IsGreedy(cursor, Tour(cursor, remaining), rank)
    decreases |remaining|
  {
    if remaining == [] {
      return [];
    }
    var k := Nearest(cursor, remaining);
    NearestIsFirst(cursor, remaining);
    var later := TourIsGreedy(remaining[k], RemoveAt(remaining, k));
    var rest := Tour(remaining[k], RemoveAt(remaining, k));
    rank := [k] + Shifted(later, k);
    GreedyStep(cursor, remaining, k, rest, later);
  }

  lemma RankingStep(remaining: seq<Stop>, k: nat, rest: seq<Stop>, later: seq<nat>)
    requires k < |remaining| && IsRanking(RemoveAt(remaining, k), rest, later)
    ensures IsRanking(remaining, [remaining[k]] + rest, [k] + Shifted(later, k))
  {}

  lemma GreedyStep(cursor: Stop, remaining: seq<Stop>, k: nat, rest: seq<Stop>, later: seq<nat>)
    requires IsFirstNearest(cursor, remaining, k)
    requires IsRanking(RemoveAt(remaining, k), rest, later)
    requires IsGreedy(remaining[k], rest, later)
    ensures var tour, rank := [remaining[k]] + rest, [k] + Shifted(later, k);
      IsRanking(remaining, tour, rank) && IsGreedy(cursor, tour, rank)
  {
    var tour, rank := [remaining[k]] + rest, [k] + Shifted(later, k);
    RankingStep(remaining, k, rest, later);
    forall i, j | 0 <= i < j < |tour|
      ensures GreedyChoice(cursor, tour, rank, i, j)
    {
      if i > 0 {
        assert GreedyChoice(remaining[k], rest, later, i - 1, j - 1);
      } else {
        assert tour[j] == remaining[rank[j]];
      }
    }
  }

  /** A tour is left as it is. */
  lemma {:induction false} TourIdempotent(cursor: Stop, remaining: seq<Stop>)
    ensures var tour := Tour(cursor, remaining); Tour(cursor, tour) == tour
    decreases |remaining|
  {
    if remaining != [] {
      var k := Nearest(cursor, remaining);
      var tour := Tour(cursor, remaining);
      var next, rest := remaining[k], Tour(remaining[k], RemoveAt(remaining, k));
      TourIdempotent(next, RemoveAt(remaining, k));
      HeadIsNearest(cursor, remaining);
      NearestIsFirst(cursor, tour);
      FirstNearestIsUnique(cursor, tour, 0, Nearest(cursor, tour));
      assert RemoveAt(tour, 0) == rest;
    }
  }

  lemma HeadIsNearest(cursor: Stop, remaining: seq<Stop>)
    requires remaining != []
    ensures IsFirstNearest(cursor, Tour(cursor, remaining), 0)
  {
    var tour := Tour(cursor, remaining);
    var rank := TourIsGreedy(cursor, remaining);
    forall j | 0 <= j < |tour|
      ensures !Less(Distance(cursor, tour[j]), Distance(cursor, tour[0]))
    {
      if j > 0 {
        assert GreedyChoice(cursor, tour, rank, 0, j);
      }
    }
  }

  // ---------- When a day keeps all its stops ----------

  /** A run of two or more stops starts at `a`, behind a stop without a coordinate. */
  predicate Unanchored(stops: seq<Stop>, a: nat) {
    && 0 < a && a + 1 < |stops|
    && !CanOptimize(stops[a - 1]) && CanOptimize(stops[a]) && CanOptimize(stops[a + 1])
    && !HasCoordinate(stops[a - 1])
  }

  predicate Anchored(stops: seq<Stop>) {
    forall a | 0 <= a < |stops| :: !Unanchored(stops, a)
  }

  lemma WrittenPermutes(run: seq<Stop>, anchor: Option<Stop>)
    requires |run| < 2 || AnchorServes(anchor)
    ensures multiset(Written(run, anchor)) == multiset(run)
  {
    var ordered := SortedRun(run, anchor);
    assert Written(run, anchor) == ordered;
    if |run| >= 2 {
      if anchor.None? {
        TourPermutes(run[0], run[1..]);
        assert run == [run[0]] + run[1..];
      } else {
        TourPermutes(anchor.value, run);
      }
    }
  }

  /** Behind a stop without a coordinate, the first stop gives way to a second copy of the last. */
  lemma WrittenUnanchored(run: seq<Stop>, anchor: Option<Stop>)
    requires |run| >= 2 && !AnchorServes(anchor)
    ensures Written(run, anchor) == Tour(run[0], run[1..]) + [run[|run| - 1]]
  {}

  lemma RunIsAnchored(stops: seq<Stop>, a: nat, b: nat)
    requires IsRun(stops, a, b) && Anchored(stops)
    ensures b - a < 2 || AnchorServes(AnchorOf(stops, a))
  {
    if b - a >= 2 {
      assert !Unanchored(stops, a);
    }
  }

  /** No stop leaves its run, so none crosses a stop that stays where it is. */
  lemma RunPermutes(stops: seq<Stop>, a: nat, b: nat)
    requires IsRun(stops, a, b) && Anchored(stops)
    ensures multiset(OptimizedDay(stops)[a..b]) == multiset(stops[a..b])
  {
    RunOfOptimized(stops, a, b);
    RunIsAnchored(stops, a, b);
    WrittenPermutes(stops[a..b], AnchorOf(stops, a));
  }

  lemma TakeStretch<T>(s: seq<T>, a: nat, b: nat)
    requires a <= b <= |s|
    ensures multiset(s[..b]) == multiset(s[..a]) + multiset(s[a..b])
  {
    TakeThrough(s, a, b);
  }

  lemma {:induction false} PrefixPermutes(stops: seq<Stop>, n: nat)
    requires Anchored(stops) && n <= |stops|
    requires n == 0 || n == |stops| || !CanOptimize(stops[n - 1]) || !CanOptimize(stops[n])
    ensures multiset(OptimizedDay(stops)[..n]) == multiset(stops[..n])
  {
    if n > 0 {
      var a := if CanOptimize(stops[n - 1]) then RunStart(stops, n - 1) else n - 1;
      StretchPermutes(stops, a, n);
      PrefixPermutes(stops, a);
      TakeStretch(OptimizedDay(stops), a, n);
      TakeStretch(stops, a, n);
    }
  }

  lemma StretchPermutes(stops: seq<Stop>, a: nat, b: nat)
    requires Anchored(stops) && a < b <= |stops|
    requires IsRun(stops, a, b) || (b == a + 1 && !CanOptimize(stops[a]))
    ensures multiset(OptimizedDay(stops)[a..b]) == multiset(stops[a..b])
  {
    if IsRun(stops, a, b) {
      RunPermutes(stops, a, b);
    } else {
      assert OptimizedDay(stops)[a..b] == [OptimizedAt(stops, a)];
      assert stops[a..b] == [stops[a]];
    }
  }

  /** An anchored day comes back re-ordered: nothing lost, nothing doubled. */
  lemma OptimizedDayPermutes(stops: seq<Stop>)
    requires Anchored(stops)
    ensures multiset(OptimizedDay(stops)) == multiset(stops)
  {
    PrefixPermutes(stops, |stops|);
    TakeAll(stops);
    TakeAll(OptimizedDay(stops));
  }

  /** A stop that is locked or has no coordinate keeps its place, and on an anchored day no stop crosses it. */
  lemma FixedStopStays(stops: seq<Stop>, i: nat)
    requires i < |stops| && (stops[i].locked || !HasCoordinate(stops[i]))
    ensures OptimizedDay(stops)[i] == stops[i]
    ensures Anchored(stops) ==> multiset(OptimizedDay(stops)[..i]) == multiset(stops[..i])
  {
    if Anchored(stops) {
      PrefixPermutes(stops, i);
    }
  }

  predicate Distinct<T(==)>(s: seq<T>) {
    forall i, j | 0 <= i < j < |s| :: s[i] != s[j]
  }

  lemma PlaceInPermutation<T>(s: seq<T>, t: seq<T>, i: nat) returns (j: nat)
    requires multiset(s) == multiset(t) && i < |s|
    ensures j < |t| && t[j] == s[i]
  {
    assert s[i] in multiset(s);
    assert s[i] in multiset(t);
    j :| 0 <= j < |t| && t[j] == s[i];
  }

  lemma WrittenStaysInRun(run: seq<Stop>, anchor: Option<Stop>, i: nat) returns (j: nat)
    requires i < |run|
    ensures j < |run| && Written(run, anchor)[i] == run[j]
    ensures |run| >= 2 && !AnchorServes(anchor) ==> j > 0
  {
    if |run| < 2 {
      j := i;
    } else if AnchorServes(anchor) {
      WrittenPermutes(run, anchor);
      j := PlaceInPermutation(Written(run, anchor), run, i);
    } else if i == |run| - 1 {
      j := i;
    } else {
      TourPermutes(run[0], run[1..]);
      var k := PlaceInPermutation(Tour(run[0], run[1..]), run[1..], i);
      j := k + 1;
    }
  }

  /** Every place of a run takes a stop of the run, but not the first one if the run is unanchored. */
  lemma RunPlace(stops: seq<Stop>, a: nat, b: nat, i: nat) returns (j: nat)
    requires IsRun(stops, a, b) && a <= i < b
    ensures a <= j < b && OptimizedAt(stops, i) == stops[j]
    ensures b - a >= 2 && !AnchorServes(AnchorOf(stops, a)) ==> j > a
  {
    var run, anchor := stops[a..b], AnchorOf(stops, a);
    var k := WrittenStaysInRun(run, anchor, i - a);
    j := a + k;
    SliceAt(stops, a, b, j);
    RunOfOptimized(stops, a, b);
    SliceAt(OptimizedDay(stops), a, b, i);
  }

  /** Every stop of the new day is one of the old day. */
  lemma IsOldStop(stops: seq<Stop>, i: nat) returns (j: nat)
    requires i < |stops|
    ensures j < |stops| && OptimizedDay(stops)[i] == stops[j]
  {
    j := i;
    if CanOptimize(stops[i]) {
      j := RunPlace(stops, RunStart(stops, i), RunEnd(stops, i), i);
    }
  }

  /** No place of the new day takes the stop at `a`. */
  lemma TakesAnother(stops: seq<Stop>, a: nat, i: nat) returns (j: nat)
    requires Unanchored(stops, a) && i < |stops|
    ensures j < |stops| && j != a && OptimizedAt(stops, i) == stops[j]
  {
    j := i;
    if CanOptimize(stops[i]) {
      var s, e := RunStart(stops, i), RunEnd(stops, i);
      j := RunPlace(stops, s, e, i);
      if j == a {
        RunStartIs(stops, a, s);
        RunGoesOn(stops, a, e);
      }
    }
  }

  /** Behind an anchor without a coordinate, the first stop of the run disappears from the day. */
  lemma FirstStopIsLost(stops: seq<Stop>, a: nat)
    requires Distinct(stops) && Unanchored(stops, a)
    ensures stops[a] !in OptimizedDay(stops)
  {
    forall i | 0 <= i < |stops|
      ensures OptimizedAt(stops, i) != stops[a]
    {
      var j := TakesAnother(stops, a, i);
    }
  }

  function Members<T>(s: seq<T>): (m: set<T>) {
    set x | x in s
  }

  lemma {:induction false} MembersOfDistinct<T>(s: seq<T>)
    requires Distinct(s)
    ensures |Members(s)| == |s|
  {
    if s != [] {
      var last := |s| - 1;
      MembersOfDistinct(s[..last]);
      assert Members(s) == Members(s[..last]) + {s[last]};
    }
  }

  /** ... and another stop takes its place, so that it stands on the day twice. */
  lemma StopIsDoubled(stops: seq<Stop>, a: nat)
    requires Distinct(stops) && Unanchored(stops, a)
    ensures !Distinct(OptimizedDay(stops))
  {
    var day := OptimizedDay(stops);
    FirstStopIsLost(stops, a);
    forall stop | stop in Members(day)
      ensures stop in Members(stops) - {stops[a]}
    {
      var i :| 0 <= i < |day| && day[i] == stop;
      var j := TakesAnother(stops, a, i);
    }
    MembersOfDistinct(stops);
    assert stops[a] in Members(stops);
    FewerMembers(Members(day), Members(stops) - {stops[a]});
    if Distinct(day) {
      MembersOfDistinct(day);
    }
  }

  lemma FewerMembers<T>(x: set<T>, y: set<T>)
    requires x <= y
    ensures |x| <= |y|
  {
    assert y == x + (y - x);
  }

  lemma RunGoesOn(stops: seq<Stop>, a: nat, e: nat)
    requires a + 1 < |stops| && CanOptimize(stops[a + 1])
    requires a < e <= |stops| && (e == |stops| || !CanOptimize(stops[e]))
    ensures e - a >= 2
  {}

  lemma RunStartIs(stops: seq<Stop>, a: nat, s: nat)
    requires 0 < a < |stops| && !CanOptimize(stops[a - 1])
    requires s <= a && forall j | s <= j <= a :: CanOptimize(stops[j])
    ensures s == a
  {}

  /** A day of different stops comes back complete exactly when it is anchored. */
  lemma OptimizedDayPermutesIff(stops: seq<Stop>)
    requires Distinct(stops)
    ensures multiset(OptimizedDay(stops)) == multiset(stops) <==> Anchored(stops)
  {
    if Anchored(stops) {
      OptimizedDayPermutes(stops);
    } else {
      var a: nat :| Unanchored(stops, a);
      FirstStopIsLost(stops, a);
      assert stops[a] in multiset(stops);
      assert stops[a] !in multiset(OptimizedDay(stops));
    }
  }

  /** The smallest case: of two stops behind a stop without a coordinate, only the last is left. */
  lemma LostStopExample(x: Stop, a: Stop, b: Stop)
    requires !HasCoordinate(x) && HasCoordinate(a) && HasCoordinate(b) && !a.locked && !b.locked
    ensures OptimizedDay([x, a, b]) == [x, b, b]
  {}

  // ---------- Greedy and stable, for every run of a day ----------

  /** How many stops at the front of a run stay: its own first stop, if there is none before it. */
  function Fixed(anchor: Option<Stop>): (n: nat) {
    if anchor.None? then 1 else 0
  }

  lemma WrittenIsGreedy(run: seq<Stop>, anchor: Option<Stop>) returns (rank: seq<nat>)
    requires |run| >= 2 && AnchorServes(anchor)
    ensures anchor.None? ==> Written(run, anchor)[0] == run[0]
    ensures var n, from := Fixed(anchor), if anchor.None? then run[0] else anchor.value;
      && IsRanking(run[n..], Written(run, anchor)[n..], rank)
      && IsGreedy(from, Written(run, anchor)[n..], rank)
  {
    var ordered := SortedRun(run, anchor);
    assert Written(run, anchor) == ordered;
    if anchor.None? {
      rank := TourIsGreedy(run[0], run[1..]);
      assert ordered[1..] == Tour(run[0], run[1..]);
    } else {
      rank := TourIsGreedy(anchor.value, run);
      assert run[0..] == run && ordered[0..] == ordered;
    }
  }

  /**
    Every run of an anchored day is a greedy tour: from the stop in front of it, or from its own
    first stop at the start of the day, with ties going to the stop that came first.
   */
  lemma RunIsGreedy(stops: seq<Stop>, a: nat, b: nat) returns (rank: seq<nat>)
    requires IsRun(stops, a, b) && b - a >= 2 && Anchored(stops)
    ensures var run, day, n := stops[a..b], OptimizedDay(stops)[a..b], Fixed(AnchorOf(stops, a));
      && (a == 0 ==> day[0] == run[0])
      && IsRanking(run[n..], day[n..], rank)
      && IsGreedy(if a == 0 then stops[0] else stops[a - 1], day[n..], rank)
  {
    RunOfOptimized(stops, a, b);
    RunIsAnchored(stops, a, b);
    rank := WrittenIsGreedy(stops[a..b], AnchorOf(stops, a));
  }

  // ---------- Optimizing twice ----------

  lemma WrittenIdempotent(run: seq<Stop>, anchor: Option<Stop>)
    requires |run| < 2 || AnchorServes(anchor)
    ensures Written(Written(run, anchor), anchor) == Written(run, anchor)
  {
    var ordered := SortedRun(run, anchor);
    assert Written(run, anchor) == ordered;
    if |run| >= 2 {
      if anchor.None? {
        TourIdempotent(run[0], run[1..]);
        assert ordered[1..] == Tour(run[0], run[1..]);
      } else {
        TourIdempotent(anchor.value, run);
      }
    }
    assert SortedRun(ordered, anchor) == ordered;
  }

  lemma SameKind(stops: seq<Stop>, i: nat)
    requires i < |stops|
    ensures CanOptimize(OptimizedDay(stops)[i]) == CanOptimize(stops[i])
  {
    if CanOptimize(stops[i]) {
      StaysOptimizable(stops, RunStart(stops, i), RunEnd(stops, i), i);
    }
  }

  lemma StaysOptimizable(stops: seq<Stop>, a: nat, b: nat, i: nat)
    requires IsRun(stops, a, b) && a <= i < b
    ensures CanOptimize(OptimizedAt(stops, i))
  {
    var run := stops[a..b];
    AllOptimizable(stops, a, b);
    WrittenIsOptimizable(run, AnchorOf(stops, a), i - a);
    OptimizedAtRun(stops, a, b, i);
  }

  lemma AllOptimizable(stops: seq<Stop>, a: nat, b: nat)
    requires IsRun(stops, a, b)
    ensures forall j | 0 <= j < b - a :: CanOptimize(stops[a..b][j])
  {}

  lemma WrittenIsOptimizable(run: seq<Stop>, anchor: Option<Stop>, i: nat)
    requires i < |run| && forall j | 0 <= j < |run| :: CanOptimize(run[j])
    ensures CanOptimize(Written(run, anchor)[i])
  {
    var j := WrittenStaysInRun(run, anchor, i);
  }

  lemma SliceAt<T>(s: seq<T>, a: nat, b: nat, i: nat)
    requires a <= i < b <= |s|
    ensures s[a..b][i - a] == s[i]
  {}

  lemma RunStaysARun(stops: seq<Stop>, day: seq<Stop>, a: nat, b: nat)
    requires day == OptimizedDay(stops) && IsRun(stops, a, b)
    requires forall j | 0 <= j < |stops| :: CanOptimize(day[j]) == CanOptimize(stops[j])
    ensures IsRun(day, a, b) && AnchorOf(day, a) == AnchorOf(stops, a)
  {
    assert a > 0 ==> day[a - 1] == OptimizedAt(stops, a - 1);
  }
}
