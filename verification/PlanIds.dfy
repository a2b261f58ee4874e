/** When the ids on the plan stay distinct: the optimizer is the only action that can double one. */
module PlanIds {
  import opened Text
  import opened Journey
  import opened RouteOptimizer
  import opened OptimizerResults
  import opened PoiCatalogue
  import opened JourneyDraft
  import opened JourneyEditor
  import opened EditorRuns

  // ---------- What optimizing a day does to its ids ----------

  /** Every run of two or more behind a stop without a coordinate ends with a stop that has no id. */
  predicate DoublesNone(stops: seq<Stop>) {
    forall a | 0 <= a < |stops| && Unanchored(stops, a) :: stops[RunEnd(stops, a) - 1].id == ""
  }

  lemma UnanchoredRunCounts(run: seq<Stop>, anchor: Option<Stop>, id: string)
    requires |run| >= 2 && !AnchorServes(anchor)
    ensures IdCount(Written(run, anchor), id) + One(run[0], id) == IdCount(run, id) + One(run[|run| - 1], id)
  {
    var rest, last := run[1..], run[|run| - 1];
    WrittenUnanchored(run, anchor);
    TourPermutes(run[0], rest);
    PermutationCounts(Tour(run[0], rest), rest, id);
    AppendCounts(Tour(run[0], rest), last, id);
    CountOfOne(run[0], id);
    IdCountAppend([run[0]], rest, id);
    assert run == [run[0]] + rest;
  }

  lemma AnchoredRunCounts(run: seq<Stop>, anchor: Option<Stop>, id: string)
    requires |run| < 2 || AnchorServes(anchor)
    ensures IdCount(Written(run, anchor), id) == IdCount(run, id)
  {
    WrittenPermutes(run, anchor);
    PermutationCounts(Written(run, anchor), run, id);
  }

  lemma WrittenCounts(run: seq<Stop>, anchor: Option<Stop>, id: string)
    requires id != "" && (|run| >= 2 && !AnchorServes(anchor) ==> run[|run| - 1].id == "")
    ensures IdCount(Written(run, anchor), id) <= IdCount(run, id)
  {
    if |run| < 2 || AnchorServes(anchor) {
      AnchoredRunCounts(run, anchor, id);
    } else {
      UnanchoredRunCounts(run, anchor, id);
    }
  }

  lemma LastHasNoId(stops: seq<Stop>, a: nat, b: nat)
    requires IsRun(stops, a, b) && DoublesNone(stops) && b - a >= 2 && !AnchorServes(AnchorOf(stops, a))
    ensures stops[b - 1].id == ""
  {
    assert Unanchored(stops, a);
    RunIsUnique(stops, a, b, a);
  }

  lemma RunCounts(stops: seq<Stop>, a: nat, b: nat, id: string)
    requires IsRun(stops, a, b) && DoublesNone(stops) && id != ""
    ensures IdCount(OptimizedDay(stops)[a..b], id) <= IdCount(stops[a..b], id)
  {
    RunOfOptimized(stops, a, b);
    if b - a >= 2 && !AnchorServes(AnchorOf(stops, a)) {
      LastHasNoId(stops, a, b);
    }
    WrittenCounts(stops[a..b], AnchorOf(stops, a), id);
  }

  lemma StretchCounts(stops: seq<Stop>, a: nat, b: nat, id: string)
    requires a < b <= |stops| && DoublesNone(stops) && id != ""
    requires IsRun(stops, a, b) || (b == a + 1 && !CanOptimize(stops[a]))
    ensures IdCount(OptimizedDay(stops)[a..b], id) <= IdCount(stops[a..b], id)
  {
    if IsRun(stops, a, b) {
      RunCounts(stops, a, b, id);
    } else {
      assert OptimizedDay(stops)[a..b] == [OptimizedAt(stops, a)] == stops[a..b];
    }
  }

  lemma TakeCounts(stops: seq<Stop>, a: nat, b: nat, id: string)
    requires a <= b <= |stops|
    ensures IdCount(stops[..b], id) == IdCount(stops[..a], id) + IdCount(stops[a..b], id)
  {
    TakeThrough(stops, a, b);
    IdCountAppend(stops[..a], stops[a..b], id);
  }

  lemma {:induction false} PrefixCounts(stops: seq<Stop>, n: nat, id: string)
    requires n <= |stops| && DoublesNone(stops) && id != ""
    requires n == 0 || n == |stops| || !CanOptimize(stops[n - 1]) || !CanOptimize(stops[n])
    ensures IdCount(OptimizedDay(stops)[..n], id) <= IdCount(stops[..n], id)
  {
    if n > 0 {
      var a := if CanOptimize(stops[n - 1]) then RunStart(stops, n - 1) else n - 1;
      StretchCounts(stops, a, n, id);
      PrefixCounts(stops, a, id);
      TakeCounts(OptimizedDay(stops), a, n, id);
      TakeCounts(stops, a, n, id);
    }
  }

  lemma DayCounts(stops: seq<Stop>, id: string)
    requires DoublesNone(stops) && id != ""
    ensures IdCount(OptimizedDay(stops), id) <= IdCount(stops, id)
  {
    PrefixCounts(stops, |stops|, id);
    TakeAll(stops);
    TakeAll(OptimizedDay(stops));
  }

  lemma LastIsWrittenTwice(run: seq<Stop>, anchor: Option<Stop>)
    requires |run| >= 2 && !AnchorServes(anchor)
    ensures IdCount(Written(run, anchor), run[|run| - 1].id) >= 2
  {
    var rest, last := run[1..], run[|run| - 1];
    WrittenUnanchored(run, anchor);
    TourPermutes(run[0], rest);
    PermutationCounts(Tour(run[0], rest), rest, last.id);
    AppendCounts(Tour(run[0], rest), last, last.id);
    assert rest[|rest| - 1] == last && last in rest;
    HasIdIff(rest, last.id);
  }

  lemma SliceCounts(stops: seq<Stop>, a: nat, b: nat, id: string)
    requires a <= b <= |stops|
    ensures IdCount(stops[a..b], id) <= IdCount(stops, id)
  {
    TakeCounts(stops, a, b, id);
    TakeCounts(stops, b, |stops|, id);
    TakeAll(stops);
  }

  lemma LastIsTwiceIn(run: seq<Stop>, anchor: Option<Stop>, written: seq<Stop>, id: string)
    requires |run| >= 2 && !AnchorServes(anchor) && written == Written(run, anchor) && run[|run| - 1].id == id
    ensures IdCount(written, id) >= 2
  {
    LastIsWrittenTwice(run, anchor);
  }

  lemma LastOfRunIsDoubled(stops: seq<Stop>, a: nat, b: nat)
    requires IsRun(stops, a, b) && b - a >= 2 && !AnchorServes(AnchorOf(stops, a))
    ensures IdCount(OptimizedDay(stops), stops[b - 1].id) >= 2
  {
    RunOfOptimized(stops, a, b);
    SliceAt(stops, a, b, b - 1);
    LastIsTwiceIn(stops[a..b], AnchorOf(stops, a), OptimizedDay(stops)[a..b], stops[b - 1].id);
    SliceCounts(OptimizedDay(stops), a, b, stops[b - 1].id);
  }

  /** The last stop of an unanchored run comes twice. */
  lemma LastIsDoubled(stops: seq<Stop>, a: nat)
    requires a < |stops| && Unanchored(stops, a)
    ensures IdCount(OptimizedDay(stops), stops[RunEnd(stops, a) - 1].id) >= 2
  {
    RunGoesOn(stops, a, RunEnd(stops, a));
    LastOfRunIsDoubled(stops, a, RunEnd(stops, a));
  }

  lemma OptimizeKeepsIds(plans: seq<DayPlan>, d: nat)
    requires d < |plans| && DistinctIds(AllStops(plans)) && DoublesNone(plans[d].stops)
    ensures DistinctIds(AllStops(WithStops(plans, d, OptimizedDay(plans[d].stops))))
  {
    var after := AllStops(WithStops(plans, d, OptimizedDay(plans[d].stops)));
    forall id | id != ""
      ensures IdCount(after, id) <= IdCount(AllStops(plans), id)
    {
      DayCounts(plans[d].stops, id);
      WithStopsCounts(plans, d, OptimizedDay(plans[d].stops), id);
    }
    FewerStayDistinct(AllStops(plans), after);
  }

  lemma FewerStayDistinct(s: seq<Stop>, t: seq<Stop>)
    requires DistinctIds(s) && forall id | id != "" :: IdCount(t, id) <= IdCount(s, id)
    ensures DistinctIds(t)
  {}

  lemma OptimizeDoublesId(plans: seq<DayPlan>, d: nat) returns (id: string)
    requires d < |plans| && !DoublesNone(plans[d].stops)
    ensures id != "" && PlanCount(WithStops(plans, d, OptimizedDay(plans[d].stops)), id) >= 2
  {
    var stops := plans[d].stops;
    var a: nat :| a < |stops| && Unanchored(stops, a) && stops[RunEnd(stops, a) - 1].id != "";
    id := stops[RunEnd(stops, a) - 1].id;
    LastIsDoubled(stops, a);
    DayCountedInPlan(WithStops(plans, d, OptimizedDay(stops)), d, id);
  }

  /** Optimizing a day keeps the ids on the plan distinct exactly if each of its unanchored runs ends without an id. */
  lemma OptimizeKeepsIdsIff(plans: seq<DayPlan>, d: nat)
    requires d < |plans| && DistinctIds(AllStops(plans))
    ensures DistinctIds(AllStops(WithStops(plans, d, OptimizedDay(plans[d].stops)))) <==> DoublesNone(plans[d].stops)
  {
    if DoublesNone(plans[d].stops) {
      OptimizeKeepsIds(plans, d);
    } else {
      var id := OptimizeDoublesId(plans, d);
    }
  }

  // ---------- Every run ----------

  /** The action is no optimization that doubles an id. */
  predicate DoublesNoId(plans: seq<DayPlan>, action: Action) {
    action.OptimizeDay? ==>
      var d := FindPlan(plans, action.dayKey); d.Some? ==> DoublesNone(plans[d.value].stops)
  }

  ghost predicate RunDoublesNoId(w: Wording, canSave: bool, page: Page, actions: seq<Action>)
    decreases |actions|
  {
    actions == [] ||
    (DoublesNoId(page.plans, actions[0]) && RunDoublesNoId(w, canSave, Step(w, canSave, page, actions[0]), actions[1..]))
  }

  /** The ids on the plan are distinct now and after every action. */
  ghost predicate PlanAlwaysDistinct(w: Wording, canSave: bool, page: Page, actions: seq<Action>)
    decreases |actions|
  {
    DistinctIds(AllStops(page.plans)) &&
    (actions == [] || PlanAlwaysDistinct(w, canSave, Step(w, canSave, page, actions[0]), actions[1..]))
  }

  lemma OptimizeStepIs(w: Wording, canSave: bool, page: Page, key: string, d: nat)
    requires FindPlan(page.plans, key) == Some(d)
    ensures AllStops(Step(w, canSave, page, OptimizeDay(key)).plans)
         == AllStops(WithStops(page.plans, d, OptimizedDay(page.plans[d].stops)))
  {
    var next := OptimizedDay(page.plans[d].stops);
    StoredKeeps(w, WithStops(page.plans, d, next));
    if next == page.plans[d].stops {
      assert WithStops(page.plans, d, next) == page.plans;
    }
  }

  lemma OptimizeStepIff(w: Wording, canSave: bool, page: Page, key: string)
    requires DistinctIds(AllStops(page.plans))
    ensures DistinctIds(AllStops(Step(w, canSave, page, OptimizeDay(key)).plans)) <==> DoublesNoId(page.plans, OptimizeDay(key))
  {
    var found := FindPlan(page.plans, key);
    if found.Some? {
      OptimizeStepIs(w, canSave, page, key, found.value);
      OptimizeKeepsIdsIff(page.plans, found.value);
    }
  }

  lemma StepKeepsIdsIff(w: Wording, canSave: bool, page: Page, action: Action)
    requires DistinctIds(AllStops(page.plans))
    ensures DistinctIds(AllStops(Step(w, canSave, page, action).plans)) <==> DoublesNoId(page.plans, action)
  {
    if action.OptimizeDay? {
      OptimizeStepIff(w, canSave, page, action.dayKey);
    } else {
      StepKeepsIds(w, canSave, page, action);
    }
  }

  /** Distinct ids stay distinct throughout a run exactly if no optimization in it doubles one. */
  lemma {:induction false} RunKeepsIdsIff(w: Wording, canSave: bool, page: Page, actions: seq<Action>)
    requires DistinctIds(AllStops(page.plans))
    ensures PlanAlwaysDistinct(w, canSave, page, actions) <==> RunDoublesNoId(w, canSave, page, actions)
    decreases |actions|
  {
    if actions != [] {
      var after := Step(w, canSave, page, actions[0]);
      StepKeepsIdsIff(w, canSave, page, actions[0]);
      if DistinctIds(AllStops(after.plans)) {
        RunKeepsIdsIff(w, canSave, after, actions[1..]);
      } else {
        assert !PlanAlwaysDistinct(w, canSave, after, actions[1..]);
      }
    }
  }

  /** A run that optimizes anchored days only doubles no id. */
  lemma {:induction false} SafeRunsDoubleNoId(w: Wording, canSave: bool, page: Page, actions: seq<Action>)
    requires RunSafe(w, canSave, page, actions)
    ensures RunDoublesNoId(w, canSave, page, actions)
    decreases |actions|
  {
    if actions != [] {
      SafeRunsDoubleNoId(w, canSave, Step(w, canSave, page, actions[0]), actions[1..]);
    }
  }
}
