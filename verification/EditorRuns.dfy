/** What every run of edit actions keeps of the plan and of the place catalogue. */
module EditorRuns {
  import opened Text
  import opened Journey
  import opened RouteOptimizer
  import opened OptimizerResults
  import opened JourneySegments
  import opened PoiCatalogue
  import opened JourneyDraft
  import opened JourneyEditor

  datatype Page = Page(plans: seq<DayPlan>, journey: JourneyData)

  function Step(w: Wording, canSave: bool, page: Page, action: Action): (r: Page) {
    match Edit(w, page.plans, GetJourneyPoiPool(page.journey), action)
    case Commit(p) => Page(Stored(w, p), if canSave then BuildJourneyData(w, page.journey, p) else page.journey)
    case _ => page
  }

  function Run(w: Wording, canSave: bool, page: Page, actions: seq<Action>): (r: Page)
    decreases |actions|
  {
    if actions == [] then page else Run(w, canSave, Step(w, canSave, page, actions[0]), actions[1..])
  }

  method Play(editor: JourneyEditor, actions: seq<Action>)
    modifies editor
    ensures Page(editor.plans, editor.journey) ==
      Run(editor.wording, editor.canSave, old(Page(editor.plans, editor.journey)), actions)
  {
    assert actions[0..] == actions;
    for n := 0 to |actions|
      invariant Run(editor.wording, editor.canSave, Page(editor.plans, editor.journey), actions[n..])
        == Run(editor.wording, editor.canSave, old(Page(editor.plans, editor.journey)), actions)
    {
      assert actions[n..][1..] == actions[n + 1..];
      var _ := editor.HandleJourneyEditAction(actions[n]);
    }
  }

  // ---------- Counting the stops of a plan ----------

  function PlanCount(plans: seq<DayPlan>, id: string): (n: nat) {
    IdCount(AllStops(plans), id)
  }

  lemma {:induction false} WithStopsCounts(plans: seq<DayPlan>, d: nat, stops: seq<Stop>, id: string)
    requires d < |plans|
    ensures var after := WithStops(plans, d, stops);
      && PlanCount(after, id) + IdCount(plans[d].stops, id) == PlanCount(plans, id) + IdCount(stops, id)
      && |AllStops(after)| + |plans[d].stops| == |AllStops(plans)| + |stops|
  {
    var after := WithStops(plans, d, stops);
    IdCountAppend(plans[0].stops, AllStops(plans[1..]), id);
    IdCountAppend(after[0].stops, AllStops(after[1..]), id);
    if d == 0 {
      assert after[1..] == plans[1..];
    } else {
      assert after[1..] == WithStops(plans[1..], d - 1, stops);
      WithStopsCounts(plans[1..], d - 1, stops, id);
    }
  }

  lemma {:induction false} DayCountedInPlan(plans: seq<DayPlan>, d: nat, id: string)
    requires d < |plans|
    ensures IdCount(plans[d].stops, id) <= PlanCount(plans, id)
  {
    IdCountAppend(plans[0].stops, AllStops(plans[1..]), id);
    if d > 0 {
      DayCountedInPlan(plans[1..], d - 1, id);
    }
  }

  /** 1 for a stop with the id, 0 for another. */
  function One(stop: Stop, id: string): (n: nat) {
    if stop.id == id then 1 else 0
  }

  lemma RemoveAtCounts(stops: seq<Stop>, i: nat, id: string)
    requires i < |stops|
    ensures IdCount(RemoveAt(stops, i), id) + One(stops[i], id) == IdCount(stops, id)
  {
    IdCountAppend(stops[..i], stops[i + 1..], id);
    IdCountAppend([stops[i]], stops[i + 1..], id);
    IdCountAppend(stops[..i], [stops[i]] + stops[i + 1..], id);
    assert stops == stops[..i] + ([stops[i]] + stops[i + 1..]);
    CountOfOne(stops[i], id);
  }

  lemma CountOfOne(stop: Stop, id: string)
    ensures IdCount([stop], id) == One(stop, id)
  {
    assert [stop][1..] == [];
  }

  lemma UpdateCounts(stops: seq<Stop>, i: nat, stop: Stop, id: string)
    requires i < |stops|
    ensures IdCount(stops[i := stop], id) + One(stops[i], id) == IdCount(stops, id) + One(stop, id)
  {
    RemoveAtCounts(stops, i, id);
    RemoveAtCounts(stops[i := stop], i, id);
    assert RemoveAt(stops[i := stop], i) == RemoveAt(stops, i);
  }

  lemma AppendCounts(stops: seq<Stop>, stop: Stop, id: string)
    ensures IdCount(stops + [stop], id) == IdCount(stops, id) + One(stop, id)
  {
    IdCountAppend(stops, [stop], id);
    CountOfOne(stop, id);
  }

  lemma SwapCounts(stops: seq<Stop>, i: nat, j: nat, id: string)
    requires i < j < |stops|
    ensures IdCount(Swapped(stops, i, j), id) == IdCount(stops, id)
  {
    UpdateCounts(stops, i, stops[j], id);
    UpdateCounts(stops[i := stops[j]], j, stops[i], id);
  }

  lemma {:induction false} PermutationCounts(s: seq<Stop>, t: seq<Stop>, id: string)
    requires multiset(s) == multiset(t)
    ensures IdCount(s, id) == IdCount(t, id)
  {
    if s == [] {
      assert |multiset(t)| == 0;
    } else {
      var k := PlaceInPermutation(s, t, 0);
      RemovedElement(t, k);
      assert s == [s[0]] + s[1..];
      assert multiset(s[1..]) == multiset(s) - multiset{s[0]};
      assert multiset(RemoveAt(t, k)) == multiset(t) - multiset{t[k]};
      PermutationCounts(s[1..], RemoveAt(t, k), id);
      RemoveAtCounts(t, k, id);
    }
  }

  // ---------- One action ----------

  /** An optimize action is harmless on an anchored day. */
  predicate Safe(plans: seq<DayPlan>, action: Action) {
    action.OptimizeDay? ==>
      var d := FindPlan(plans, action.dayKey); d.Some? ==> Anchored(plans[d.value].stops)
  }

  /** How many stops a committed action adds. */
  function Added(action: Action): (n: int) {
    if action.AddPending? then 1 else if action.OnStop? && action.action.Delete? then -1 else 0
  }

  /** Days keep their places and keys, and a day with stops keeps at least one. */
  predicate SameDays(before: seq<DayPlan>, after: seq<DayPlan>) {
    && |after| == |before|
    && forall d | 0 <= d < |before| ::
         && after[d].key == before[d].key && after[d].dayNumber == before[d].dayNumber && after[d].city == before[d].city
         && (before[d].stops != [] ==> after[d].stops != [])
  }

  /** An id that a committed action brings in was not on the plan before. */
  predicate FreshId(plans: seq<DayPlan>, id: string) {
    id == "" || PlanCount(plans, id) == 0
  }

  lemma UnusedId(plans: seq<DayPlan>, id: string)
    requires id == "" || id !in IdsOf(AllStops(plans))
    ensures FreshId(plans, id)
  {
    if id != "" {
      HasIdIff(AllStops(plans), id);
    }
  }

  lemma {:induction false} FoundIsCandidate(w: Wording, candidates: seq<Stop>, poiId: string, poiName: string)
    ensures var c := FindCandidate(w, candidates, poiId, poiName); c.Some? ==> c.value in candidates
  {
    if candidates != [] {
      FoundIsCandidate(w, candidates[1..], poiId, poiName);
    }
  }

  lemma AddIsFresh(w: Wording, plans: seq<DayPlan>, pool: seq<Stop>, poiId: string, poiName: string)
    ensures var c := FindCandidate(w, PendingCandidates(w, pool, plans), poiId, poiName);
      c.Some? ==> FreshId(plans, c.value.id) && c.value in pool
  {
    var candidates := PendingCandidates(w, pool, plans);
    var c := FindCandidate(w, candidates, poiId, poiName);
    FoundIsCandidate(w, candidates, poiId, poiName);
    if c.Some? {
      CandidatesAreExact(w, pool, plans, c.value);
      UnusedId(plans, c.value.id);
    }
  }

  /** The ids and the number of stops are as before. */
  predicate SameCounts(plans: seq<DayPlan>, p: seq<DayPlan>, id: string) {
    SameDays(plans, p) && |AllStops(p)| == |AllStops(plans)| && PlanCount(p, id) == PlanCount(plans, id)
  }

  lemma ToggleLockCounts(plans: seq<DayPlan>, d: nat, i: nat, id: string)
    requires d < |plans| && i < |plans[d].stops|
    ensures var stops := plans[d].stops;
      SameCounts(plans, WithStops(plans, d, stops[i := stops[i].(locked := !stops[i].locked)]), id)
  {
    ChangeCounts(plans, d, i, plans[d].stops[i].(locked := !plans[d].stops[i].locked), id);
  }

  lemma SaveTimeCounts(plans: seq<DayPlan>, d: nat, i: nat, time: string, duration: string, id: string)
    requires d < |plans| && i < |plans[d].stops|
    ensures var stops := plans[d].stops;
      SameCounts(plans, WithStops(plans, d, stops[i := stops[i].(timeRange := time, duration := duration)]), id)
  {
    ChangeCounts(plans, d, i, plans[d].stops[i].(timeRange := time, duration := duration), id);
  }

  /** Actions on one stop other than deleting and replacing keep all counts. */
  lemma StopActionCounts(w: Wording, plans: seq<DayPlan>, pool: seq<Stop>, d: nat, i: nat, action: StopAction, id: string)
    requires d < |plans| && i < |plans[d].stops| && !action.Replace? && !action.Delete?
    requires EditStop(w, plans, pool, d, i, action).Commit?
    ensures SameCounts(plans, EditStop(w, plans, pool, d, i, action).plans, id)
  {
    match action
    case ToggleLock => ToggleLockCounts(plans, d, i, id);
    case SaveTime(time, minutes) => SaveTimeCounts(plans, d, i, time, if minutes.Empty? then "" else minutes.text, id);
    case Up => ExchangeCounts(plans, d, i - 1, i, id);
    case Down => ExchangeCounts(plans, d, i, i + 1, id);
    case PrevDay => MoveCounts(plans, d, i, d - 1, id);
    case NextDay => MoveCounts(plans, d, i, d + 1, id);
  }

  lemma DeleteCounts(plans: seq<DayPlan>, d: nat, i: nat, id: string)
    requires d < |plans| && i < |plans[d].stops| && |plans[d].stops| > 1
    ensures var p := WithStops(plans, d, RemoveAt(plans[d].stops, i));
      && SameDays(plans, p) && |AllStops(p)| == |AllStops(plans)| - 1
      && PlanCount(p, id) == PlanCount(plans, id) - One(plans[d].stops[i], id)
  {
    WithStopsCounts(plans, d, RemoveAt(plans[d].stops, i), id);
    RemoveAtCounts(plans[d].stops, i, id);
  }

  lemma ExchangeCounts(plans: seq<DayPlan>, d: nat, i: nat, j: nat, id: string)
    requires d < |plans| && i < j < |plans[d].stops|
    ensures SameCounts(plans, WithStops(plans, d, Swapped(plans[d].stops, i, j)), id)
  {
    WithStopsCounts(plans, d, Swapped(plans[d].stops, i, j), id);
    SwapCounts(plans[d].stops, i, j, id);
  }

  lemma ChangeCounts(plans: seq<DayPlan>, d: nat, i: nat, stop: Stop, id: string)
    requires d < |plans| && i < |plans[d].stops|
    ensures var p := WithStops(plans, d, plans[d].stops[i := stop]);
      && SameDays(plans, p) && |AllStops(p)| == |AllStops(plans)|
      && PlanCount(p, id) + One(plans[d].stops[i], id) == PlanCount(plans, id) + One(stop, id)
  {
    WithStopsCounts(plans, d, plans[d].stops[i := stop], id);
    UpdateCounts(plans[d].stops, i, stop, id);
  }

  /** A replacement brings in a place of the pool whose id is new on the plan. */
  lemma ReplaceCounts(w: Wording, plans: seq<DayPlan>, pool: seq<Stop>, d: nat, i: nat, id: string)
    requires d < |plans| && i < |plans[d].stops|
    requires EditStop(w, plans, pool, d, i, Replace).Commit?
    ensures var p := EditStop(w, plans, pool, d, i, Replace).plans;
      SameDays(plans, p) && |AllStops(p)| == |AllStops(plans)|
      && CountsAfter(plans, p, pool, ReplacementId(w, plans, pool, d, i), id)
  {
    var stop := plans[d].stops[i];
    BestReplacement(w, pool, plans, stop, plans[d].city);
    var best := ReplacementCandidates(w, pool, plans, stop, plans[d].city)[0];
    UnusedId(plans, best.id);
    ChangeCounts(plans, d, i, NormalizeJourneyPoiAsStop(best, stop), id);
    DayCountedInPlan(plans, d, id);
    RemoveAtCounts(plans[d].stops, i, id);
  }

  lemma MoveCounts(plans: seq<DayPlan>, d: nat, i: nat, t: nat, id: string)
    requires d < |plans| && i < |plans[d].stops| && |plans[d].stops| > 1 && t < |plans| && t != d
    ensures SameCounts(plans, Moved(plans, d, i, t), id)
  {
    var stop := plans[d].stops[i];
    var left := WithStops(plans, d, RemoveAt(plans[d].stops, i));
    DeleteCounts(plans, d, i, id);
    assert left[t] == plans[t];
    WithStopsCounts(left, t, plans[t].stops + [stop], id);
    AppendCounts(plans[t].stops, stop, id);
  }

  lemma {:induction false} SegmentsDoNotCount(before: seq<DayPlan>, after: seq<DayPlan>)
    requires |after| == |before| && forall d | 0 <= d < |before| :: after[d].stops == before[d].stops
    ensures AllStops(after) == AllStops(before)
  {
    if before != [] {
      SegmentsDoNotCount(before[1..], after[1..]);
    }
  }

  /** The id of the place that an action brings in, if it brings in one. */
  function IncomingId(w: Wording, plans: seq<DayPlan>, pool: seq<Stop>, action: Action): (id: Option<string>) {
    match (FindPlan(plans, action.dayKey), action)
    case (Some(d), AddPending(_, poiId, poiName)) =>
      (match FindCandidate(w, PendingCandidates(w, pool, plans), poiId, w.foldName(poiName))
       case None => None
       case Some(candidate) => Some(candidate.id))
    case (Some(d), OnStop(_, i, Replace)) => if 0 <= i < |plans[d].stops| then ReplacementId(w, plans, pool, d, i) else None
    case _ => None
  }

  function ReplacementId(w: Wording, plans: seq<DayPlan>, pool: seq<Stop>, d: nat, i: nat): (id: Option<string>)
    requires d < |plans| && i < |plans[d].stops|
  {
    var candidates := ReplacementCandidates(w, pool, plans, plans[d].stops[i], plans[d].city);
    if candidates == [] then None else Some(candidates[0].id)
  }

  /** The incoming id is of the pool and new on the plan, and comes up once more; no other becomes more frequent. */
  ghost predicate CountsAfter(plans: seq<DayPlan>, p: seq<DayPlan>, pool: seq<Stop>, incoming: Option<string>, id: string) {
    if incoming == Some(id) then
      && PlanCount(p, id) <= PlanCount(plans, id) + 1 && (id != "" ==> PlanCount(plans, id) == 0 && PlanCount(p, id) == 1)
      && exists next: Stop :: next in pool && next.id == id
    else
      PlanCount(p, id) <= PlanCount(plans, id)
  }

  lemma AddCounts(w: Wording, plans: seq<DayPlan>, pool: seq<Stop>, d: nat, poiId: string, poiName: string, id: string)
    requires d < |plans| && Add(w, plans, pool, d, poiId, poiName).Commit?
    ensures var p := Add(w, plans, pool, d, poiId, poiName).plans;
      var incoming := FindCandidate(w, PendingCandidates(w, pool, plans), poiId, w.foldName(poiName)).value.id;
      SameDays(plans, p) && |AllStops(p)| == |AllStops(plans)| + 1 && CountsAfter(plans, p, pool, Some(incoming), id)
  {
    AddIsFresh(w, plans, pool, poiId, w.foldName(poiName));
    var candidate := FindCandidate(w, PendingCandidates(w, pool, plans), poiId, w.foldName(poiName)).value;
    var stop := NormalizeJourneyPoiAsStop(candidate, NoStop().(city := plans[d].city));
    WithStopsCounts(plans, d, plans[d].stops + [stop], id);
    AppendCounts(plans[d].stops, stop, id);
  }

  lemma OptimizeCounts(plans: seq<DayPlan>, d: nat, id: string)
    requires d < |plans| && Anchored(plans[d].stops)
    ensures SameCounts(plans, WithStops(plans, d, OptimizedDay(plans[d].stops)), id)
  {
    var next := OptimizedDay(plans[d].stops);
    OptimizedDayPermutes(plans[d].stops);
    PermutationCounts(next, plans[d].stops, id);
    WithStopsCounts(plans, d, next, id);
  }

  lemma CommitKeeps(w: Wording, plans: seq<DayPlan>, pool: seq<Stop>, action: Action, id: string)
    requires Safe(plans, action) && Edit(w, plans, pool, action).Commit?
    ensures var p := Edit(w, plans, pool, action).plans;
      && SameDays(plans, p) && |AllStops(p)| == |AllStops(plans)| + Added(action)
      && CountsAfter(plans, p, pool, IncomingId(w, plans, pool, action), id)
  {
    var d := FindPlan(plans, action.dayKey).value;
    match action
    case AddPending(_, poiId, poiName) => AddCounts(w, plans, pool, d, poiId, poiName, id);
    case OptimizeDay(_) => OptimizeCounts(plans, d, id);
    case SelectSegmentMode(_, _, _) => SegmentsDoNotCount(plans, Edit(w, plans, pool, action).plans);
    case ToggleSegmentLock(_, _) => SegmentsDoNotCount(plans, Edit(w, plans, pool, action).plans);
    case OnStop(_, i, stopAction) => AnyStopActionCounts(w, plans, pool, d, i, stopAction, id);
  }

  lemma AnyStopActionCounts(w: Wording, plans: seq<DayPlan>, pool: seq<Stop>, d: nat, i: nat, action: StopAction, id: string)
    requires d < |plans| && i < |plans[d].stops| && EditStop(w, plans, pool, d, i, action).Commit?
    ensures var p := EditStop(w, plans, pool, d, i, action).plans;
      && SameDays(plans, p) && |AllStops(p)| == |AllStops(plans)| + (if action.Delete? then -1 else 0)
      && CountsAfter(plans, p, pool, if action.Replace? then ReplacementId(w, plans, pool, d, i) else None, id)
  {
    if action.Replace? {
      ReplaceCounts(w, plans, pool, d, i, id);
    } else if action.Delete? {
      DeleteCounts(plans, d, i, id);
    } else {
      StopActionCounts(w, plans, pool, d, i, action, id);
    }
  }

  // ---------- Every run ----------

  ghost predicate RunSafe(w: Wording, canSave: bool, page: Page, actions: seq<Action>)
    decreases |actions|
  {
    actions == [] || (Safe(page.plans, actions[0]) && RunSafe(w, canSave, Step(w, canSave, page, actions[0]), actions[1..]))
  }

  /** How many stops an action adds: none if it is not committed. */
  function Change(w: Wording, page: Page, action: Action): (n: int) {
    if Edit(w, page.plans, GetJourneyPoiPool(page.journey), action).Commit? then Added(action) else 0
  }

  /** How many stops a run adds: committed additions less committed deletions. */
  function Balance(w: Wording, canSave: bool, page: Page, actions: seq<Action>): (n: int)
    decreases |actions|
  {
    if actions == [] then 0
    else Change(w, page, actions[0]) + Balance(w, canSave, Step(w, canSave, page, actions[0]), actions[1..])
  }

  lemma StoredKeeps(w: Wording, p: seq<DayPlan>)
    ensures AllStops(Stored(w, p)) == AllStops(p) && SameDays(p, Stored(w, p))
  {
    SegmentsDoNotCount(p, Stored(w, p));
  }

  /** The days and the number of stops, whatever the optimizer does to the stops of a day. */
  lemma CommitKeepsDays(w: Wording, plans: seq<DayPlan>, pool: seq<Stop>, action: Action)
    requires Edit(w, plans, pool, action).Commit?
    ensures var p := Edit(w, plans, pool, action).plans;
      SameDays(plans, p) && |AllStops(p)| == |AllStops(plans)| + Added(action)
  {
    if action.OptimizeDay? {
      var d := FindPlan(plans, action.dayKey).value;
      WithStopsCounts(plans, d, OptimizedDay(plans[d].stops), "");
    } else {
      CommitKeeps(w, plans, pool, action, "");
    }
  }

  lemma StepKeepsDays(w: Wording, canSave: bool, page: Page, action: Action)
    ensures var after := Step(w, canSave, page, action);
      SameDays(page.plans, after.plans) && |AllStops(after.plans)| == |AllStops(page.plans)| + Change(w, page, action)
  {
    var pool := GetJourneyPoiPool(page.journey);
    var outcome := Edit(w, page.plans, pool, action);
    if outcome.Commit? {
      StoredKeeps(w, outcome.plans);
      CommitKeepsDays(w, page.plans, pool, action);
    }
  }

  /**
    Over any run of actions the days stay the same days, no day with stops runs empty, and the
    number of stops changes by additions and deletions only.
   */
  lemma {:induction false} RunKeepsDays(w: Wording, canSave: bool, page: Page, actions: seq<Action>)
    ensures var after := Run(w, canSave, page, actions);
      SameDays(page.plans, after.plans) && |AllStops(after.plans)| == |AllStops(page.plans)| + Balance(w, canSave, page, actions)
    decreases |actions|
  {
    if actions != [] {
      StepKeepsDays(w, canSave, page, actions[0]);
      RunKeepsDays(w, canSave, Step(w, canSave, page, actions[0]), actions[1..]);
    }
  }

  lemma StepKeepsIds(w: Wording, canSave: bool, page: Page, action: Action)
    requires Safe(page.plans, action) && DistinctIds(AllStops(page.plans))
    ensures DistinctIds(AllStops(Step(w, canSave, page, action).plans))
  {
    var pool := GetJourneyPoiPool(page.journey);
    var outcome := Edit(w, page.plans, pool, action);
    if outcome.Commit? {
      StoredKeeps(w, outcome.plans);
      forall id | id != ""
        ensures IdCount(AllStops(outcome.plans), id) <= 1
      {
        CommitKeeps(w, page.plans, pool, action, id);
        assert IdCount(AllStops(page.plans), id) <= 1;
      }
    }
  }

  // ---------- Plans whose stops all have coordinates ----------

  predicate Located(stops: seq<Stop>) {
    forall i | 0 <= i < |stops| :: HasCoordinate(stops[i])
  }

  predicate AllLocated(plans: seq<DayPlan>) {
    forall d | 0 <= d < |plans| :: Located(plans[d].stops)
  }

  lemma LocatedIsAnchored(stops: seq<Stop>)
    requires Located(stops)
    ensures Anchored(stops)
  {}

  lemma OptimizedIsLocated(stops: seq<Stop>)
    requires Located(stops)
    ensures Located(OptimizedDay(stops))
  {
    LocatedIsAnchored(stops);
    OptimizedDayPermutes(stops);
    var day := OptimizedDay(stops);
    forall i | 0 <= i < |day|
      ensures HasCoordinate(day[i])
    {
      var j := PlaceInPermutation(day, stops, i);
    }
  }

  /** Every added or replacing stop is normalized first, which gives it a coordinate. */
  lemma CommitStaysLocated(w: Wording, plans: seq<DayPlan>, pool: seq<Stop>, action: Action)
    requires AllLocated(plans) && Edit(w, plans, pool, action).Commit?
    ensures AllLocated(Edit(w, plans, pool, action).plans)
  {
    var d := FindPlan(plans, action.dayKey).value;
    if action.OptimizeDay? {
      OptimizedIsLocated(plans[d].stops);
    } else if action.OnStop? {
      StopActionStaysLocated(w, plans, pool, d, action.index, action.action);
    }
  }

  lemma StopActionStaysLocated(w: Wording, plans: seq<DayPlan>, pool: seq<Stop>, d: nat, i: nat, action: StopAction)
    requires d < |plans| && i < |plans[d].stops| && AllLocated(plans)
    requires EditStop(w, plans, pool, d, i, action).Commit?
    ensures AllLocated(EditStop(w, plans, pool, d, i, action).plans)
  {}

  /** From a plan with coordinates everywhere, no run ever meets an optimizer that loses stops. */
  lemma {:induction false} LocatedRunsAreSafe(w: Wording, canSave: bool, page: Page, actions: seq<Action>)
    requires AllLocated(page.plans)
    ensures RunSafe(w, canSave, page, actions) && AllLocated(Run(w, canSave, page, actions).plans)
    decreases |actions|
  {
    if actions != [] {
      var pool := GetJourneyPoiPool(page.journey);
      var outcome := Edit(w, page.plans, pool, actions[0]);
      var d := FindPlan(page.plans, actions[0].dayKey);
      if d.Some? {
        LocatedIsAnchored(page.plans[d.value].stops);
      }
      if outcome.Commit? {
        CommitStaysLocated(w, page.plans, pool, actions[0]);
      }
      LocatedRunsAreSafe(w, canSave, Step(w, canSave, page, actions[0]), actions[1..]);
    }
  }

  // ---------- Segments over a run ----------

  predicate AllLinked(plans: seq<DayPlan>) {
    forall d | 0 <= d < |plans| :: Linked(plans[d].stops, plans[d].segments)
  }

  /** Any committed action links the segments of all days, however they were before. */
  lemma CommitLinks(w: Wording, canSave: bool, page: Page, action: Action)
    requires Edit(w, page.plans, GetJourneyPoiPool(page.journey), action).Commit?
    ensures AllLinked(Step(w, canSave, page, action).plans)
  {
    var p := Edit(w, page.plans, GetJourneyPoiPool(page.journey), action).plans;
    forall d | 0 <= d < |p| {
      RebuiltIsLinked(w, DayOr(p[d].dayNumber, 1), p[d].stops, p[d].segments);
    }
  }

  /** Some action of the run is committed. */
  predicate SomeCommit(w: Wording, canSave: bool, page: Page, actions: seq<Action>)
    decreases |actions|
  {
    actions != [] &&
    (Edit(w, page.plans, GetJourneyPoiPool(page.journey), actions[0]).Commit?
     || SomeCommit(w, canSave, Step(w, canSave, page, actions[0]), actions[1..]))
  }

  /** If they did so at the start, or once anything was edited, the segments of every day link exactly its stops. */
  lemma {:induction false} RunStaysLinked(w: Wording, canSave: bool, page: Page, actions: seq<Action>)
    requires AllLinked(page.plans) || SomeCommit(w, canSave, page, actions)
    ensures AllLinked(Run(w, canSave, page, actions).plans)
    decreases |actions|
  {
    if actions != [] {
      if Edit(w, page.plans, GetJourneyPoiPool(page.journey), actions[0]).Commit? {
        CommitLinks(w, canSave, page, actions[0]);
      }
      RunStaysLinked(w, canSave, Step(w, canSave, page, actions[0]), actions[1..]);
    }
  }

  // ---------- The catalogue over a run ----------

  /** No id that was ever known is forgotten. */
  lemma {:induction false} RunKeepsKnownIds(w: Wording, canSave: bool, page: Page, actions: seq<Action>, id: string)
    requires id != "" && Knows(page.journey, id)
    ensures Knows(Run(w, canSave, page, actions).journey, id)
    decreases |actions|
  {
    if actions != [] {
      var outcome := Edit(w, page.plans, GetJourneyPoiPool(page.journey), actions[0]);
      if outcome.Commit? && canSave {
        SaveKeepsIds(w, page.journey, outcome.plans, id);
      }
      RunKeepsKnownIds(w, canSave, Step(w, canSave, page, actions[0]), actions[1..], id);
    }
  }

  /** The days of the plan are the days of the journey, one for one, under different keys. */
  predicate Aligned(plans: seq<DayPlan>, days: seq<JourneyDay>) {
    && |plans| == |days|
    && (forall d | 0 <= d < |plans| :: plans[d].key == PlanKey(days[d]))
    && (forall d, e | 0 <= d < e < |plans| :: plans[d].key != plans[e].key)
  }

  lemma AlignedFinds(plans: seq<DayPlan>, days: seq<JourneyDay>, d: nat)
    requires Aligned(plans, days) && d < |plans|
    ensures FindPlan(plans, PlanKey(days[d])) == Some(d)
  {
    assert plans[d] in plans;
  }

  lemma SaveStaysAligned(w: Wording, journey: JourneyData, before: seq<DayPlan>, p: seq<DayPlan>)
    requires Aligned(before, journey.days) && SameDays(before, p)
    ensures Aligned(p, BuildJourneyData(w, journey, p).days) && Aligned(Stored(w, p), BuildJourneyData(w, journey, p).days)
  {}

  lemma {:induction false} FindPlanSame(before: seq<DayPlan>, after: seq<DayPlan>, key: string)
    requires |before| == |after| && forall d | 0 <= d < |before| :: after[d].key == before[d].key
    ensures FindPlan(after, key) == FindPlan(before, key)
  {
    if before != [] {
      FindPlanSame(before[1..], after[1..], key);
    }
  }

  /** Every id on the plan is in `pois`, and none is in `alternative_pois`. */
  ghost predicate PlanIsKnown(page: Page) {
    forall d, i | 0 <= d < |page.plans| && 0 <= i < |page.plans[d].stops| ::
      var id := page.plans[d].stops[i].id;
      id != "" ==> HasId(page.journey.pois, id) && !HasId(page.journey.alternatives, id)
  }

  lemma SaveMakesPlanKnown(w: Wording, journey: JourneyData, p: seq<DayPlan>)
    requires Aligned(p, journey.days)
    ensures PlanIsKnown(Page(Stored(w, p), BuildJourneyData(w, journey, p)))
  {
    var page := Page(Stored(w, p), BuildJourneyData(w, journey, p));
    forall d, i | 0 <= d < |page.plans| && 0 <= i < |page.plans[d].stops| && page.plans[d].stops[i].id != ""
      ensures var id := page.plans[d].stops[i].id; HasId(page.journey.pois, id) && !HasId(page.journey.alternatives, id)
    {
      AlignedFinds(p, journey.days, d);
      PlannedStopsAreSaved(w, journey, p, d, i);
    }
  }

  /** Plan and catalogue stay consistent over every run of saved edits. */
  lemma {:induction false} RunStaysConsistent(w: Wording, page: Page, actions: seq<Action>)
    requires Aligned(page.plans, page.journey.days) && PlanIsKnown(page) && InSync(page.journey)
    ensures var after := Run(w, true, page, actions);
      Aligned(after.plans, after.journey.days) && PlanIsKnown(after) && InSync(after.journey)
    decreases |actions|
  {
    if actions != [] {
      var pool := GetJourneyPoiPool(page.journey);
      var outcome := Edit(w, page.plans, pool, actions[0]);
      if outcome.Commit? {
        CommitKeepsDays(w, page.plans, pool, actions[0]);
        SaveStaysAligned(w, page.journey, page.plans, outcome.plans);
        AlignedAgain(page.plans, outcome.plans, page.journey.days);
        SaveMakesPlanKnown(w, page.journey, outcome.plans);
        SaveIsInSync(w, page.journey, outcome.plans);
      }
      RunStaysConsistent(w, Step(w, true, page, actions[0]), actions[1..]);
    }
  }

  lemma AlignedAgain(before: seq<DayPlan>, p: seq<DayPlan>, days: seq<JourneyDay>)
    requires Aligned(before, days) && SameDays(before, p)
    ensures Aligned(p, days)
  {}
}
