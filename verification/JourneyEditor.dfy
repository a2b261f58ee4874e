/** The edit actions on a travel plan (frontend/journey-editor.js). */
module JourneyEditor {
  import opened Text
  import opened Journey
  import opened RouteOptimizer
  import opened JourneySegments
  import opened PoiCatalogue
  import opened JourneyDraft

  /** A duration typed by the user: nothing, not a number of minutes, or some minutes. */
  datatype Minutes = Empty | Invalid | Minutes(text: string)

  datatype StopAction = ToggleLock | SaveTime(time: string, minutes: Minutes) | Delete | Up | Down | PrevDay | NextDay | Replace

  datatype Action =
    | AddPending(dayKey: string, poiId: string, poiName: string)
    | OptimizeDay(dayKey: string)
    | SelectSegmentMode(dayKey: string, segment: int, mode: string)
    | ToggleSegmentLock(dayKey: string, segment: int)
    | OnStop(dayKey: string, index: int, action: StopAction)

  /** What a click comes to: not handled, handled with a remark only, or a new plan to be stored. */
  datatype Outcome = Ignored | Remark | Commit(plans: seq<DayPlan>)

  // ---------- The plan after an action ----------

  function FindCandidate(w: Wording, candidates: seq<Stop>, poiId: string, poiName: string): (c: Option<Stop>) {
    if candidates == [] then None
    else if (poiId != "" && candidates[0].id == poiId) || (poiName != "" && w.foldName(candidates[0].name) == poiName) then
      Some(candidates[0])
    else FindCandidate(w, candidates[1..], poiId, poiName)
  }

  predicate HasDuplicateStop(w: Wording, plans: seq<DayPlan>, candidate: Stop) {
    exists s | s in AllStops(plans) ::
      (candidate.id != "" && s.id == candidate.id) ||
      (w.foldName(candidate.name) != "" && w.foldName(s.name) == w.foldName(candidate.name))
  }

  function WithStops(plans: seq<DayPlan>, d: nat, stops: seq<Stop>): (r: seq<DayPlan>)
    requires d < |plans|
  {
    plans[d := plans[d].(stops := stops)]
  }

  function Add(w: Wording, plans: seq<DayPlan>, pool: seq<Stop>, d: nat, poiId: string, poiName: string): (o: Outcome)
    requires d < |plans|
  {
    match FindCandidate(w, PendingCandidates(w, pool, plans), poiId, w.foldName(poiName))
    case None => Remark
    case Some(candidate) =>
      var stop := NormalizeJourneyPoiAsStop(candidate, NoStop().(city := plans[d].city));
      if HasDuplicateStop(w, plans, stop) then Remark
      else Commit(WithStops(plans, d, plans[d].stops + [stop]))
  }

  function Optimize(plans: seq<DayPlan>, d: nat): (o: Outcome)
    requires d < |plans|
  {
    var next := OptimizedDay(plans[d].stops);
    if next == plans[d].stops then Remark else Commit(WithStops(plans, d, next))
  }

  function CurrentMode(w: Wording, s: Segment): (mode: string) {
    w.segmentMode(Or(s.selectedMode, s.mode))
  }

  function WithMode(w: Wording, s: Segment, mode: string): (r: Segment) {
    var chosen := s.(mode := mode, selectedMode := mode);
    if mode == CurrentMode(w, s) then chosen
    else chosen.(distance := UNCHECKED, duration := UNCHECKED, confidence := "needs_live_route",
                 source := "user_segment_mode_preference", status := "needs_live_route",
                 statusLabel := UNCHECKED, note := "用户已切换交通方式，真实路线和用时待核验。")
  }

  function WithSegment(plans: seq<DayPlan>, d: nat, i: nat, s: Segment): (r: seq<DayPlan>)
    requires d < |plans| && i < |plans[d].segments|
  {
    plans[d := plans[d].(segments := plans[d].segments[i := s])]
  }

  function Swapped<T>(s: seq<T>, i: nat, j: nat): (r: seq<T>)
    requires i < |s| && j < |s|
  {
    s[i := s[j]][j := s[i]]
  }

  /** Moves stop `i` of day `d` to the end of day `t`. */
  function Moved(plans: seq<DayPlan>, d: nat, i: nat, t: nat): (r: seq<DayPlan>)
    requires d < |plans| && i < |plans[d].stops| && t < |plans| && t != d
  {
    var left := WithStops(plans, d, RemoveAt(plans[d].stops, i));
    WithStops(left, t, plans[t].stops + [plans[d].stops[i]])
  }

  function EditStop(w: Wording, plans: seq<DayPlan>, pool: seq<Stop>, d: nat, i: nat, action: StopAction): (o: Outcome)
    requires d < |plans| && i < |plans[d].stops|
  {
    var stops := plans[d].stops;
    match action
    case ToggleLock => Commit(WithStops(plans, d, stops[i := stops[i].(locked := !stops[i].locked)]))
    case SaveTime(time, minutes) =>
      if minutes.Invalid? || (time == "" && minutes.Empty?) then Remark
      else Commit(WithStops(plans, d, stops[i := stops[i].(timeRange := time,
                                                           duration := if minutes.Empty? then "" else minutes.text)]))
    case Delete => if |stops| <= 1 then Remark else Commit(WithStops(plans, d, RemoveAt(stops, i)))
    case Up => if i > 0 then Commit(WithStops(plans, d, Swapped(stops, i - 1, i))) else Ignored
    case Down => if i + 1 < |stops| then Commit(WithStops(plans, d, Swapped(stops, i, i + 1))) else Ignored
    case PrevDay => if |stops| <= 1 then Remark else if d > 0 then Commit(Moved(plans, d, i, d - 1)) else Ignored
    case NextDay => if |stops| <= 1 then Remark else if d + 1 < |plans| then Commit(Moved(plans, d, i, d + 1)) else Ignored
    case Replace =>
      var candidates := ReplacementCandidates(w, pool, plans, stops[i], plans[d].city);
      if candidates == [] then Remark
      else Commit(WithStops(plans, d, stops[i := NormalizeJourneyPoiAsStop(candidates[0], stops[i])]))
  }

  function Edit(w: Wording, plans: seq<DayPlan>, pool: seq<Stop>, action: Action): (o: Outcome) {
    match FindPlan(plans, action.dayKey)
    case None => Ignored
    case Some(d) =>
      match action
      case AddPending(_, poiId, poiName) => Add(w, plans, pool, d, poiId, poiName)
      case OptimizeDay(_) => Optimize(plans, d)
      case SelectSegmentMode(_, i, mode) =>
        if 0 <= i < |plans[d].segments| then
          Commit(WithSegment(plans, d, i, WithMode(w, plans[d].segments[i], w.segmentMode(mode))))
        else Ignored
      case ToggleSegmentLock(_, i) =>
        if 0 <= i < |plans[d].segments| then
          var s := plans[d].segments[i];
          var mode := CurrentMode(w, s);
          Commit(WithSegment(plans, d, i, s.(mode := mode, selectedMode := mode, locked := !s.locked)))
        else Ignored
      case OnStop(_, i, stopAction) =>
        if 0 <= i < |plans[d].stops| then EditStop(w, plans, pool, d, i, stopAction) else Ignored
  }

  /** The plan as it is stored after an edit, with all segments rebuilt. */
  function Stored(w: Wording, plans: seq<DayPlan>): (r: seq<DayPlan>)
    ensures |r| == |plans|
  {
    seq(|plans|, d requires 0 <= d < |plans| =>
      plans[d].(segments := EditedSegments(w, DayOr(plans[d].dayNumber, 1), plans[d].stops, plans[d].segments)))
  }

  // ---------- The editor ----------

  /** The data that the page holds: the day plans of the map and the journey of the workbench. */
  class JourneyEditor {
    const wording: Wording
    /** Signed in, a conversation is open, and the journey has the known version. */
    const canSave: bool
    var plans: seq<DayPlan>
    var journey: JourneyData

    constructor (wording: Wording, canSave: bool, plans: seq<DayPlan>, journey: JourneyData)
      ensures this.wording == wording && this.canSave == canSave && this.plans == plans && this.journey == journey
    {
      this.wording, this.canSave, this.plans, this.journey := wording, canSave, plans, journey;
    }

    method CommitJourneyPlanEdit(dayPlans: seq<DayPlan>)
      modifies this
      ensures plans == Stored(wording, dayPlans)
      ensures journey == if canSave then BuildJourneyData(wording, old(journey), dayPlans) else old(journey)
    {
      var stored: seq<DayPlan> := [];
      for d := 0 to |dayPlans|
        invariant |stored| == d && forall k | 0 <= k < d :: stored[k] == Stored(wording, dayPlans)[k]
        invariant journey == old(journey)
      {
        var day := dayPlans[d];
        var segments := BuildEditedJourneySegments(wording, DayOr(day.dayNumber, 1), day.stops, day.segments);
        stored := stored + [day.(segments := segments)];
      }
      plans := stored;
      if canSave {
        journey := BuildJourneyData(wording, journey, dayPlans);
      }
    }

    /** One click: what happens is exactly the outcome of `Edit`. */
    method HandleJourneyEditAction(action: Action) returns (handled: bool)
      modifies this
      ensures var outcome := Edit(wording, old(plans), GetJourneyPoiPool(old(journey)), action);
        match outcome
        case Ignored => !handled && plans == old(plans) && journey == old(journey)
        case Remark => handled && plans == old(plans) && journey == old(journey)
        case Commit(p) =>
          && handled && plans == Stored(wording, p)
          && journey == if canSave then BuildJourneyData(wording, old(journey), p) else old(journey)
    {
      var found := FindPlan(plans, action.dayKey);
      if found.None? {
        return false;
      }
      var d := found.value;
      var day := plans[d];
      match action
      case AddPending(_, poiId, poiName) =>
        handled := AddPendingStop(d, poiId, poiName);
      case OptimizeDay(_) =>
        handled := OptimizeStops(d);
      case SelectSegmentMode(_, i, mode) =>
        if i < 0 || i >= |day.segments| {
          return false;
        }
        var selectedMode := wording.segmentMode(mode);
        day := day.(segments := day.segments[i := WithMode(wording, day.segments[i], selectedMode)]);
        CommitJourneyPlanEdit(plans[d := day]);
        handled := true;
      case ToggleSegmentLock(_, i) =>
        if i < 0 || i >= |day.segments| {
          return false;
        }
        var segment := day.segments[i];
        var currentMode := CurrentMode(wording, segment);
        segment := segment.(mode := currentMode, selectedMode := currentMode, locked := !segment.locked);
        day := day.(segments := day.segments[i := segment]);
        CommitJourneyPlanEdit(plans[d := day]);
        handled := true;
      case OnStop(_, index, stopAction) =>
        if index < 0 || index >= |day.stops| {
          return false;
        }
        handled := HandleStopAction(d, index, stopAction);
    }

    method AddPendingStop(d: nat, poiId: string, poiName: string) returns (handled: bool)
      requires d < |plans|
      modifies this
      ensures handled
      ensures match Add(wording, old(plans), GetJourneyPoiPool(old(journey)), d, poiId, poiName)
        case Commit(p) =>
          plans == Stored(wording, p) && journey == if canSave then BuildJourneyData(wording, old(journey), p) else old(journey)
        case _ => plans == old(plans) && journey == old(journey)
    {
      var candidates := GetJourneyPendingPoiCandidates(wording, GetJourneyPoiPool(journey), plans);
      var candidate := FindCandidate(wording, candidates, poiId, wording.foldName(poiName));
      if candidate.None? {
        return true;
      }
      var normalizedCandidate := NormalizeJourneyPoiAsStop(candidate.value, NoStop().(city := plans[d].city));
      if HasDuplicateStop(wording, plans, normalizedCandidate) {
        return true;
      }
      var stops := plans[d].stops + [normalizedCandidate];
      CommitJourneyPlanEdit(plans[d := plans[d].(stops := stops)]);
      return true;
    }

    method OptimizeStops(d: nat) returns (handled: bool)
      requires d < |plans|
      modifies this
      ensures handled
      ensures match Optimize(old(plans), d)
        case Commit(p) =>
          plans == Stored(wording, p) && journey == if canSave then BuildJourneyData(wording, old(journey), p) else old(journey)
        case _ => plans == old(plans) && journey == old(journey)
    {
      var stops, changed, optimizedCount := OptimizeJourneyDayStops(plans[d].stops);
      if optimizedCount == 0 {
        NothingToOptimize(plans[d].stops);
        return true;
      }
      if !changed {
        return true;
      }
      CommitJourneyPlanEdit(plans[d := plans[d].(stops := stops)]);
      return true;
    }

    method HandleStopAction(d: nat, index: nat, action: StopAction) returns (handled: bool)
      requires d < |plans| && index < |plans[d].stops|
      modifies this
      ensures match EditStop(wording, old(plans), GetJourneyPoiPool(old(journey)), d, index, action)
        case Ignored => !handled && plans == old(plans) && journey == old(journey)
        case Remark => handled && plans == old(plans) && journey == old(journey)
        case Commit(p) =>
          && handled && plans == Stored(wording, p)
          && journey == if canSave then BuildJourneyData(wording, old(journey), p) else old(journey)
    {
      var dayPlans := plans;
      var stops := plans[d].stops;
      var currentStop := stops[index];
      match action {
        case ToggleLock =>
          stops := stops[index := currentStop.(locked := !currentStop.locked)];
        case SaveTime(time, minutes) =>
          if minutes.Invalid? {
            return true;
          }
          if time == "" && minutes.Empty? {
            return true;
          }
          stops := stops[index := currentStop.(timeRange := time, duration := if minutes.Empty? then "" else minutes.text)];
        case Delete =>
          if |stops| <= 1 {
            return true;
          }
          stops := stops[..index] + stops[index + 1..];
        case Up =>
          if index == 0 {
            return false;
          }
          stops := stops[index - 1 := stops[index]][index := stops[index - 1]];
        case Down =>
          if index >= |stops| - 1 {
            return false;
          }
          stops := stops[index := stops[index + 1]][index + 1 := stops[index]];
        case PrevDay =>
          if |stops| <= 1 {
            return true;
          }
          if d == 0 {
            return false;
          }
          stops := stops[..index] + stops[index + 1..];
          dayPlans := dayPlans[d - 1 := dayPlans[d - 1].(stops := dayPlans[d - 1].stops + [currentStop])];
        case NextDay =>
          if |stops| <= 1 {
            return true;
          }
          if d + 1 >= |plans| {
            return false;
          }
          stops := stops[..index] + stops[index + 1..];
          dayPlans := dayPlans[d + 1 := dayPlans[d + 1].(stops := dayPlans[d + 1].stops + [currentStop])];
        case Replace =>
          var candidates := ReplacementCandidates(wording, GetJourneyPoiPool(journey), plans, currentStop, plans[d].city);
          if candidates == [] {
            return true;
          }
          stops := stops[index := NormalizeJourneyPoiAsStop(candidates[0], currentStop)];
      }
      dayPlans := dayPlans[d := dayPlans[d].(stops := stops)];
      assert EditStop(wording, plans, GetJourneyPoiPool(journey), d, index, action) == Commit(dayPlans);
      CommitJourneyPlanEdit(dayPlans);
      return true;
    }
  }

  lemma {:induction false} NoneSortable(stops: seq<Stop>, n: nat, i: nat)
    requires i < n <= |stops| && Sortable(stops, n) == 0
    ensures !InLongRun(stops, i)
  {
    if i < n - 1 {
      NoneSortable(stops, n - 1, i);
    }
  }

  /** A day for which the optimizer counts nothing comes back as it is. */
  lemma NothingToOptimize(stops: seq<Stop>)
    requires Sortable(stops, |stops|) == 0
    ensures OptimizedDay(stops) == stops
  {
    forall i | 0 <= i < |stops|
      ensures OptimizedAt(stops, i) == stops[i]
    {
      NoneSortable(stops, |stops|, i);
      AloneStays(stops, i);
    }
    SameSeq(OptimizedDay(stops), stops);
  }

  lemma AloneStays(stops: seq<Stop>, i: nat)
    requires i < |stops| && !InLongRun(stops, i)
    ensures OptimizedAt(stops, i) == stops[i]
  {
    if CanOptimize(stops[i]) {
      assert IsRun(stops, i, i + 1);
      OptimizedAtRun(stops, i, i + 1, i);
      assert stops[i..i + 1] == [stops[i]];
    }
  }
}
