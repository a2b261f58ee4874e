/** What single edits leave behind once all segments were rebuilt, and which edits undo each other. */
module EditResults {
  import opened Text
  import opened Journey
  import opened RouteOptimizer
  import opened JourneySegments
  import opened PoiCatalogue
  import opened JourneyDraft
  import opened JourneyEditor
  import opened EditorRuns

  // ---------- Choices made for a segment ----------

  /** A text that was given is still there. */
  predicate Kept(before: string, after: string) {
    before != "" ==> after == before
  }

  /** The lock and the source are the same, and every text that was given is still there. */
  predicate KeepsGiven(before: Segment, after: Segment) {
    && after.locked == before.locked && after.source == before.source
    && Kept(before.fromId, after.fromId) && Kept(before.toId, after.toId)
    && Kept(before.fromName, after.fromName) && Kept(before.toName, after.toName)
    && Kept(before.mode, after.mode) && Kept(before.selectedMode, after.selectedMode)
    && Kept(before.distance, after.distance) && Kept(before.duration, after.duration)
    && Kept(before.confidence, after.confidence) && Kept(before.statusLabel, after.statusLabel)
    && Kept(before.note, after.note)
  }

  /** So it is between the same stops after a rebuild; only the verification status is judged anew. */
  predicate KeepsChoices(w: Wording, before: Segment, after: Segment) {
    KeepsGiven(before, after) && after.status == w.routeStatus(before)
  }

  lemma SameEndsKeepChoices(w: Wording, n: nat, stops: seq<Stop>, segments: seq<Segment>, j: nat)
    requires j + 1 < |stops| && j < |segments| && SameStops(segments[j], stops[j], stops[j + 1])
    ensures KeepsChoices(w, segments[j], EditedSegments(w, n, stops, segments)[j])
  {
    assert EditedSegments(w, n, stops, segments)[j] == SegmentAt(w, n, stops, segments, j);
  }

  /** All stops and all segments are as before, up to the rebuild. */
  ghost predicate OnlyRebuilt(w: Wording, before: seq<DayPlan>, after: seq<DayPlan>) {
    && |after| == |before|
    && forall e | 0 <= e < |before| ::
         && after[e].stops == before[e].stops && |after[e].segments| == |before[e].segments|
         && forall j | 0 <= j < |before[e].segments| :: KeepsChoices(w, before[e].segments[j], after[e].segments[j])
  }

  lemma StoredOnlyRebuilds(w: Wording, plans: seq<DayPlan>)
    requires AllLinked(plans)
    ensures OnlyRebuilt(w, plans, Stored(w, plans))
  {
    forall e | 0 <= e < |plans|
      ensures Linked(plans[e].stops, plans[e].segments)
      ensures Linked(plans[e].stops, Stored(w, plans)[e].segments)
    {
      RebuiltIsLinked(w, DayOr(plans[e].dayNumber, 1), plans[e].stops, plans[e].segments);
    }
    forall e, j | 0 <= e < |plans| && 0 <= j < |plans[e].segments|
      ensures KeepsChoices(w, plans[e].segments[j], Stored(w, plans)[e].segments[j])
    {
      SameEndsKeepChoices(w, DayOr(plans[e].dayNumber, 1), plans[e].stops, plans[e].segments, j);
    }
  }

  predicate SameEnds(s: Segment, t: Segment) {
    s.place == t.place && s.fromId == t.fromId && s.toId == t.toId && s.fromName == t.fromName && s.toName == t.toName
  }

  lemma StaysLinked(plans: seq<DayPlan>, d: nat, i: nat, s: Segment)
    requires AllLinked(plans) && d < |plans| && i < |plans[d].segments| && SameEnds(s, plans[d].segments[i])
    ensures AllLinked(WithSegment(plans, d, i, s))
  {
    var p := WithSegment(plans, d, i, s);
    forall e | 0 <= e < |p|
      ensures Linked(p[e].stops, p[e].segments)
    {
      assert Linked(plans[e].stops, plans[e].segments);
    }
  }

  /**
    A transport mode that the user selects goes into its segment, and into no other; then all is
    rebuilt, which changes no stop and no choice.
   */
  lemma SelectedModeStays(w: Wording, canSave: bool, page: Page, key: string, d: nat, i: nat, mode: string)
    requires AllLinked(page.plans) && FindPlan(page.plans, key) == Some(d) && i < |page.plans[d].segments|
    ensures var s := page.plans[d].segments[i];
      OnlyRebuilt(w, WithSegment(page.plans, d, i, WithMode(w, s, w.segmentMode(mode))),
                  Step(w, canSave, page, SelectSegmentMode(key, i, mode)).plans)
  {
    var s := WithMode(w, page.plans[d].segments[i], w.segmentMode(mode));
    StaysLinked(page.plans, d, i, s);
    StoredOnlyRebuilds(w, WithSegment(page.plans, d, i, s));
    SelectIsStored(w, canSave, page, key, d, i, mode);
  }

  lemma SelectIsStored(w: Wording, canSave: bool, page: Page, key: string, d: nat, i: nat, mode: string)
    requires FindPlan(page.plans, key) == Some(d) && i < |page.plans[d].segments|
    ensures var s := WithMode(w, page.plans[d].segments[i], w.segmentMode(mode));
      Step(w, canSave, page, SelectSegmentMode(key, i, mode)).plans == Stored(w, WithSegment(page.plans, d, i, s))
  {}

  /** The segment then has the selected mode and its old lock; a new mode makes the old metrics unchecked. */
  lemma SelectedModeShows(w: Wording, canSave: bool, page: Page, key: string, d: nat, i: nat, mode: string)
    requires AllLinked(page.plans) && FindPlan(page.plans, key) == Some(d) && i < |page.plans[d].segments|
    requires w.segmentMode(mode) != ""
    ensures var s := page.plans[d].segments[i];
      var after := Step(w, canSave, page, SelectSegmentMode(key, i, mode)).plans[d].segments[i];
      && after.mode == after.selectedMode == w.segmentMode(mode) && after.locked == s.locked
      && (w.segmentMode(mode) != w.segmentMode(if s.selectedMode != "" then s.selectedMode else s.mode) ==>
            && after.distance == after.duration == after.statusLabel == UNCHECKED
            && after.source == "user_segment_mode_preference" && after.confidence == "needs_live_route")
      && (w.segmentMode(mode) == w.segmentMode(if s.selectedMode != "" then s.selectedMode else s.mode) ==>
            after.source == s.source && Kept(s.distance, after.distance) && Kept(s.duration, after.duration))
  {
    SelectedModeStays(w, canSave, page, key, d, i, mode);
    var s := WithMode(w, page.plans[d].segments[i], w.segmentMode(mode));
    assert WithSegment(page.plans, d, i, s)[d].segments[i] == s;
  }

  /** Toggling the lock of a segment also pins its current mode; then all is rebuilt. */
  lemma SegmentLockToggles(w: Wording, canSave: bool, page: Page, key: string, d: nat, i: nat)
    requires AllLinked(page.plans) && FindPlan(page.plans, key) == Some(d) && i < |page.plans[d].segments|
    ensures OnlyRebuilt(w, WithSegment(page.plans, d, i, Toggled(w, page.plans[d].segments[i])),
                        Step(w, canSave, page, ToggleSegmentLock(key, i)).plans)
  {
    var s := Toggled(w, page.plans[d].segments[i]);
    StaysLinked(page.plans, d, i, s);
    StoredOnlyRebuilds(w, WithSegment(page.plans, d, i, s));
    ToggleIsStored(w, canSave, page, key, d, i);
  }

  /** The lock is the other way round, and the segment has the mode that was selected, or else its mode. */
  lemma SegmentLockShows(w: Wording, canSave: bool, page: Page, key: string, d: nat, i: nat)
    requires AllLinked(page.plans) && FindPlan(page.plans, key) == Some(d) && i < |page.plans[d].segments|
    ensures var s := page.plans[d].segments[i];
      var after := Step(w, canSave, page, ToggleSegmentLock(key, i)).plans[d].segments[i];
      var current := w.segmentMode(if s.selectedMode != "" then s.selectedMode else s.mode);
      && after.locked == !s.locked && (current != "" ==> after.mode == after.selectedMode == current)
      && after.source == s.source && Kept(s.distance, after.distance) && Kept(s.duration, after.duration)
  {
    SegmentLockToggles(w, canSave, page, key, d, i);
    var s := Toggled(w, page.plans[d].segments[i]);
    assert WithSegment(page.plans, d, i, s)[d].segments[i] == s;
  }

  lemma ToggleIsStored(w: Wording, canSave: bool, page: Page, key: string, d: nat, i: nat)
    requires FindPlan(page.plans, key) == Some(d) && i < |page.plans[d].segments|
    ensures Step(w, canSave, page, ToggleSegmentLock(key, i)).plans
         == Stored(w, WithSegment(page.plans, d, i, Toggled(w, page.plans[d].segments[i])))
  {}

  /** A segment with its lock the other way round and its current mode pinned. */
  function Toggled(w: Wording, s: Segment): (r: Segment) {
    s.(mode := CurrentMode(w, s), selectedMode := CurrentMode(w, s), locked := !s.locked)
  }

  /** Stops that can be told apart by their ids and have names. */
  predicate Told(stops: seq<Stop>) {
    && (forall i | 0 <= i < |stops| :: stops[i].id != "" && stops[i].name != "")
    && (forall i, j | 0 <= i < j < |stops| :: stops[i].id != stops[j].id)
  }

  /**
    Segments are matched by their place in the day, so a deletion keeps the choices in front of the
    deleted stop and forgets all choices behind it, even between stops that stay neighbours.
   */
  lemma DeletionForgetsBehind(w: Wording, canSave: bool, page: Page, key: string, d: nat, i: nat, j: nat)
    requires AllLinked(page.plans) && FindPlan(page.plans, key) == Some(d)
    requires i < |page.plans[d].stops| && j + 2 < |page.plans[d].stops| && Told(page.plans[d].stops)
    ensures var before := page.plans[d].segments;
      var after := Step(w, canSave, page, OnStop(key, i, Delete)).plans[d].segments;
      && |after| == |before| - 1
      && if j + 1 < i then KeepsChoices(w, before[j], after[j]) else NothingChosen(after[j])
  {
    var day := page.plans[d];
    var stops := RemoveAt(day.stops, i);
    assert Linked(day.stops, day.segments);
    assert Step(w, canSave, page, OnStop(key, i, Delete)).plans[d].segments
        == EditedSegments(w, DayOr(day.dayNumber, 1), stops, day.segments);
    RebuiltAfterDeletion(w, DayOr(day.dayNumber, 1), day.stops, day.segments, i, j);
  }

  lemma RebuiltAfterDeletion(w: Wording, n: nat, stops: seq<Stop>, segments: seq<Segment>, i: nat, j: nat)
    requires Linked(stops, segments) && Told(stops) && i < |stops| && j + 2 < |stops|
    ensures var after := EditedSegments(w, n, RemoveAt(stops, i), segments);
      && |after| == |segments| - 1
      && if j + 1 < i then KeepsChoices(w, segments[j], after[j]) else NothingChosen(after[j])
  {
    var left := RemoveAt(stops, i);
    RebuiltIsLinked(w, n, left, segments);
    if j + 1 < i {
      assert left[j] == stops[j] && left[j + 1] == stops[j + 1];
      SameEndsKeepChoices(w, n, left, segments, j);
    } else {
      assert left[j + 1] == stops[j + 2];
      assert left[j] == stops[if j < i then j else j + 1];
      assert segments[j].fromId == stops[j].id && segments[j].toId == stops[j + 1].id;
      OtherEndsChooseNothing(w, n, left, segments, j);
    }
  }

  lemma OtherEndsChooseNothing(w: Wording, n: nat, stops: seq<Stop>, segments: seq<Segment>, j: nat)
    requires j + 1 < |stops| && j < |segments| && FullyLabelled(segments[j])
    requires segments[j].fromId != stops[j].id || segments[j].toId != stops[j + 1].id
    ensures NothingChosen(EditedSegments(w, n, stops, segments)[j])
  {
    assert EditedSegments(w, n, stops, segments)[j] == SegmentAt(w, n, stops, segments, j);
  }

  // ---------- Undoing ----------

  /** The same days with the same stops; only segments may differ. */
  predicate SameStopsOfDays(before: seq<DayPlan>, after: seq<DayPlan>) {
    && |after| == |before|
    && forall e | 0 <= e < |before| ::
         after[e].key == before[e].key && after[e].dayNumber == before[e].dayNumber && after[e].stops == before[e].stops
  }

  /** An action that puts `stops` into day `d`, as the page shows it. */
  lemma StepPutsStops(w: Wording, canSave: bool, page: Page, action: Action, d: nat, stops: seq<Stop>)
    requires FindPlan(page.plans, action.dayKey) == Some(d)
    requires Edit(w, page.plans, GetJourneyPoiPool(page.journey), action) == Commit(WithStops(page.plans, d, stops))
    ensures var after := Step(w, canSave, page, action).plans;
      SameStopsOfDays(WithStops(page.plans, d, stops), after) && FindPlan(after, action.dayKey) == Some(d)
  {
    FindPlanSame(page.plans, Step(w, canSave, page, action).plans, action.dayKey);
  }

  /** Moving a stop down undoes moving it up. */
  lemma DownUndoesUp(w: Wording, canSave: bool, page: Page, key: string, d: nat, i: nat)
    requires FindPlan(page.plans, key) == Some(d) && 0 < i < |page.plans[d].stops|
    ensures var up := Step(w, canSave, page, OnStop(key, i, Up));
      SameStopsOfDays(page.plans, Step(w, canSave, up, OnStop(key, i - 1, Down)).plans)
  {
    var stops := page.plans[d].stops;
    var moved := Swapped(stops, i - 1, i);
    StepPutsStops(w, canSave, page, OnStop(key, i, Up), d, moved);
    var up := Step(w, canSave, page, OnStop(key, i, Up));
    assert Swapped(moved, i - 1, i) == stops;
    StepPutsStops(w, canSave, up, OnStop(key, i - 1, Down), d, stops);
  }

  /** Locking a stop twice changes nothing. */
  lemma StopLockTwice(w: Wording, canSave: bool, page: Page, key: string, d: nat, i: nat)
    requires FindPlan(page.plans, key) == Some(d) && i < |page.plans[d].stops|
    ensures var once := Step(w, canSave, page, OnStop(key, i, ToggleLock));
      SameStopsOfDays(page.plans, Step(w, canSave, once, OnStop(key, i, ToggleLock)).plans)
  {
    var stops := page.plans[d].stops;
    var locked := stops[i := stops[i].(locked := !stops[i].locked)];
    StepPutsStops(w, canSave, page, OnStop(key, i, ToggleLock), d, locked);
    var once := Step(w, canSave, page, OnStop(key, i, ToggleLock));
    assert locked[i := locked[i].(locked := !locked[i].locked)] == stops;
    StepPutsStops(w, canSave, once, OnStop(key, i, ToggleLock), d, stops);
  }
}
