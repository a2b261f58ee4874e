/** Rebuilding the segments of a day after an edit (frontend/app.js). */
module JourneySegments {
  import opened Text
  import opened Journey

  const UNCHECKED := "待高德路线核验"
  const DEFAULT_NOTE := "交通方式为草案偏好，真实路线待核验。"

  /** The `previous = {}` of the source: a segment that says nothing. */
  const NO_SEGMENT := Segment(0, 0, "", "", "", "", "", "", false, "", "", "", "", "", "", "")

  function StatusLabel(status: string): (text: string) {
    if status == "verified" then "已核验" else if status == "estimated" then "估算" else UNCHECKED
  }

  function NormalizeEditedJourneySegment(
    w: Wording, dayNumber: nat, index: nat, left: Stop, right: Stop, base: Segment): (s: Segment)
  {
    var status := w.routeStatus(base);
    Segment(
      index + 1, dayNumber, left.id, right.id, left.name, right.name,
      Or(base.mode, Or(base.selectedMode, "taxi")), Or(base.selectedMode, Or(base.mode, "taxi")), base.locked,
      Or(base.distance, UNCHECKED), Or(base.duration, UNCHECKED),
      Or(base.confidence, "needs_live_route"), base.source,
      status, Or(base.statusLabel, StatusLabel(status)), Or(base.note, DEFAULT_NOTE))
  }

  /** A label that is missing agrees with everything. */
  predicate Agrees(mark: string, actual: string) {
    mark == "" || mark == actual
  }

  predicate SameStops(previous: Segment, left: Stop, right: Stop) {
    && Agrees(previous.fromId, left.id) && Agrees(previous.toId, right.id)
    && Agrees(previous.fromName, left.name) && Agrees(previous.toName, right.name)
  }

  function PreviousAt(previous: seq<Segment>, index: nat): (s: Segment) {
    if index < |previous| then previous[index] else NO_SEGMENT
  }

  function SegmentAt(w: Wording, dayNumber: nat, pois: seq<Stop>, previous: seq<Segment>, index: nat): (s: Segment)
    requires index + 1 < |pois|
  {
    var left, right, before := pois[index], pois[index + 1], PreviousAt(previous, index);
    NormalizeEditedJourneySegment(w, dayNumber, index, left, right,
                                  if SameStops(before, left, right) then before else NO_SEGMENT)
  }

  function EditedSegments(w: Wording, dayNumber: nat, pois: seq<Stop>, previous: seq<Segment>): (r: seq<Segment>) {
    seq(if pois == [] then 0 else |pois| - 1, i requires 0 <= i < |pois| - 1 => SegmentAt(w, dayNumber, pois, previous, i))
  }

  method BuildEditedJourneySegments(w: Wording, dayNumber: nat, pois: seq<Stop>, previousSegments: seq<Segment>)
    returns (segments: seq<Segment>)
    ensures segments == EditedSegments(w, dayNumber, pois, previousSegments)
    ensures Linked(pois, segments)
  {
    segments := [];
    var count := if |pois| > 1 then |pois| - 1 else 0;
    for index := 0 to count
      invariant |segments| == index
      invariant forall i | 0 <= i < index :: segments[i] == SegmentAt(w, dayNumber, pois, previousSegments, i)
    {
      var left := pois[index];
      var right := pois[index + 1];
      var previous := PreviousAt(previousSegments, index);
      var sameStops := SameStops(previous, left, right);
      var segment := NormalizeEditedJourneySegment(w, dayNumber, index, left, right, if sameStops then previous else NO_SEGMENT);
      assert segment == SegmentAt(w, dayNumber, pois, previousSegments, index);
      segments := segments + [segment];
    }
    BuiltIsEdited(w, dayNumber, pois, previousSegments, segments);
    RebuiltIsLinked(w, dayNumber, pois, previousSegments);
  }

  lemma BuiltIsEdited(w: Wording, dayNumber: nat, pois: seq<Stop>, previous: seq<Segment>, segments: seq<Segment>)
    requires |segments| == if pois == [] then 0 else |pois| - 1
    requires forall i | 0 <= i < |segments| :: segments[i] == SegmentAt(w, dayNumber, pois, previous, i)
    ensures segments == EditedSegments(w, dayNumber, pois, previous)
  {
    SameSeq(segments, EditedSegments(w, dayNumber, pois, previous));
  }

  // ---------- What a rebuild guarantees ----------

  /** One segment for every pair of neighbours, in order, with their ids and names. */
  predicate Linked(stops: seq<Stop>, segments: seq<Segment>) {
    && |segments| == (if stops == [] then 0 else |stops| - 1)
    && forall i | 0 <= i < |segments| ::
         && segments[i].place == i + 1
         && segments[i].fromId == stops[i].id && segments[i].toId == stops[i + 1].id
         && segments[i].fromName == stops[i].name && segments[i].toName == stops[i + 1].name
  }

  lemma RebuiltIsLinked(w: Wording, dayNumber: nat, stops: seq<Stop>, previous: seq<Segment>)
    ensures Linked(stops, EditedSegments(w, dayNumber, stops, previous))
  {}

  predicate FullyLabelled(s: Segment) {
    s.fromId != "" && s.toId != "" && s.fromName != "" && s.toName != ""
  }

  /** Choices and metrics of a rebuilt segment that are not just defaults. */
  predicate NothingChosen(s: Segment) {
    !s.locked && s.mode == s.selectedMode == "taxi" && s.distance == s.duration == UNCHECKED && s.source == ""
  }

  /**
    A previous segment with all its labels passes on its lock, mode and metrics when it ran between
    the same two stops, and nothing at all otherwise.
   */
  lemma ChoicesFollowTheStops(w: Wording, dayNumber: nat, stops: seq<Stop>, previous: seq<Segment>, i: nat)
    requires i + 1 < |stops| && i < |previous| && FullyLabelled(previous[i])
    ensures var p, s := previous[i], EditedSegments(w, dayNumber, stops, previous)[i];
      if p.fromId == s.fromId && p.toId == s.toId && p.fromName == s.fromName && p.toName == s.toName then
        && s.locked == p.locked && s.source == p.source
        && (p.mode != "" ==> s.mode == p.mode) && (p.selectedMode != "" ==> s.selectedMode == p.selectedMode)
        && (p.distance != "" ==> s.distance == p.distance) && (p.duration != "" ==> s.duration == p.duration)
      else NothingChosen(s)
  {
    assert EditedSegments(w, dayNumber, stops, previous)[i] == SegmentAt(w, dayNumber, stops, previous, i);
  }

  /** Rebuilding again only judges the route anew; ends, modes, locks, metrics and labels stay. */
  lemma RebuildTwice(w: Wording, dayNumber: nat, stops: seq<Stop>, previous: seq<Segment>, i: nat)
    requires i + 1 < |stops|
    ensures var once := EditedSegments(w, dayNumber, stops, previous);
      EditedSegments(w, dayNumber, stops, once)[i] == once[i].(status := w.routeStatus(once[i]))
  {}

  /** A label that a previous segment does not have is no hindrance: only a wrong one is. */
  lemma MissingLabelsAgree(w: Wording, dayNumber: nat, stops: seq<Stop>, previous: seq<Segment>, i: nat)
    requires i + 1 < |stops| && i < |previous|
    requires var p := previous[i];
      && (p.fromId == "" || p.fromId == stops[i].id) && (p.toId == "" || p.toId == stops[i + 1].id)
      && (p.fromName == "" || p.fromName == stops[i].name) && (p.toName == "" || p.toName == stops[i + 1].name)
    ensures var p, s := previous[i], EditedSegments(w, dayNumber, stops, previous)[i];
      s.locked == p.locked && s.source == p.source && (p.mode != "" ==> s.mode == p.mode) && (p.distance != "" ==> s.distance == p.distance)
  {
    assert EditedSegments(w, dayNumber, stops, previous)[i] == SegmentAt(w, dayNumber, stops, previous, i);
  }

  lemma WrongLabelForgets(w: Wording, dayNumber: nat, stops: seq<Stop>, previous: seq<Segment>, i: nat)
    requires i + 1 < |stops| && i < |previous|
    requires var p := previous[i];
      || (p.fromId != "" && p.fromId != stops[i].id) || (p.toId != "" && p.toId != stops[i + 1].id)
      || (p.fromName != "" && p.fromName != stops[i].name) || (p.toName != "" && p.toName != stops[i + 1].name)
    ensures NothingChosen(EditedSegments(w, dayNumber, stops, previous)[i])
  {
    assert EditedSegments(w, dayNumber, stops, previous)[i] == SegmentAt(w, dayNumber, stops, previous, i);
  }

  /** A rebuilt segment says something everywhere: of two modes one stands in for the other, and what is unknown is unchecked. */
  lemma SegmentsAreFilledIn(w: Wording, dayNumber: nat, stops: seq<Stop>, previous: seq<Segment>, i: nat)
    requires i + 1 < |stops|
    ensures var s := EditedSegments(w, dayNumber, stops, previous)[i];
      && s.dayNumber == dayNumber
      && s.mode != "" && s.selectedMode != "" && s.distance != "" && s.duration != ""
      && s.confidence != "" && s.statusLabel != "" && s.note != ""
  {
    assert EditedSegments(w, dayNumber, stops, previous)[i] == SegmentAt(w, dayNumber, stops, previous, i);
  }

  lemma OneModeIsBoth(w: Wording, dayNumber: nat, index: nat, left: Stop, right: Stop, base: Segment)
    ensures var s := NormalizeEditedJourneySegment(w, dayNumber, index, left, right, base);
      && (base.mode == "" && base.selectedMode != "" ==> s.mode == s.selectedMode == base.selectedMode)
      && (base.selectedMode == "" && base.mode != "" ==> s.mode == s.selectedMode == base.mode)
      && s.status == w.routeStatus(base)
      && (base.statusLabel == "" ==>
            && (s.statusLabel == "已核验" <==> s.status == "verified") && (s.statusLabel == "估算" <==> s.status == "estimated"))
  {}
}
