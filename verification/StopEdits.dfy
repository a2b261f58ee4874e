/** Where each action on a stop leaves the stops of all days. */
module StopEdits {
  import opened Text
  import opened Journey
  import opened RouteOptimizer
  import opened JourneySegments
  import opened PoiCatalogue
  import opened JourneyDraft
  import opened JourneyEditor
  import opened EditorRuns

  /** The same days in the same order, under the same keys. */
  predicate SameKeys(before: seq<DayPlan>, after: seq<DayPlan>) {
    |after| == |before| &&
    forall e | 0 <= e < |before| ::
      after[e].key == before[e].key && after[e].dayNumber == before[e].dayNumber && after[e].city == before[e].city
  }

  /** Day `d` has these stops now, and every other day its old ones. */
  predicate OnlyDayBecame(before: seq<DayPlan>, after: seq<DayPlan>, d: nat, stops: seq<Stop>) {
    && SameKeys(before, after) && d < |before| && after[d].stops == stops
    && forall e | 0 <= e < |before| && e != d :: after[e].stops == before[e].stops
  }

  /** Place `i` has this stop now, and every other place of every day its old one. */
  predicate OnlyPlaceBecame(before: seq<DayPlan>, after: seq<DayPlan>, d: nat, i: nat, stop: Stop) {
    && SameKeys(before, after) && d < |before| && i < |before[d].stops| && |after[d].stops| == |before[d].stops|
    && after[d].stops[i] == stop
    && (forall k | 0 <= k < |before[d].stops| && k != i :: after[d].stops[k] == before[d].stops[k])
    && (forall e | 0 <= e < |before| && e != d :: after[e].stops == before[e].stops)
  }

  predicate StopOf(page: Page, key: string, d: nat, i: nat) {
    FindPlan(page.plans, key) == Some(d) && i < |page.plans[d].stops|
  }

  lemma CommitShows(w: Wording, canSave: bool, page: Page, action: Action, p: seq<DayPlan>)
    requires Edit(w, page.plans, GetJourneyPoiPool(page.journey), action) == Commit(p)
    ensures var after := Step(w, canSave, page, action).plans;
      SameKeys(p, after) && forall e | 0 <= e < |p| :: after[e].stops == p[e].stops
  {}

  // ---------- Moving a stop ----------

  /** Up: the stop and the one before it change places. */
  lemma UpSwaps(w: Wording, canSave: bool, page: Page, key: string, d: nat, i: nat)
    requires StopOf(page, key, d, i) && i > 0
    ensures var stops := page.plans[d].stops;
      OnlyDayBecame(page.plans, Step(w, canSave, page, OnStop(key, i, Up)).plans, d,
                    stops[..i - 1] + [stops[i], stops[i - 1]] + stops[i + 1..])
  {
    var stops := page.plans[d].stops;
    var moved := Swapped(stops, i - 1, i);
    CommitShows(w, canSave, page, OnStop(key, i, Up), WithStops(page.plans, d, moved));
    assert moved == stops[..i - 1] + [stops[i], stops[i - 1]] + stops[i + 1..];
  }

  /** Down: the stop and the one behind it change places. */
  lemma DownSwaps(w: Wording, canSave: bool, page: Page, key: string, d: nat, i: nat)
    requires StopOf(page, key, d, i) && i + 1 < |page.plans[d].stops|
    ensures var stops := page.plans[d].stops;
      OnlyDayBecame(page.plans, Step(w, canSave, page, OnStop(key, i, Down)).plans, d,
                    stops[..i] + [stops[i + 1], stops[i]] + stops[i + 2..])
  {
    var stops := page.plans[d].stops;
    var moved := Swapped(stops, i, i + 1);
    CommitShows(w, canSave, page, OnStop(key, i, Down), WithStops(page.plans, d, moved));
    assert moved == stops[..i] + [stops[i + 1], stops[i]] + stops[i + 2..];
  }

  /** The stop has left day `d` and stands at the end of day `t`; all other days keep their stops. */
  predicate MovedTo(before: seq<DayPlan>, after: seq<DayPlan>, d: nat, i: nat, t: nat) {
    && SameKeys(before, after) && d < |before| && t < |before| && i < |before[d].stops|
    && after[t].stops == before[t].stops + [before[d].stops[i]]
    && after[d].stops == before[d].stops[..i] + before[d].stops[i + 1..]
    && forall e | 0 <= e < |before| && e != d && e != t :: after[e].stops == before[e].stops
  }

  /** Previous day: the stop goes to the end of the day before. */
  lemma PrevDayMoves(w: Wording, canSave: bool, page: Page, key: string, d: nat, i: nat)
    requires StopOf(page, key, d, i) && d > 0 && |page.plans[d].stops| >= 2
    ensures MovedTo(page.plans, Step(w, canSave, page, OnStop(key, i, PrevDay)).plans, d, i, d - 1)
  {}

  /** Next day: the stop goes to the end of the day behind. */
  lemma NextDayMoves(w: Wording, canSave: bool, page: Page, key: string, d: nat, i: nat)
    requires StopOf(page, key, d, i) && d + 1 < |page.plans| && |page.plans[d].stops| >= 2
    ensures MovedTo(page.plans, Step(w, canSave, page, OnStop(key, i, NextDay)).plans, d, i, d + 1)
  {}

  /** Delete: the stop is taken out, and those behind it move up. */
  lemma DeleteRemoves(w: Wording, canSave: bool, page: Page, key: string, d: nat, i: nat)
    requires StopOf(page, key, d, i) && |page.plans[d].stops| >= 2
    ensures var stops := page.plans[d].stops;
      OnlyDayBecame(page.plans, Step(w, canSave, page, OnStop(key, i, Delete)).plans, d, stops[..i] + stops[i + 1..])
  {}

  /** Optimize: the day has its optimized order, and all other days keep their stops; without a change there is a remark only. */
  lemma OptimizeShows(w: Wording, canSave: bool, page: Page, key: string, d: nat)
    requires FindPlan(page.plans, key) == Some(d)
    ensures OnlyDayBecame(page.plans, Step(w, canSave, page, OptimizeDay(key)).plans, d, OptimizedDay(page.plans[d].stops))
    ensures var outcome := Edit(w, page.plans, GetJourneyPoiPool(page.journey), OptimizeDay(key));
      if OptimizedDay(page.plans[d].stops) == page.plans[d].stops then outcome.Remark? else outcome.Commit?
  {}

  // ---------- Changing a stop ----------

  /** Everything but the lock is as before. */
  predicate SamePlace(s: Stop, t: Stop) {
    && s.id == t.id && s.name == t.name && s.city == t.city && s.kind == t.kind && s.kindLabel == t.kindLabel
    && s.lat == t.lat && s.lng == t.lng && s.mapVerified == t.mapVerified && s.estimated == t.estimated
  }

  /** The lock of this one stop changes, and nothing else of any stop. */
  lemma LockToggles(w: Wording, canSave: bool, page: Page, key: string, d: nat, i: nat)
    requires StopOf(page, key, d, i)
    ensures var before, after := page.plans, Step(w, canSave, page, OnStop(key, i, ToggleLock)).plans;
      && OnlyPlaceBecame(before, after, d, i, after[d].stops[i]) && SamePlace(before[d].stops[i], after[d].stops[i])
      && after[d].stops[i].locked == !before[d].stops[i].locked
      && after[d].stops[i].timeRange == before[d].stops[i].timeRange
      && after[d].stops[i].duration == before[d].stops[i].duration
  {}

  /** The time and the duration of this one stop are those that were typed; nothing typed empties them. */
  lemma TimeIsSaved(w: Wording, canSave: bool, page: Page, key: string, d: nat, i: nat, time: string, minutes: Minutes)
    requires StopOf(page, key, d, i) && !minutes.Invalid? && (time != "" || !minutes.Empty?)
    ensures var before, after := page.plans, Step(w, canSave, page, OnStop(key, i, SaveTime(time, minutes))).plans;
      && OnlyPlaceBecame(before, after, d, i, after[d].stops[i]) && SamePlace(before[d].stops[i], after[d].stops[i])
      && after[d].stops[i].locked == before[d].stops[i].locked
      && after[d].stops[i].timeRange == time
      && (minutes.Empty? ==> after[d].stops[i].duration == "")
      && (minutes.Minutes? ==> after[d].stops[i].duration == minutes.text)
  {}

  /** The stop is replaced by a place of the pool that scores highest among those that may replace it. */
  lemma BestTakesOver(w: Wording, canSave: bool, page: Page, key: string, d: nat, i: nat) returns (best: Stop)
    requires StopOf(page, key, d, i)
    requires exists p :: p in GetJourneyPoiPool(page.journey) && CanReplace(w, page.plans, page.plans[d].stops[i], p)
    ensures var pool, stop, city := GetJourneyPoiPool(page.journey), page.plans[d].stops[i], page.plans[d].city;
      var before, after := page.plans, Step(w, canSave, page, OnStop(key, i, Replace)).plans;
      && best in pool && CanReplace(w, before, stop, best)
      && (forall p | p in pool && CanReplace(w, before, stop, p) ::
            ReplacementScore(w, stop, city, p) <= ReplacementScore(w, stop, city, best))
      && OnlyPlaceBecame(before, after, d, i, after[d].stops[i])
      && after[d].stops[i].id == best.id && after[d].stops[i].name == best.name
      && after[d].stops[i].locked == (best.locked || stop.locked)
  {
    BestReplacement(w, GetJourneyPoiPool(page.journey), page.plans, page.plans[d].stops[i], page.plans[d].city);
    best := ReplacementCandidates(w, GetJourneyPoiPool(page.journey), page.plans, page.plans[d].stops[i], page.plans[d].city)[0];
  }

  /** After any committed action the segments carry the number of their day, and 1 for a day without a number. */
  lemma SegmentsAreNumbered(w: Wording, canSave: bool, page: Page, action: Action, e: nat, j: nat)
    requires Edit(w, page.plans, GetJourneyPoiPool(page.journey), action).Commit?
    requires var after := Step(w, canSave, page, action).plans; e < |after| && j < |after[e].segments|
    ensures var day := Step(w, canSave, page, action).plans[e];
      day.segments[j].dayNumber == (if day.dayNumber == 0 then 1 else day.dayNumber) && day.segments[j].place == j + 1
  {
    var p := Edit(w, page.plans, GetJourneyPoiPool(page.journey), action).plans;
    SegmentsAreFilledIn(w, DayOr(p[e].dayNumber, 1), p[e].stops, p[e].segments, j);
    RebuiltIsLinked(w, DayOr(p[e].dayNumber, 1), p[e].stops, p[e].segments);
  }

  // ---------- When nothing happens ----------

  /** Exactly the clicks that change no stop: the first three are answered by a remark, the last four by nothing. */
  lemma NothingHappensIff(w: Wording, page: Page, key: string, d: nat, i: nat, action: StopAction)
    requires StopOf(page, key, d, i)
    ensures var pool, stops, last := GetJourneyPoiPool(page.journey), page.plans[d].stops, |page.plans| - 1;
      var outcome := Edit(w, page.plans, pool, OnStop(key, i, action));
      && (outcome.Remark? <==>
            || (|stops| == 1 && (action.Delete? || action.PrevDay? || action.NextDay?))
            || (action.SaveTime? && (action.minutes.Invalid? || (action.time == "" && action.minutes.Empty?)))
            || (action.Replace? && forall p | p in pool :: !CanReplace(w, page.plans, stops[i], p)))
      && (outcome.Ignored? <==>
            || (action.Up? && i == 0) || (action.Down? && i == |stops| - 1)
            || (action.PrevDay? && |stops| > 1 && d == 0) || (action.NextDay? && |stops| > 1 && d == last))
      && (!outcome.Commit? ==> forall canSave :: Step(w, canSave, page, OnStop(key, i, action)) == page)
  {
    BestReplacement(w, GetJourneyPoiPool(page.journey), page.plans, page.plans[d].stops[i], page.plans[d].city);
  }

  /** A click on a day or at a place that is not there does nothing. */
  lemma MissingPlace(w: Wording, canSave: bool, page: Page, key: string, i: int, action: StopAction)
    requires var d := FindPlan(page.plans, key); d.None? || i < 0 || i >= |page.plans[d.value].stops|
    ensures Step(w, canSave, page, OnStop(key, i, action)) == page
  {}

  /** Actions on a segment of a day are committed exactly if the segment is there; they change no stop. */
  lemma SegmentIsThere(w: Wording, canSave: bool, page: Page, key: string, i: int, mode: string)
    ensures var pool, d := GetJourneyPoiPool(page.journey), FindPlan(page.plans, key);
      var there := d.Some? && 0 <= i < |page.plans[d.value].segments|;
      var select, lock := SelectSegmentMode(key, i, mode), ToggleSegmentLock(key, i);
      && (if there then Edit(w, page.plans, pool, select).Commit? else Edit(w, page.plans, pool, select).Ignored?)
      && (if there then Edit(w, page.plans, pool, lock).Commit? else Edit(w, page.plans, pool, lock).Ignored?)
      && (forall e | 0 <= e < |page.plans| ::
            && Step(w, canSave, page, select).plans[e].stops == page.plans[e].stops
            && Step(w, canSave, page, lock).plans[e].stops == page.plans[e].stops)
  {}

  // ---------- Adding a place ----------

  /** What the page asks for: a place with this id, or one with this name. */
  predicate AskedFor(w: Wording, poiId: string, foldedName: string, p: Stop) {
    (poiId != "" && p.id == poiId) || (foldedName != "" && w.foldName(p.name) == foldedName)
  }

  /** The first candidate that was asked for is taken. */
  lemma {:induction false} FirstAskedFor(w: Wording, candidates: seq<Stop>, poiId: string, foldedName: string)
    ensures match FindCandidate(w, candidates, poiId, foldedName)
      case None => forall p | p in candidates :: !AskedFor(w, poiId, foldedName, p)
      case Some(c) =>
        exists k :: 0 <= k < |candidates| && candidates[k] == c && AskedFor(w, poiId, foldedName, c)
                    && forall j | 0 <= j < k :: !AskedFor(w, poiId, foldedName, candidates[j])
  {
    if candidates != [] && !AskedFor(w, poiId, foldedName, candidates[0]) {
      FirstAskedFor(w, candidates[1..], poiId, foldedName);
      var c := FindCandidate(w, candidates[1..], poiId, foldedName);
      if c.Some? {
        var k :| 0 <= k < |candidates| - 1 && candidates[1..][k] == c.value
          && forall j | 0 <= j < k :: !AskedFor(w, poiId, foldedName, candidates[1..][j]);
        assert candidates[k + 1] == c.value;
        assert forall j | 1 <= j < k + 1 :: candidates[j] == candidates[1..][j - 1];
      }
    }
  }

  /** Some stop of the plan has the id or the folded name of the place. */
  predicate AlreadyThere(w: Wording, plans: seq<DayPlan>, p: Stop) {
    exists d, i :: 0 <= d < |plans| && 0 <= i < |plans[d].stops| && IsSameStop(w, p, plans[d].stops[i])
  }

  predicate IsSameStop(w: Wording, p: Stop, s: Stop) {
    (p.id != "" && s.id == p.id) || (w.foldName(p.name) != "" && w.foldName(s.name) == w.foldName(p.name))
  }

  lemma {:induction false} StopOfPlan(plans: seq<DayPlan>, s: Stop)
    ensures s in AllStops(plans) <==> exists d :: 0 <= d < |plans| && s in plans[d].stops
  {
    if plans != [] {
      StopOfPlan(plans[1..], s);
      if s in AllStops(plans[1..]) {
        var d :| 0 <= d < |plans| - 1 && s in plans[1..][d].stops;
        assert s in plans[d + 1].stops;
      }
      if d :| 0 <= d < |plans| && s in plans[d].stops {
        assert d > 0 ==> s in plans[1..][d - 1].stops;
      }
    }
  }

  lemma AlreadyThereIff(w: Wording, plans: seq<DayPlan>, p: Stop)
    ensures HasDuplicateStop(w, plans, p) <==> AlreadyThere(w, plans, p)
  {
    if HasDuplicateStop(w, plans, p) {
      var s :| s in AllStops(plans) && IsSameStop(w, p, s);
      StopOfPlan(plans, s);
      var d :| 0 <= d < |plans| && s in plans[d].stops;
      var i :| 0 <= i < |plans[d].stops| && plans[d].stops[i] == s;
    }
    if AlreadyThere(w, plans, p) {
      var d, i :| 0 <= d < |plans| && 0 <= i < |plans[d].stops| && IsSameStop(w, p, plans[d].stops[i]);
      StopOfPlan(plans, plans[d].stops[i]);
    }
  }

  /**
    Asking for a place adds it exactly if a candidate was asked for and no stop of the plan has its id
    or its folded name; then it stands at the end of the day, and no other place changes.
   */
  lemma AddAppends(w: Wording, canSave: bool, page: Page, key: string, d: nat, poiId: string, poiName: string)
    requires FindPlan(page.plans, key) == Some(d)
    ensures var before, after := page.plans, Step(w, canSave, page, AddPending(key, poiId, poiName)).plans;
      var outcome := Edit(w, before, GetJourneyPoiPool(page.journey), AddPending(key, poiId, poiName));
      var c := FindCandidate(w, PendingCandidates(w, GetJourneyPoiPool(page.journey), before), poiId, w.foldName(poiName));
      && (outcome.Commit? <==> c.Some? && !AlreadyThere(w, before, c.value))
      && (!outcome.Commit? ==> outcome.Remark? && after == before)
      && (outcome.Commit? ==>
            && |after| == |before| && |after[d].stops| == |before[d].stops| + 1
            && OnlyDayBecame(before, after, d, before[d].stops + [after[d].stops[|before[d].stops|]])
            && var added := after[d].stops[|before[d].stops|];
               && added.id == c.value.id && added.name == c.value.name
               && added.city == (if c.value.city != "" then c.value.city else before[d].city))
  {
    var pool := GetJourneyPoiPool(page.journey);
    var c := FindCandidate(w, PendingCandidates(w, pool, page.plans), poiId, w.foldName(poiName));
    if c.Some? {
      var added := NormalizeJourneyPoiAsStop(c.value, NoStop().(city := page.plans[d].city));
      AlreadyThereIff(w, page.plans, added);
      assert forall s :: IsSameStop(w, added, s) == IsSameStop(w, c.value, s);
    }
  }
}
