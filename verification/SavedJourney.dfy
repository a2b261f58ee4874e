/** What a save writes into the days and the catalogue of the journey. */
module SavedJourney {
  import opened Text
  import opened Journey
  import opened JourneySegments
  import opened PoiCatalogue
  import opened JourneyDraft
  import opened EditResults

  predicate HasPlan(plans: seq<DayPlan>, day: JourneyDay, d: nat) {
    FindPlan(plans, PlanKey(day)) == Some(d)
  }

  // ---------- Days ----------

  /** Days keep their number and city; one without a plan stays as it is. */
  lemma SavedDays(w: Wording, original: JourneyData, plans: seq<DayPlan>, e: nat)
    requires e < |original.days|
    ensures var saved := BuildJourneyData(w, original, plans);
      && |saved.days| == |original.days|
      && saved.days[e].dayNumber == original.days[e].dayNumber && saved.days[e].city == original.days[e].city
      && ((forall p | p in plans :: p.key != PlanKey(original.days[e])) ==> saved.days[e] == original.days[e])
  {}

  /** The first plan with the key of the day is the one that is written. */
  lemma {:induction false} FindPlanIsFirst(plans: seq<DayPlan>, key: string)
    ensures match FindPlan(plans, key)
      case None => forall d | 0 <= d < |plans| :: plans[d].key != key
      case Some(d) => plans[d].key == key && forall c | 0 <= c < d :: plans[c].key != key
  {
    if plans != [] && plans[0].key != key {
      FindPlanIsFirst(plans[1..], key);
    }
  }

  /** The key of a plan: the number of the day behind a fixed text, and day 1 for a day without a number. */
  lemma PlanKeyOf(day: JourneyDay)
    ensures PlanKey(day) == "visual-day-" + Decimal(if day.dayNumber == 0 then 1 else day.dayNumber)
  {}

  // ---------- Places ----------

  /** A place of a saved day is the stop of the plan: its texts, flags, numbers and lock. */
  predicate IsSavedFrom(day: JourneyDay, s: Stop, q: Stop) {
    && (s.id != "" ==> q.id == s.id) && q.name == s.name && q.locked == s.locked
    && (if s.city != "" then q.city == s.city else q.city == day.city)
    && (s.kind != "" ==> q.kind == s.kind) && (s.kindLabel != "" ==> q.kindLabel == s.kindLabel)
    && q.timeRange == s.timeRange && q.duration == s.duration
    && (if s.lat.Number? then q.lat == s.lat else q.lat == Null)
    && (if s.lng.Number? then q.lng == s.lng else q.lng == Null)
    && q.mapVerified == s.mapVerified && q.estimated == s.estimated
  }

  lemma SavedPlaces(w: Wording, original: JourneyData, plans: seq<DayPlan>, e: nat, d: nat, i: nat)
    requires e < |original.days| && HasPlan(plans, original.days[e], d) && i < |plans[d].stops|
    ensures var pois := BuildJourneyData(w, original, plans).days[e].pois;
      |pois| == |plans[d].stops| && IsSavedFrom(original.days[e], plans[d].stops[i], pois[i])
  {}

  /** A place that no saved day has stays in its list, as it is. */
  lemma {:induction false} InactiveStays(pois: seq<Stop>, ids: set<string>, q: Stop)
    ensures q in WithoutIds(pois, ids) <==> q in pois && (q.id == "" || q.id !in ids)
  {
    if pois != [] {
      InactiveStays(pois[1..], ids, q);
    }
  }

  /** `pois` is the places of the days, and behind them the old places that no day has. */
  lemma SavedCatalogue(w: Wording, original: JourneyData, plans: seq<DayPlan>, q: Stop)
    ensures var saved := BuildJourneyData(w, original, plans);
      var active := PoisOfDays(saved.days);
      var isActive := q.id != "" && exists p :: p in active && p.id == q.id;
      && active <= saved.pois
      && (q in saved.pois <==> q in active || (q in original.pois && !isActive))
      && (q in saved.alternatives <==> q in original.alternatives && !isActive)
  {
    var active := PoisOfDays(DraftDays(w, plans, original.days));
    InactiveStays(original.pois, IdsOf(active), q);
    InactiveStays(original.alternatives, IdsOf(active), q);
  }

  // ---------- Segments ----------

  lemma KeepsTwice(a: Segment, b: Segment, c: Segment)
    requires KeepsGiven(a, b) && KeepsGiven(b, c)
    ensures KeepsGiven(a, c)
  {}

  /** A saved place agrees with the label that its stop gives to a segment. */
  lemma SavedEndsAgree(w: Wording, n: nat, stops: seq<Stop>, day: JourneyDay, segments: seq<Segment>, j: nat)
    requires j + 1 < |stops|
    ensures var once := EditedSegments(w, n, stops, segments);
      SameStops(once[j], DraftPois(stops, day)[j], DraftPois(stops, day)[j + 1])
  {
    RebuiltIsLinked(w, n, stops, segments);
  }

  /** The segments of a saved day have its number, and the choices that the plan has for the same stops. */
  lemma SavedSegmentsKeep(w: Wording, original: JourneyData, plans: seq<DayPlan>, e: nat, d: nat, j: nat)
    requires e < |original.days| && HasPlan(plans, original.days[e], d)
    requires j + 1 < |plans[d].stops| && j < |plans[d].segments|
    requires SameStops(plans[d].segments[j], plans[d].stops[j], plans[d].stops[j + 1])
    ensures var saved := BuildJourneyData(w, original, plans).days[e].segments;
      && |saved| == |plans[d].stops| - 1 && KeepsGiven(plans[d].segments[j], saved[j])
      && saved[j].dayNumber == DayOr(original.days[e].dayNumber, DayOr(plans[d].dayNumber, 1))
  {
    var n, stops := DayOr(plans[d].dayNumber, 1), plans[d].stops;
    var m := DayOr(original.days[e].dayNumber, n);
    var once := EditedSegments(w, n, stops, plans[d].segments);
    var pois := DraftPois(stops, original.days[e]);
    SameEndsKeepChoices(w, n, stops, plans[d].segments, j);
    SavedEndsAgree(w, n, stops, original.days[e], plans[d].segments, j);
    SameEndsKeepChoices(w, m, pois, once, j);
    KeepsTwice(plans[d].segments[j], once[j], EditedSegments(w, m, pois, once)[j]);
  }

  /** ... and no choice at all where the plan has a segment that is labelled with other stops. */
  lemma SavedSegmentsForget(w: Wording, original: JourneyData, plans: seq<DayPlan>, e: nat, d: nat, j: nat)
    requires e < |original.days| && HasPlan(plans, original.days[e], d)
    requires j + 1 < |plans[d].stops| && j < |plans[d].segments| && FullyLabelled(plans[d].segments[j])
    requires var s, stops := plans[d].segments[j], plans[d].stops; s.fromId != stops[j].id || s.toId != stops[j + 1].id
    ensures NothingChosen(BuildJourneyData(w, original, plans).days[e].segments[j])
  {
    var n, stops := DayOr(plans[d].dayNumber, 1), plans[d].stops;
    var m := DayOr(original.days[e].dayNumber, n);
    var once := EditedSegments(w, n, stops, plans[d].segments);
    OtherEndsChooseNothing(w, n, stops, plans[d].segments, j);
    SavedEndsAgree(w, n, stops, original.days[e], plans[d].segments, j);
    SameEndsKeepChoices(w, m, DraftPois(stops, original.days[e]), once, j);
  }
}
