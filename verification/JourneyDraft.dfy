/** Writing an edited plan back into the saved journey (frontend/app.js). */
module JourneyDraft {
  import opened Text
  import opened Journey
  import opened JourneySegments
  import opened PoiCatalogue

  function FindPlan(plans: seq<DayPlan>, key: string): (i: Option<nat>)
    ensures i.Some? ==> i.value < |plans| && plans[i.value].key == key
    ensures i.None? ==> forall p | p in plans :: p.key != key
  {
    if plans == [] then None
    else if plans[0].key == key then Some(0)
    else
      match FindPlan(plans[1..], key)
      case None => None
      case Some(i) => Some(i + 1)
  }

  /** `n || 1`. */
  function DayOr(n: nat, fallback: nat): (d: nat) {
    if n != 0 then n else fallback
  }

  function PlanKey(day: JourneyDay): (key: string) {
    "visual-day-" + Decimal(DayOr(day.dayNumber, 1))
  }

  /** The id that is made up at place `index` of a day. */
  function MadeUpId(day: JourneyDay, index: nat): (id: string)
    ensures id != ""
  {
    "d" + Decimal(DayOr(day.dayNumber, 1)) + "-p" + Decimal(index + 1)
  }

  function DraftId(stop: Stop, day: JourneyDay, index: nat): (id: string)
    ensures id != ""
    ensures stop.id != "" ==> id == stop.id
  {
    Or(stop.id, MadeUpId(day, index))
  }

  function DraftPoi(stop: Stop, day: JourneyDay, index: nat): (poi: Stop) {
    NormalizeJourneyPoiAsStop(stop, NoStop().(city := day.city)).(id := DraftId(stop, day, index), locked := stop.locked)
  }

  function DraftPois(stops: seq<Stop>, day: JourneyDay): (pois: seq<Stop>) {
    seq(|stops|, i requires 0 <= i < |stops| => DraftPoi(stops[i], day, i))
  }

  function DraftDay(w: Wording, plans: seq<DayPlan>, day: JourneyDay): (d: JourneyDay) {
    match FindPlan(plans, PlanKey(day))
    case None => day
    case Some(i) =>
      var plan := plans[i];
      var segments := EditedSegments(w, DayOr(plan.dayNumber, 1), plan.stops, plan.segments);
      var pois := DraftPois(plan.stops, day);
      day.(pois := pois,
           segments := EditedSegments(w, DayOr(day.dayNumber, DayOr(plan.dayNumber, 1)), pois, segments))
  }

  function DraftDays(w: Wording, plans: seq<DayPlan>, days: seq<JourneyDay>): (r: seq<JourneyDay>) {
    seq(|days|, i requires 0 <= i < |days| => DraftDay(w, plans, days[i]))
  }

  function PoisOfDays(days: seq<JourneyDay>): (pois: seq<Stop>) {
    if days == [] then [] else days[0].pois + PoisOfDays(days[1..])
  }

  /** `pois.filter((poi) => !poi.id || !activeIds.has(poi.id))`. */
  function WithoutIds(pois: seq<Stop>, ids: set<string>): (r: seq<Stop>) {
    if pois == [] then []
    else (if pois[0].id == "" || pois[0].id !in ids then [pois[0]] else []) + WithoutIds(pois[1..], ids)
  }

  function BuildJourneyData(w: Wording, original: JourneyData, plans: seq<DayPlan>): (journey: JourneyData) {
    var days := DraftDays(w, plans, original.days);
    var active := PoisOfDays(days);
    JourneyData(days, active + WithoutIds(original.pois, IdsOf(active)), WithoutIds(original.alternatives, IdsOf(active)))
  }

  // ---------- Counting ids ----------

  function IdCount(stops: seq<Stop>, id: string): (n: nat) {
    if stops == [] then 0 else (if stops[0].id == id then 1 else 0) + IdCount(stops[1..], id)
  }

  predicate HasId(stops: seq<Stop>, id: string) {
    IdCount(stops, id) > 0
  }

  /** No two places share an id, places without one aside. */
  ghost predicate DistinctIds(stops: seq<Stop>) {
    forall id :: id != "" ==> IdCount(stops, id) <= 1
  }

  lemma {:induction false} IdCountAppend(a: seq<Stop>, b: seq<Stop>, id: string)
    ensures IdCount(a + b, id) == IdCount(a, id) + IdCount(b, id)
  {
    if a == [] {
      assert a + b == b;
    } else {
      assert (a + b)[1..] == a[1..] + b;
      IdCountAppend(a[1..], b, id);
    }
  }

  lemma {:induction false} HasIdIff(stops: seq<Stop>, id: string)
    ensures HasId(stops, id) <==> exists s :: s in stops && s.id == id
  {
    if stops != [] {
      HasIdIff(stops[1..], id);
      assert stops[0] in stops;
      assert forall s | s in stops[1..] :: s in stops;
    }
  }

  lemma {:induction false} WithoutIdsCount(pois: seq<Stop>, ids: set<string>, id: string)
    requires id != ""
    ensures IdCount(WithoutIds(pois, ids), id) == if id in ids then 0 else IdCount(pois, id)
  {
    if pois != [] {
      var rest := WithoutIds(pois[1..], ids);
      WithoutIdsCount(pois[1..], ids, id);
      assert ([pois[0]] + rest)[1..] == rest;
      assert [] + rest == rest;
    }
  }

  /** How often an id occurs in the new catalogue. */
  lemma SavedCount(w: Wording, original: JourneyData, plans: seq<DayPlan>, id: string)
    requires id != ""
    ensures var saved := BuildJourneyData(w, original, plans);
      var active := IdCount(PoisOfDays(saved.days), id);
      && IdCount(saved.pois, id) == (if active > 0 then active else IdCount(original.pois, id))
      && IdCount(saved.alternatives, id) == (if active > 0 then 0 else IdCount(original.alternatives, id))
  {
    var active := PoisOfDays(DraftDays(w, plans, original.days));
    IdCountAppend(active, WithoutIds(original.pois, IdsOf(active)), id);
    WithoutIdsCount(original.pois, IdsOf(active), id);
    WithoutIdsCount(original.alternatives, IdsOf(active), id);
    HasIdIff(active, id);
  }

  // ---------- What a save keeps ----------

  predicate Knows(journey: JourneyData, id: string) {
    HasId(journey.pois, id) || HasId(journey.alternatives, id)
  }

  /** No known id is ever forgotten. */
  lemma SaveKeepsIds(w: Wording, original: JourneyData, plans: seq<DayPlan>, id: string)
    requires id != "" && Knows(original, id)
    ensures Knows(BuildJourneyData(w, original, plans), id)
  {
    SavedCount(w, original, plans, id);
  }

  /** Active ids are in `pois` and not in `alternative_pois`. */
  ghost predicate InSync(journey: JourneyData) {
    forall id :: id != "" && HasId(PoisOfDays(journey.days), id) ==>
      HasId(journey.pois, id) && !HasId(journey.alternatives, id)
  }

  lemma SaveIsInSync(w: Wording, original: JourneyData, plans: seq<DayPlan>)
    ensures InSync(BuildJourneyData(w, original, plans))
  {
    var saved := BuildJourneyData(w, original, plans);
    forall id | id != "" && HasId(PoisOfDays(saved.days), id)
      ensures HasId(saved.pois, id) && !HasId(saved.alternatives, id)
    {
      SavedCount(w, original, plans, id);
    }
  }

  lemma {:induction false} DayPoisAreActive(days: seq<JourneyDay>, d: nat, p: Stop)
    requires d < |days| && p in days[d].pois
    ensures p in PoisOfDays(days)
  {
    if d > 0 {
      DayPoisAreActive(days[1..], d - 1, p);
    }
  }

  /** Every stop of a plan that a day of the journey shows is known afterwards, under its own id. */
  lemma PlannedStopsAreSaved(w: Wording, original: JourneyData, plans: seq<DayPlan>, d: nat, i: nat)
    requires d < |original.days|
    requires var plan := FindPlan(plans, PlanKey(original.days[d]));
      plan.Some? && i < |plans[plan.value].stops| && plans[plan.value].stops[i].id != ""
    ensures var saved := BuildJourneyData(w, original, plans);
      var id := plans[FindPlan(plans, PlanKey(original.days[d])).value].stops[i].id;
      HasId(saved.pois, id) && !HasId(saved.alternatives, id)
  {
    var saved := BuildJourneyData(w, original, plans);
    var stops := plans[FindPlan(plans, PlanKey(original.days[d])).value].stops;
    var poi := DraftPoi(stops[i], original.days[d], i);
    assert saved.days[d].pois[i] == poi;
    DayPoisAreActive(saved.days, d, poi);
    HasIdIff(PoisOfDays(saved.days), poi.id);
    SavedCount(w, original, plans, poi.id);
  }

  /** Ids stay distinct in `pois` exactly when the active ids are distinct and the inactive ones were. */
  lemma SavedIdsDistinctIff(w: Wording, original: JourneyData, plans: seq<DayPlan>)
    ensures var saved := BuildJourneyData(w, original, plans);
      var active := PoisOfDays(saved.days);
      DistinctIds(saved.pois) <==>
        DistinctIds(active) && forall id :: id != "" && !HasId(active, id) ==> IdCount(original.pois, id) <= 1
  {
    var saved := BuildJourneyData(w, original, plans);
    forall id | id != ""
      ensures IdCount(saved.pois, id) ==
        (if HasId(PoisOfDays(saved.days), id) then IdCount(PoisOfDays(saved.days), id) else IdCount(original.pois, id))
    {
      SavedCount(w, original, plans, id);
    }
  }

  lemma FirstDayTexts(day: JourneyDay)
    requires day.dayNumber == 1
    ensures PlanKey(day) == "visual-day-1" && MadeUpId(day, 1) == "d1-p2"
  {
    assert Decimal(1) == "1" && Decimal(2) == "2";
    assert "visual-day-" + "1" == "visual-day-1" && "d" + "1" + "-p" + "2" == "d1-p2";
  }

  /**
    Different stops of a plan can get the same id: the one made up for a stop without an id may be
    the id of another stop.
   */
  lemma MadeUpIdClashes(w: Wording)
    ensures var named, unnamed := NoStop().(id := "d1-p2"), NoStop();
      var plans := [DayPlan("visual-day-1", 1, "", [named, unnamed], [])];
      var original := JourneyData([JourneyDay(1, "", [], [])], [], []);
      && DistinctIds(AllStops(plans)) && DistinctIds(original.pois)
      && !DistinctIds(BuildJourneyData(w, original, plans).pois)
  {
    var named, unnamed := NoStop().(id := "d1-p2"), NoStop();
    var plans := [DayPlan("visual-day-1", 1, "", [named, unnamed], [])];
    var day := JourneyDay(1, "", [], []);
    var original := JourneyData([day], [], []);
    assert plans[1..] == [] && AllStops(plans) == [named, unnamed];
    forall id | id != ""
      ensures IdCount(AllStops(plans), id) <= 1
    {
      TwoStopsCount(named, unnamed, id);
    }
    FirstDayTexts(day);
    assert FindPlan(plans, PlanKey(day)) == Some(0);
    var pois := DraftPois([named, unnamed], day);
    assert pois == [DraftPoi(named, day, 0), DraftPoi(unnamed, day, 1)];
    assert pois[0].id == pois[1].id == "d1-p2";
    TwoStopsCount(pois[0], pois[1], "d1-p2");
    var days := DraftDays(w, plans, original.days);
    assert days == [DraftDay(w, plans, day)] && days[1..] == [];
    assert PoisOfDays(days) == pois + [];
    assert IdCount(PoisOfDays(days), "d1-p2") == 2;
    SavedCount(w, original, plans, "d1-p2");
  }

  lemma {:induction false} TwoStopsCount(s: Stop, t: Stop, id: string)
    ensures IdCount([s, t], id) == (if s.id == id then 1 else 0) + (if t.id == id then 1 else 0)
  {
    assert [s, t][1..] == [t];
    assert IdCount([t][1..], id) == 0;
  }

  lemma {:induction false} OneDayCount(days: seq<JourneyDay>, d: nat, id: string)
    requires d < |days|
    ensures IdCount(days[d].pois, id) <= IdCount(PoisOfDays(days), id)
  {
    IdCountAppend(days[0].pois, PoisOfDays(days[1..]), id);
    if d > 0 {
      OneDayCount(days[1..], d - 1, id);
    }
  }

  lemma {:induction false} TwoDaysCount(days: seq<JourneyDay>, d: nat, e: nat, id: string)
    requires d < e < |days|
    ensures IdCount(days[d].pois, id) + IdCount(days[e].pois, id) <= IdCount(PoisOfDays(days), id)
  {
    IdCountAppend(days[0].pois, PoisOfDays(days[1..]), id);
    if d > 0 {
      TwoDaysCount(days[1..], d - 1, e - 1, id);
    } else {
      OneDayCount(days[1..], e - 1, id);
    }
  }

  lemma DraftDayHasId(w: Wording, plans: seq<DayPlan>, day: JourneyDay, i: nat)
    requires var plan := FindPlan(plans, PlanKey(day));
      plan.Some? && i < |plans[plan.value].stops| && plans[plan.value].stops[i].id != ""
    ensures HasId(DraftDay(w, plans, day).pois, plans[FindPlan(plans, PlanKey(day)).value].stops[i].id)
  {
    var stops := plans[FindPlan(plans, PlanKey(day)).value].stops;
    var pois := DraftPois(stops, day);
    assert pois[i] in pois;
    HasIdIff(pois, stops[i].id);
  }

  /**
    Two days under one key, such as day 1 and a day without a number: a save writes the stops of the
    one plan with that key into both, so every id of them comes twice.
   */
  lemma SharedKeyDoublesIds(w: Wording, original: JourneyData, plans: seq<DayPlan>, d: nat, e: nat, i: nat)
    requires d < e < |original.days| && PlanKey(original.days[d]) == PlanKey(original.days[e])
    requires var plan := FindPlan(plans, PlanKey(original.days[d]));
      plan.Some? && i < |plans[plan.value].stops| && plans[plan.value].stops[i].id != ""
    ensures var id := plans[FindPlan(plans, PlanKey(original.days[d])).value].stops[i].id;
      IdCount(BuildJourneyData(w, original, plans).pois, id) >= 2
  {
    var id := plans[FindPlan(plans, PlanKey(original.days[d])).value].stops[i].id;
    DraftDayHasId(w, plans, original.days[d], i);
    DraftDayHasId(w, plans, original.days[e], i);
    TwoDaysCount(BuildJourneyData(w, original, plans).days, d, e, id);
    SavedCount(w, original, plans, id);
  }

  /** A day without a number goes by the key of day 1. */
  lemma UnnumberedIsFirst(day: JourneyDay, first: JourneyDay)
    requires day.dayNumber == 0 && first.dayNumber == 1
    ensures PlanKey(day) == PlanKey(first)
  {}

  /** The segments of every saved day that has a plan link its places. */
  lemma SavedDaysAreLinked(w: Wording, original: JourneyData, plans: seq<DayPlan>, d: nat)
    requires d < |original.days| && FindPlan(plans, PlanKey(original.days[d])).Some?
    ensures var day := BuildJourneyData(w, original, plans).days[d]; Linked(day.pois, day.segments)
  {
    var plan := plans[FindPlan(plans, PlanKey(original.days[d])).value];
    var pois := DraftPois(plan.stops, original.days[d]);
    RebuiltIsLinked(w, DayOr(original.days[d].dayNumber, DayOr(plan.dayNumber, 1)), pois,
                    EditedSegments(w, DayOr(plan.dayNumber, 1), plan.stops, plan.segments));
  }
}
