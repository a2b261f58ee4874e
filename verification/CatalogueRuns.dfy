/** Distinct ids in the catalogue over every run, and bringing a deleted stop back. */
module CatalogueRuns {
  import opened Text
  import opened Journey
  import opened RouteOptimizer
  import opened OptimizerResults
  import opened PoiCatalogue
  import opened JourneyDraft
  import opened JourneyEditor
  import opened EditorRuns
  import opened MadeUpIds
  import opened PlanIds

  // ---------- When everything has an id ----------

  predicate Identified(stops: seq<Stop>) {
    IdCount(stops, "") == 0
  }

  predicate PageIdentified(page: Page) {
    Identified(AllStops(page.plans)) && Identified(page.journey.pois) && Identified(page.journey.alternatives)
  }

  /** Every saved place of a day has an id. */
  lemma ActiveIsIdentified(w: Wording, p: seq<DayPlan>, journey: JourneyData)
    requires Aligned(p, journey.days)
    ensures Identified(PoisOfDays(BuildJourneyData(w, journey, p).days))
  {
    var active := PoisOfDays(BuildJourneyData(w, journey, p).days);
    HasIdIff(active, "");
    forall q | q in active
      ensures q.id != ""
    {
      var d, i := ActiveComesFrom(w, p, journey, q);
    }
  }

  lemma {:induction false} WithoutIdsKeepsUnidentified(pois: seq<Stop>, ids: set<string>)
    ensures IdCount(WithoutIds(pois, ids), "") == IdCount(pois, "")
  {
    if pois != [] {
      var rest := WithoutIds(pois[1..], ids);
      WithoutIdsKeepsUnidentified(pois[1..], ids);
      assert ([pois[0]] + rest)[1..] == rest;
      assert [] + rest == rest;
    }
  }

  lemma SaveKeepsIdentified(w: Wording, journey: JourneyData, p: seq<DayPlan>)
    requires Aligned(p, journey.days)
    requires Identified(journey.pois) && Identified(journey.alternatives)
    ensures var saved := BuildJourneyData(w, journey, p); Identified(saved.pois) && Identified(saved.alternatives)
  {
    var active := PoisOfDays(DraftDays(w, p, journey.days));
    ActiveIsIdentified(w, p, journey);
    IdCountAppend(active, WithoutIds(journey.pois, IdsOf(active)), "");
    WithoutIdsKeepsUnidentified(journey.pois, IdsOf(active));
    WithoutIdsKeepsUnidentified(journey.alternatives, IdsOf(active));
  }

  lemma NoEmptyId(stops: seq<Stop>)
    requires Identified(stops)
    ensures forall s | s in stops :: s.id != ""
  {
    HasIdIff(stops, "");
  }

  lemma PoolIdentified(journey: JourneyData)
    requires Identified(journey.pois) && Identified(journey.alternatives)
    ensures forall s | s in GetJourneyPoiPool(journey) :: s.id != ""
  {
    NoEmptyId(journey.pois);
    NoEmptyId(journey.alternatives);
  }

  lemma OptimizedIsIdentified(stops: seq<Stop>)
    requires Identified(stops)
    ensures Identified(OptimizedDay(stops))
  {
    var day := OptimizedDay(stops);
    NoEmptyId(stops);
    forall i | 0 <= i < |day|
      ensures day[i].id != ""
    {
      var j := IsOldStop(stops, i);
    }
    HasIdIff(day, "");
  }

  lemma CommitStaysIdentified(w: Wording, page: Page, action: Action)
    requires PageIdentified(page)
    requires Edit(w, page.plans, GetJourneyPoiPool(page.journey), action).Commit?
    ensures Identified(AllStops(Edit(w, page.plans, GetJourneyPoiPool(page.journey), action).plans))
  {
    if action.OptimizeDay? {
      var d := FindPlan(page.plans, action.dayKey).value;
      var stops := page.plans[d].stops;
      DayCountedInPlan(page.plans, d, "");
      OptimizedIsIdentified(stops);
      WithStopsCounts(page.plans, d, OptimizedDay(stops), "");
    } else {
      PoolIdentified(page.journey);
      CommitKeeps(w, page.plans, GetJourneyPoiPool(page.journey), action, "");
    }
  }

  // ---------- When the ids in the catalogue stay distinct ----------

  /** If the action is committed, the save makes up no id that another stop has. */
  predicate Unclashed(w: Wording, page: Page, action: Action) {
    var outcome := Edit(w, page.plans, GetJourneyPoiPool(page.journey), action);
    outcome.Commit? ==> |outcome.plans| == |page.journey.days| && NoClash(outcome.plans, page.journey.days)
  }

  ghost predicate RunUnclashed(w: Wording, page: Page, actions: seq<Action>)
    decreases |actions|
  {
    actions == [] || (Unclashed(w, page, actions[0]) && RunUnclashed(w, Step(w, true, page, actions[0]), actions[1..]))
  }

  /** The ids in `pois` are distinct now and after every action. */
  ghost predicate AlwaysDistinct(w: Wording, page: Page, actions: seq<Action>)
    decreases |actions|
  {
    DistinctIds(page.journey.pois) && (actions == [] || AlwaysDistinct(w, Step(w, true, page, actions[0]), actions[1..]))
  }

  /** Neither does the action double an id on the plan, nor does its save make up one of another stop. */
  predicate Harmless(w: Wording, page: Page, action: Action) {
    DoublesNoId(page.plans, action) && Unclashed(w, page, action)
  }

  ghost predicate RunHarmless(w: Wording, page: Page, actions: seq<Action>)
    decreases |actions|
  {
    actions == [] || (Harmless(w, page, actions[0]) && RunHarmless(w, Step(w, true, page, actions[0]), actions[1..]))
  }

  lemma StepStaysAligned(w: Wording, page: Page, action: Action)
    requires Aligned(page.plans, page.journey.days)
    ensures var after := Step(w, true, page, action); Aligned(after.plans, after.journey.days)
  {
    var pool := GetJourneyPoiPool(page.journey);
    var outcome := Edit(w, page.plans, pool, action);
    if outcome.Commit? {
      CommitKeepsDays(w, page.plans, pool, action);
      SaveStaysAligned(w, page.journey, page.plans, outcome.plans);
    }
  }

  lemma StepIsDistinctIff(w: Wording, page: Page, action: Action)
    requires Aligned(page.plans, page.journey.days)
    requires DistinctIds(AllStops(page.plans)) && DistinctIds(page.journey.pois)
    ensures var after := Step(w, true, page, action);
      && (DistinctIds(after.journey.pois) <==> Harmless(w, page, action))
      && (DistinctIds(AllStops(after.plans)) <==> DoublesNoId(page.plans, action))
  {
    var pool := GetJourneyPoiPool(page.journey);
    var outcome := Edit(w, page.plans, pool, action);
    StepKeepsIdsIff(w, true, page, action);
    if outcome.Commit? {
      CommitKeepsDays(w, page.plans, pool, action);
      AlignedAgain(page.plans, outcome.plans, page.journey.days);
      StoredKeeps(w, outcome.plans);
      MadeUpIds.SavedIdsDistinctIff(w, page.journey, outcome.plans);
    }
  }

  /**
    From distinct ids, those in `pois` are distinct throughout a run of saved edits exactly when no
    optimization doubles an id and no save makes up the id of another stop.
   */
  lemma {:induction false} AlwaysDistinctIff(w: Wording, page: Page, actions: seq<Action>)
    requires Aligned(page.plans, page.journey.days)
    requires DistinctIds(AllStops(page.plans)) && DistinctIds(page.journey.pois)
    ensures AlwaysDistinct(w, page, actions) <==> RunHarmless(w, page, actions)
    decreases |actions|
  {
    if actions != [] {
      var after := Step(w, true, page, actions[0]);
      StepIsDistinctIff(w, page, actions[0]);
      StepStaysAligned(w, page, actions[0]);
      if Harmless(w, page, actions[0]) {
        AlwaysDistinctIff(w, after, actions[1..]);
      } else {
        assert !AlwaysDistinct(w, after, actions[1..]);
      }
    }
  }

  lemma {:induction false} HarmlessIff(w: Wording, page: Page, actions: seq<Action>)
    ensures RunHarmless(w, page, actions) <==> RunDoublesNoId(w, true, page, actions) && RunUnclashed(w, page, actions)
    decreases |actions|
  {
    if actions != [] {
      HarmlessIff(w, Step(w, true, page, actions[0]), actions[1..]);
    }
  }

  lemma {:induction false} StopIn(plans: seq<DayPlan>, d: nat, i: nat)
    requires d < |plans| && i < |plans[d].stops|
    ensures plans[d].stops[i] in AllStops(plans)
  {
    if d > 0 {
      StopIn(plans[1..], d - 1, i);
    }
  }

  lemma IdentifiedIsUnclashed(plans: seq<DayPlan>, days: seq<JourneyDay>)
    requires |plans| == |days| && Identified(AllStops(plans))
    ensures NoClash(plans, days)
  {
    NoEmptyId(AllStops(plans));
    forall d, i | 0 <= d < |plans| && 0 <= i < |plans[d].stops|
      ensures plans[d].stops[i].id != ""
    {
      StopIn(plans, d, i);
    }
  }

  /** When everything has an id, no run of saved edits ever meets a clash. */
  lemma {:induction false} IdentifiedRunsAreUnclashed(w: Wording, page: Page, actions: seq<Action>)
    requires Aligned(page.plans, page.journey.days) && PageIdentified(page)
    ensures RunUnclashed(w, page, actions) && PageIdentified(Run(w, true, page, actions))
    decreases |actions|
  {
    if actions != [] {
      var outcome := Edit(w, page.plans, GetJourneyPoiPool(page.journey), actions[0]);
      if outcome.Commit? {
        var p := outcome.plans;
        CommitKeepsDays(w, page.plans, GetJourneyPoiPool(page.journey), actions[0]);
        CommitStaysIdentified(w, page, actions[0]);
        AlignedAgain(page.plans, p, page.journey.days);
        StoredKeeps(w, p);
        SaveStaysAligned(w, page.journey, page.plans, p);
        SaveKeepsIdentified(w, page.journey, p);
        IdentifiedIsUnclashed(p, page.journey.days);
      }
      IdentifiedRunsAreUnclashed(w, Step(w, true, page, actions[0]), actions[1..]);
    }
  }

  // ---------- Deleting a stop and adding it again ----------

  /** No other stop of the plan has the name of `stop`. */
  predicate NameIsUnique(w: Wording, plans: seq<DayPlan>, stop: Stop) {
    w.matchText(stop.name) != "" &&
    forall t | t in AllStops(plans) :: t.id != stop.id ==> w.matchText(t.name) != w.matchText(stop.name)
  }

  /** The catalogue knows the stop, under one name, and no place without an id goes by that id. */
  predicate KnownAs(w: Wording, journey: JourneyData, stop: Stop) {
    && Knows(journey, stop.id)
    && forall q | q in GetJourneyPoiPool(journey) ::
         && (q.id == stop.id ==> w.matchText(q.name) == w.matchText(stop.name))
         && (q.id == "" ==> w.matchText(q.name) != stop.id)
  }

  lemma {:induction false} WithoutIdsFrom(pois: seq<Stop>, ids: set<string>, q: Stop)
    ensures q in WithoutIds(pois, ids) ==> q in pois
  {
    if pois != [] {
      WithoutIdsFrom(pois[1..], ids, q);
    }
  }

  /** A place of the new pool comes from the old one unless it is active now. */
  lemma NewPoolFrom(w: Wording, journey: JourneyData, p: seq<DayPlan>, q: Stop)
    requires q in GetJourneyPoiPool(BuildJourneyData(w, journey, p))
    ensures q in GetJourneyPoiPool(journey) || q in PoisOfDays(BuildJourneyData(w, journey, p).days)
  {
    var active := PoisOfDays(DraftDays(w, p, journey.days));
    WithoutIdsFrom(journey.pois, IdsOf(active), q);
    WithoutIdsFrom(journey.alternatives, IdsOf(active), q);
  }

  lemma SomeFirst(w: Wording, pool: seq<Stop>, key: string, i: nat) returns (j: nat)
    requires i < |pool| && Named(w, pool[i]) && KeyOf(w, pool[i]) == key
    ensures j <= i && IsFirst(w, pool, j) && KeyOf(w, pool[j]) == key
  {
    if IsFirst(w, pool, i) {
      j := i;
    } else {
      var k: nat :| k < i && Named(w, pool[k]) && KeyOf(w, pool[k]) == key;
      j := SomeFirst(w, pool, key, k);
    }
  }

  function Without(plans: seq<DayPlan>, d: nat, i: nat): (p: seq<DayPlan>)
    requires d < |plans| && i < |plans[d].stops|
  {
    WithStops(plans, d, RemoveAt(plans[d].stops, i))
  }

  lemma {:induction false} RemovedStops(plans: seq<DayPlan>, d: nat, i: nat, t: Stop)
    requires d < |plans| && i < |plans[d].stops|
    requires t in AllStops(WithStops(plans, d, RemoveAt(plans[d].stops, i)))
    ensures t in AllStops(plans)
  {
    var after := WithStops(plans, d, RemoveAt(plans[d].stops, i));
    if d == 0 {
      assert after[1..] == plans[1..];
    } else {
      assert after[1..] == WithStops(plans[1..], d - 1, RemoveAt(plans[d].stops, i));
      if t in AllStops(after[1..]) {
        RemovedStops(plans[1..], d - 1, i, t);
      }
    }
  }

  /** The page after stop `i` of day `d` was deleted and the journey saved. */
  function Deleted(w: Wording, page: Page, d: nat, i: nat): (r: Page)
    requires d < |page.plans| && i < |page.plans[d].stops|
  {
    var p := Without(page.plans, d, i);
    Page(Stored(w, p), BuildJourneyData(w, page.journey, p))
  }

  lemma DeleteIsStep(w: Wording, page: Page, d: nat, i: nat)
    requires d < |page.plans| && i < |page.plans[d].stops| && |page.plans[d].stops| > 1
    requires FindPlan(page.plans, page.plans[d].key) == Some(d)
    ensures Step(w, true, page, OnStop(page.plans[d].key, i, Delete)) == Deleted(w, page, d, i)
  {}

  /** The stop has an id and a name of its own, and the catalogue knows it. */
  ghost predicate CanDelete(w: Wording, page: Page, d: nat, i: nat) {
    && d < |page.plans| && i < |page.plans[d].stops| && |page.plans[d].stops| > 1
    && Aligned(page.plans, page.journey.days) && DistinctIds(AllStops(page.plans))
    && page.plans[d].stops[i].id != ""
    && NameIsUnique(w, page.plans, page.plans[d].stops[i])
    && KnownAs(w, page.journey, page.plans[d].stops[i])
  }

  /** A stop that is left, and has no id, is given the id of the deleted one. */
  predicate IdIsTaken(page: Page, d: nat, i: nat)
    requires |page.plans| == |page.journey.days| && d < |page.plans| && i < |page.plans[d].stops|
  {
    IsMadeUp(Without(page.plans, d, i), page.journey.days, page.plans[d].stops[i].id)
  }

  /** After the deletion the id is off the plan and inactive, and so is the name. */
  lemma DeletedIsInactive(w: Wording, page: Page, d: nat, i: nat, q: Stop)
    requires CanDelete(w, page, d, i)
    requires var s := page.plans[d].stops[i]; q.id == s.id && w.matchText(q.name) == w.matchText(s.name)
    ensures Inactive(w, AllStops(Deleted(w, page, d, i).plans), q)
    ensures PlanCount(Without(page.plans, d, i), q.id) == PlanCount(Deleted(w, page, d, i).plans, q.id) == 0
  {
    var s := page.plans[d].stops[i];
    var p := Without(page.plans, d, i);
    var after := Deleted(w, page, d, i);
    StoredKeeps(w, p);
    DeleteCounts(page.plans, d, i, s.id);
    StopIn(page.plans, d, i);
    assert IdCount(AllStops(page.plans), s.id) <= 1;
    HasIdIff(AllStops(after.plans), s.id);
    forall t | t in AllStops(after.plans)
      ensures t.id != s.id && w.matchText(t.name) != w.matchText(s.name)
    {
      RemovedStops(page.plans, d, i, t);
    }
  }

  /** As long as its id is not taken, no active place goes by it. */
  lemma ActiveIsAnother(w: Wording, page: Page, d: nat, i: nat, q: Stop)
    requires CanDelete(w, page, d, i) && !IdIsTaken(page, d, i)
    requires q in PoisOfDays(Deleted(w, page, d, i).journey.days)
    ensures q.id != "" && q.id != page.plans[d].stops[i].id
  {
    var s := page.plans[d].stops[i];
    var p := Without(page.plans, d, i);
    DeletedIsInactive(w, page, d, i, s);
    DeleteCounts(page.plans, d, i, s.id);
    AlignedAgain(page.plans, p, page.journey.days);
    var e, j := ActiveComesFrom(w, p, page.journey, q);
    StopIn(p, e, j);
    HasIdIff(AllStops(p), s.id);
    assert !MakesUp(p[e].stops, page.journey.days[e], j, s.id);
  }

  /** A place that goes by the deleted id in the new pool is the deleted place. */
  lemma GoesByDeletedId(w: Wording, page: Page, d: nat, i: nat, q: Stop)
    requires CanDelete(w, page, d, i) && !IdIsTaken(page, d, i)
    requires q in GetJourneyPoiPool(Deleted(w, page, d, i).journey)
    requires q.id == page.plans[d].stops[i].id || (q.id == "" && w.matchText(q.name) == page.plans[d].stops[i].id)
    ensures q.id == page.plans[d].stops[i].id && w.matchText(q.name) == w.matchText(page.plans[d].stops[i].name)
  {
    NewPoolFrom(w, page.journey, Without(page.plans, d, i), q);
    if q in PoisOfDays(Deleted(w, page, d, i).journey.days) {
      ActiveIsAnother(w, page, d, i, q);
    }
  }

  /** The save keeps the id in the pool. */
  lemma PlaceOfDeleted(w: Wording, page: Page, d: nat, i: nat) returns (k: nat)
    requires CanDelete(w, page, d, i)
    ensures var pool := GetJourneyPoiPool(Deleted(w, page, d, i).journey);
      k < |pool| && pool[k].id == page.plans[d].stops[i].id
  {
    var journey := Deleted(w, page, d, i).journey;
    var id := page.plans[d].stops[i].id;
    SaveKeepsIds(w, page.journey, Without(page.plans, d, i), id);
    HasIdIff(journey.pois, id);
    HasIdIff(journey.alternatives, id);
    var known: Stop :| known in GetJourneyPoiPool(journey) && known.id == id;
    k :| 0 <= k < |GetJourneyPoiPool(journey)| && GetJourneyPoiPool(journey)[k] == known;
  }

  /** The deleted stop is among the places that can be added. */
  lemma DeletedIsOffered(w: Wording, page: Page, d: nat, i: nat) returns (q: Stop)
    requires CanDelete(w, page, d, i) && !IdIsTaken(page, d, i)
    ensures var after := Deleted(w, page, d, i);
      && q.id == page.plans[d].stops[i].id && w.matchText(q.name) == w.matchText(page.plans[d].stops[i].name)
      && q in PendingCandidates(w, GetJourneyPoiPool(after.journey), after.plans)
  {
    var s := page.plans[d].stops[i];
    var after := Deleted(w, page, d, i);
    var pool := GetJourneyPoiPool(after.journey);
    var k := PlaceOfDeleted(w, page, d, i);
    GoesByDeletedId(w, page, d, i, pool[k]);
    var j := SomeFirst(w, pool, s.id, k);
    q := pool[j];
    GoesByDeletedId(w, page, d, i, q);
    DeletedIsInactive(w, page, d, i, q);
    CandidatesAreExact(w, pool, after.plans, q);
  }

  lemma {:induction false} WithoutIdsDrops(pois: seq<Stop>, ids: set<string>, q: Stop)
    requires q.id != "" && q.id in ids
    ensures q !in WithoutIds(pois, ids)
  {
    if pois != [] {
      WithoutIdsDrops(pois[1..], ids, q);
    }
  }

  /** If its id is taken, the deleted place is dropped: what has the id now is active. */
  lemma TakenIsActive(w: Wording, page: Page, d: nat, i: nat, q: Stop)
    requires CanDelete(w, page, d, i) && IdIsTaken(page, d, i) && q.id == page.plans[d].stops[i].id
    requires q in GetJourneyPoiPool(Deleted(w, page, d, i).journey)
    ensures q in PoisOfDays(Deleted(w, page, d, i).journey.days)
  {
    var p := Without(page.plans, d, i);
    var active := PoisOfDays(Deleted(w, page, d, i).journey.days);
    DeleteCounts(page.plans, d, i, q.id);
    AlignedAgain(page.plans, p, page.journey.days);
    AlignedDiffer(p, page.journey.days);
    MadeUpIff(p, page.journey.days, q.id);
    ActiveCount(w, p, page.journey, q.id);
    HasIdIff(active, q.id);
    WithoutIdsDrops(page.journey.pois, IdsOf(active), q);
    WithoutIdsDrops(page.journey.alternatives, IdsOf(active), q);
  }

  /** An active place is on the plan under its name. */
  lemma ActiveIsNamed(w: Wording, page: Page, p: seq<DayPlan>, q: Stop)
    requires Aligned(p, page.journey.days) && q in PoisOfDays(BuildJourneyData(w, page.journey, p).days) && Named(w, q)
    ensures w.matchText(q.name) in NamesOf(w, AllStops(p))
  {
    var e, j := ActiveComesFrom(w, p, page.journey, q);
    StopIn(p, e, j);
  }

  lemma TakenIsNotOffered(w: Wording, page: Page, d: nat, i: nat, q: Stop)
    requires CanDelete(w, page, d, i) && IdIsTaken(page, d, i) && q.id == page.plans[d].stops[i].id
    ensures var after := Deleted(w, page, d, i);
      q !in PendingCandidates(w, GetJourneyPoiPool(after.journey), after.plans)
  {
    var p := Without(page.plans, d, i);
    var after := Deleted(w, page, d, i);
    StoredKeeps(w, p);
    DeleteCounts(page.plans, d, i, q.id);
    AlignedAgain(page.plans, p, page.journey.days);
    CandidatesAreExact(w, GetJourneyPoiPool(after.journey), after.plans, q);
    if q in GetJourneyPoiPool(after.journey) && Named(w, q) {
      TakenIsActive(w, page, d, i, q);
      ActiveIsNamed(w, page, p, q);
    }
  }

  /**
    Exactly when a deleted stop can be brought back by its id: no stop that is left is given this id.
   */
  lemma DeletedIsOfferedIff(w: Wording, page: Page, d: nat, i: nat)
    requires CanDelete(w, page, d, i)
    ensures var after := Deleted(w, page, d, i);
      (exists q: Stop :: q in PendingCandidates(w, GetJourneyPoiPool(after.journey), after.plans) && q.id == page.plans[d].stops[i].id)
      <==> !IdIsTaken(page, d, i)
  {
    var after := Deleted(w, page, d, i);
    if IdIsTaken(page, d, i) {
      forall q: Stop | q.id == page.plans[d].stops[i].id
        ensures q !in PendingCandidates(w, GetJourneyPoiPool(after.journey), after.plans)
      {
        TakenIsNotOffered(w, page, d, i, q);
      }
    } else {
      var q := DeletedIsOffered(w, page, d, i);
    }
  }

  /** The smallest case: after a deletion and a save, the deleted place is gone for good, though its id is kept. */
  lemma DeletedIsLost(w: Wording)
    ensures var a, s, u := NoStop().(id := "a", name := "A"), NoStop().(id := "d1-p2", name := "S"), NoStop().(name := "U");
      var page := Page([DayPlan("visual-day-1", 1, "", [a, s, u], [])],
                       JourneyData([JourneyDay(1, "", [a, s], [])], [a, s], []));
      var after := Step(w, true, page, OnStop("visual-day-1", 1, Delete));
      && Knows(after.journey, "d1-p2")
      && forall q | q in GetJourneyPoiPool(after.journey) :: q.name != "S"
  {
    var a, s, u := NoStop().(id := "a", name := "A"), NoStop().(id := "d1-p2", name := "S"), NoStop().(name := "U");
    var plan := DayPlan("visual-day-1", 1, "", [a, s, u], []);
    var page := Page([plan], JourneyData([JourneyDay(1, "", [a, s], [])], [a, s], []));
    var p := [plan.(stops := [a, u])];
    assert RemoveAt([a, s, u], 1) == [a, u];
    assert Without([plan], 0, 1) == p;
    DeleteIsStep(w, page, 0, 1);
    TwoStopsCount(a, s, "d1-p2");
    SaveKeepsIds(w, page.journey, p, "d1-p2");
    SavedTwoStops(w, a, s, u, plan.(stops := [a, u]), page.journey);
  }

  /** The catalogue of that case after the save. */
  lemma SavedTwoStops(w: Wording, a: Stop, s: Stop, u: Stop, plan: DayPlan, journey: JourneyData)
    requires a.id == "a" && s.id == "d1-p2" && u.id == ""
    requires plan.key == "visual-day-1" && plan.stops == [a, u]
    requires journey.pois == [a, s] && journey.alternatives == [] && |journey.days| == 1 && journey.days[0].dayNumber == 1
    ensures forall q | q in GetJourneyPoiPool(BuildJourneyData(w, journey, [plan])) :: q.name == a.name || q.name == u.name
  {
    var day := journey.days[0];
    FirstDayTexts(day);
    var pois := DraftPois([a, u], day);
    var days := DraftDays(w, [plan], journey.days);
    assert FindPlan([plan], PlanKey(day)) == Some(0);
    assert days[0].pois == pois && days[1..] == [];
    assert PoisOfDays(days) == pois;
    assert pois[0] in pois && pois[1] in pois && pois[0].id == "a" && pois[1].id == "d1-p2";
    WithoutTwo(a, s, IdsOf(pois));
  }

  lemma {:induction false} WithoutTwo(a: Stop, s: Stop, ids: set<string>)
    requires a.id != "" && s.id != "" && a.id in ids && s.id in ids
    ensures WithoutIds([a, s], ids) == []
  {
    assert [a, s][1..] == [s];
    assert WithoutIds([s][1..], ids) == [];
  }

  lemma {:induction false} FindsById(w: Wording, candidates: seq<Stop>, q: Stop)
    requires q in candidates && q.id != "" && w.foldName("") == ""
    ensures var c := FindCandidate(w, candidates, q.id, w.foldName("")); c.Some? && c.value.id == q.id && c.value in candidates
  {
    if candidates[0].id != q.id {
      FindsById(w, candidates[1..], q);
    }
  }

  /** What `trim().toLowerCase()` and the matching rule have to do with each other. */
  ghost predicate FoldRefinesMatch(w: Wording) {
    w.foldName("") == "" && forall a, b :: w.foldName(a) == w.foldName(b) ==> w.matchText(a) == w.matchText(b)
  }

  /** `stop` is off the plan and pending, under one name. */
  ghost predicate Offered(w: Wording, page: Page, stop: Stop) {
    var candidates := PendingCandidates(w, GetJourneyPoiPool(page.journey), page.plans);
    && stop.id != "" && Inactive(w, AllStops(page.plans), stop)
    && (exists q | q in candidates :: q.id == stop.id)
    && (forall q | q in candidates && q.id == stop.id :: w.matchText(q.name) == w.matchText(stop.name))
    && w.matchText(stop.name) != ""
  }

  lemma InactiveIsNoDuplicate(w: Wording, plans: seq<DayPlan>, stop: Stop)
    requires Inactive(w, AllStops(plans), stop) && stop.id != "" && w.matchText(stop.name) != "" && FoldRefinesMatch(w)
    ensures !HasDuplicateStop(w, plans, stop)
  {}

  /** Asking for the id of an offered place is answered by putting such a place at the end of the day. */
  lemma OfferedIsAdded(w: Wording, page: Page, e: nat, stop: Stop) returns (added: Stop)
    requires e < |page.plans| && Offered(w, page, stop) && FoldRefinesMatch(w)
    ensures Add(w, page.plans, GetJourneyPoiPool(page.journey), e, stop.id, "")
         == Commit(WithStops(page.plans, e, page.plans[e].stops + [added]))
    ensures added.id == stop.id && w.matchText(added.name) == w.matchText(stop.name)
  {
    var candidates := PendingCandidates(w, GetJourneyPoiPool(page.journey), page.plans);
    var q :| q in candidates && q.id == stop.id;
    FindsById(w, candidates, q);
    var candidate := FindCandidate(w, candidates, stop.id, w.foldName("")).value;
    added := NormalizeJourneyPoiAsStop(candidate, NoStop().(city := page.plans[e].city));
    InactiveIsNoDuplicate(w, page.plans, added);
  }

  lemma AppendedCounts(w: Wording, plans: seq<DayPlan>, e: nat, added: Stop)
    requires e < |plans|
    ensures var p := Stored(w, WithStops(plans, e, plans[e].stops + [added]));
      && PlanCount(p, added.id) == PlanCount(plans, added.id) + 1 && |AllStops(p)| == |AllStops(plans)| + 1
      && p[e].stops == plans[e].stops + [added]
  {
    StoredKeeps(w, WithStops(plans, e, plans[e].stops + [added]));
    WithStopsCounts(plans, e, plans[e].stops + [added], added.id);
    AppendCounts(plans[e].stops, added, added.id);
  }

  lemma AddOffered(w: Wording, page: Page, e: nat, stop: Stop)
    requires e < |page.plans| && FindPlan(page.plans, page.plans[e].key) == Some(e)
    requires Offered(w, page, stop) && FoldRefinesMatch(w)
    ensures var again := Step(w, true, page, AddPending(page.plans[e].key, stop.id, ""));
      && PlanCount(again.plans, stop.id) == 1 && |AllStops(again.plans)| == |AllStops(page.plans)| + 1
      && |again.plans| == |page.plans| && |again.plans[e].stops| > 0
      && var last := again.plans[e].stops[|again.plans[e].stops| - 1];
         last.id == stop.id && w.matchText(last.name) == w.matchText(stop.name)
  {
    var added := OfferedIsAdded(w, page, e, stop);
    AppendedCounts(w, page.plans, e, added);
    HasIdIff(AllStops(page.plans), stop.id);
  }

  lemma DeletedIsOfferedOnce(w: Wording, page: Page, d: nat, i: nat)
    requires CanDelete(w, page, d, i) && !IdIsTaken(page, d, i)
    ensures Offered(w, Deleted(w, page, d, i), page.plans[d].stops[i])
  {
    var after := Deleted(w, page, d, i);
    DeletedIsInactive(w, page, d, i, page.plans[d].stops[i]);
    var q := DeletedIsOffered(w, page, d, i);
    forall q | q in PendingCandidates(w, GetJourneyPoiPool(after.journey), after.plans) && q.id == page.plans[d].stops[i].id
      ensures w.matchText(q.name) == w.matchText(page.plans[d].stops[i].name)
    {
      CandidatesAreExact(w, GetJourneyPoiPool(after.journey), after.plans, q);
      GoesByDeletedId(w, page, d, i, q);
    }
  }

  /**
    Deleting a stop can be undone: asking for its id on any day puts a place with that id and that
    name back, exactly once, and the plan has as many stops as before.
   */
  lemma DeleteThenAddRestores(w: Wording, page: Page, d: nat, i: nat, e: nat)
    requires CanDelete(w, page, d, i) && !IdIsTaken(page, d, i) && FoldRefinesMatch(w) && e < |page.plans|
    ensures var s := page.plans[d].stops[i];
      var deleted := Step(w, true, page, OnStop(page.plans[d].key, i, Delete));
      var again := Step(w, true, deleted, AddPending(page.plans[e].key, s.id, ""));
      && PlanCount(deleted.plans, s.id) == 0 && PlanCount(again.plans, s.id) == 1
      && |AllStops(again.plans)| == |AllStops(page.plans)|
      && |again.plans| == |page.plans| && |again.plans[e].stops| > 0
      && var last := again.plans[e].stops[|again.plans[e].stops| - 1];
         last.id == s.id && w.matchText(last.name) == w.matchText(s.name)
  {
    AlignedFinds(page.plans, page.journey.days, d);
    DeleteIsStep(w, page, d, i);
    DeletedKeepsDays(w, page, d, i, e);
    DeletedIsOfferedOnce(w, page, d, i);
    DeletedIsInactive(w, page, d, i, page.plans[d].stops[i]);
    AddOffered(w, Deleted(w, page, d, i), e, page.plans[d].stops[i]);
  }

  lemma DeletedKeepsDays(w: Wording, page: Page, d: nat, i: nat, e: nat)
    requires CanDelete(w, page, d, i) && e < |page.plans|
    ensures var deleted := Deleted(w, page, d, i);
      && |deleted.plans| == |page.plans| && deleted.plans[e].key == page.plans[e].key
      && FindPlan(deleted.plans, page.plans[e].key) == Some(e)
      && |AllStops(deleted.plans)| + 1 == |AllStops(page.plans)|
  {
    AlignedFinds(page.plans, page.journey.days, e);
    FindPlanSame(page.plans, Deleted(w, page, d, i).plans, page.plans[e].key);
    StoredKeeps(w, Without(page.plans, d, i));
    WithStopsCounts(page.plans, d, RemoveAt(page.plans[d].stops, i), "");
  }
}
