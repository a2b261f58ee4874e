/** The ids that a save makes up for stops without one, and when they clash (frontend/app.js). */
module MadeUpIds {
  import opened Text
  import opened Journey
  import opened PoiCatalogue
  import opened JourneyDraft
  import opened EditorRuns

  // ---------- Different places get different ids ----------

  predicate Digits(s: string) {
    forall i | 0 <= i < |s| :: '0' <= s[i] <= '9'
  }

  lemma {:induction false} DecimalIsDigits(n: nat)
    ensures Digits(Decimal(n))
  {
    if n >= 10 {
      DecimalIsDigits(n / 10);
    }
  }

  lemma {:induction false} DecimalInjective(m: nat, n: nat)
    requires Decimal(m) == Decimal(n)
    ensures m == n
  {
    var s, t := Decimal(m), Decimal(n);
    assert s[|s| - 1] == '0' + (m % 10) as char && t[|t| - 1] == '0' + (n % 10) as char;
    if m >= 10 && n >= 10 {
      assert Decimal(m / 10) == s[..|s| - 1] && Decimal(n / 10) == t[..|t| - 1];
      DecimalInjective(m / 10, n / 10);
    }
  }

  /** A number ends at the first character that is no digit. */
  lemma NumberEnds(a: string, x: string, b: string, y: string)
    requires Digits(a) && Digits(b) && a + ("-" + x) == b + ("-" + y)
    ensures a == b && x == y
  {
    var s, t := a + ("-" + x), b + ("-" + y);
    assert forall i | 0 <= i < |a| :: s[i] == a[i];
    assert forall i | 0 <= i < |b| :: t[i] == b[i];
    assert s[|a|] == '-' && t[|b|] == '-';
    assert s[..|a|] == a && t[..|b|] == b && s[|a| + 1..] == x && t[|b| + 1..] == y;
  }

  lemma MadeUpIdsDiffer(left: JourneyDay, i: nat, right: JourneyDay, j: nat)
    requires MadeUpId(left, i) == MadeUpId(right, j)
    ensures PlanKey(left) == PlanKey(right) && i == j
  {
    var a, b := Decimal(DayOr(left.dayNumber, 1)), Decimal(DayOr(right.dayNumber, 1));
    var x, y := Decimal(i + 1), Decimal(j + 1);
    assert MadeUpId(left, i)[1..] == a + ("-" + ("p" + x));
    assert MadeUpId(right, j)[1..] == b + ("-" + ("p" + y));
    DecimalIsDigits(DayOr(left.dayNumber, 1));
    DecimalIsDigits(DayOr(right.dayNumber, 1));
    NumberEnds(a, "p" + x, b, "p" + y);
    assert ("p" + x)[1..] == x && ("p" + y)[1..] == y;
    DecimalInjective(i + 1, j + 1);
  }

  // ---------- How often an id is made up ----------

  predicate MakesUp(stops: seq<Stop>, day: JourneyDay, i: nat, id: string)
    requires i < |stops|
  {
    stops[i].id == "" && MadeUpId(day, i) == id
  }

  function MadeUpInDay(stops: seq<Stop>, day: JourneyDay, id: string): (n: nat) {
    if stops == [] then 0
    else
      var last := |stops| - 1;
      MadeUpInDay(stops[..last], day, id) + if MakesUp(stops, day, last, id) then 1 else 0
  }

  function MadeUp(plans: seq<DayPlan>, days: seq<JourneyDay>, id: string): (n: nat)
    requires |plans| == |days|
  {
    if plans == [] then 0 else MadeUpInDay(plans[0].stops, days[0], id) + MadeUp(plans[1..], days[1..], id)
  }

  lemma DraftPoisStep(stops: seq<Stop>, day: JourneyDay)
    requires stops != []
    ensures var last := |stops| - 1;
      DraftPois(stops, day) == DraftPois(stops[..last], day) + [DraftPoi(stops[last], day, last)]
  {}

  lemma {:induction false} DayCount(stops: seq<Stop>, day: JourneyDay, id: string)
    requires id != ""
    ensures IdCount(DraftPois(stops, day), id) == IdCount(stops, id) + MadeUpInDay(stops, day, id)
  {
    if stops != [] {
      var last := |stops| - 1;
      DayCount(stops[..last], day, id);
      DraftPoisStep(stops, day);
      IdCountAppend(DraftPois(stops[..last], day), [DraftPoi(stops[last], day, last)], id);
      assert stops == stops[..last] + [stops[last]];
      IdCountAppend(stops[..last], [stops[last]], id);
      CountOfOne(stops[last], id);
      CountOfOne(DraftPoi(stops[last], day, last), id);
    }
  }

  lemma {:induction false} DaysCount(plans: seq<DayPlan>, days: seq<JourneyDay>, drafts: seq<JourneyDay>, id: string)
    requires |plans| == |days| == |drafts| && id != ""
    requires forall d | 0 <= d < |days| :: drafts[d].pois == DraftPois(plans[d].stops, days[d])
    ensures IdCount(PoisOfDays(drafts), id) == PlanCount(plans, id) + MadeUp(plans, days, id)
  {
    if plans != [] {
      DaysCount(plans[1..], days[1..], drafts[1..], id);
      DayCount(plans[0].stops, days[0], id);
      IdCountAppend(plans[0].stops, AllStops(plans[1..]), id);
      IdCountAppend(drafts[0].pois, PoisOfDays(drafts[1..]), id);
    }
  }

  /** The saved days hold the ids of the plan, and those made up for its stops without one. */
  lemma ActiveCount(w: Wording, plans: seq<DayPlan>, original: JourneyData, id: string)
    requires Aligned(plans, original.days) && id != ""
    ensures IdCount(PoisOfDays(BuildJourneyData(w, original, plans).days), id)
         == PlanCount(plans, id) + MadeUp(plans, original.days, id)
  {
    var drafts := DraftDays(w, plans, original.days);
    forall d | 0 <= d < |drafts|
      ensures drafts[d].pois == DraftPois(plans[d].stops, original.days[d])
    {
      AlignedFinds(plans, original.days, d);
    }
    DaysCount(plans, original.days, drafts, id);
  }

  lemma {:induction false} MadeUpInDayIff(stops: seq<Stop>, day: JourneyDay, id: string)
    ensures MadeUpInDay(stops, day, id) <= 1
    ensures MadeUpInDay(stops, day, id) > 0 <==> exists i :: 0 <= i < |stops| && MakesUp(stops, day, i, id)
  {
    if stops != [] {
      var last := |stops| - 1;
      var front := stops[..last];
      MadeUpInDayIff(front, day, id);
      assert forall i | 0 <= i < last :: MakesUp(stops, day, i, id) == MakesUp(front, day, i, id);
      if MakesUp(stops, day, last, id) && MadeUpInDay(front, day, id) > 0 {
        var i :| 0 <= i < last && MakesUp(front, day, i, id);
        MadeUpIdsDiffer(day, i, day, last);
      }
    }
  }

  predicate DifferentDays(days: seq<JourneyDay>) {
    forall d, e | 0 <= d < e < |days| :: PlanKey(days[d]) != PlanKey(days[e])
  }

  /** Some stop without an id gets this one. */
  predicate IsMadeUp(plans: seq<DayPlan>, days: seq<JourneyDay>, id: string)
    requires |plans| == |days|
  {
    exists d, i :: 0 <= d < |plans| && 0 <= i < |plans[d].stops| && MakesUp(plans[d].stops, days[d], i, id)
  }

  lemma IsMadeUpTail(plans: seq<DayPlan>, days: seq<JourneyDay>, id: string)
    requires |plans| == |days| && plans != []
    ensures IsMadeUp(plans, days, id) <==>
      (exists i :: 0 <= i < |plans[0].stops| && MakesUp(plans[0].stops, days[0], i, id)) || IsMadeUp(plans[1..], days[1..], id)
  {
    if IsMadeUp(plans[1..], days[1..], id) {
      var d, i :| 0 <= d < |plans| - 1 && 0 <= i < |plans[1..][d].stops| && MakesUp(plans[1..][d].stops, days[1..][d], i, id);
      assert MakesUp(plans[d + 1].stops, days[d + 1], i, id);
    }
    if IsMadeUp(plans, days, id) {
      var d, i :| 0 <= d < |plans| && 0 <= i < |plans[d].stops| && MakesUp(plans[d].stops, days[d], i, id);
      assert d > 0 ==> MakesUp(plans[1..][d - 1].stops, days[1..][d - 1], i, id);
    }
  }

  /** No id is made up twice. */
  lemma {:induction false} MadeUpIff(plans: seq<DayPlan>, days: seq<JourneyDay>, id: string)
    requires |plans| == |days| && DifferentDays(days)
    ensures MadeUp(plans, days, id) <= 1
    ensures MadeUp(plans, days, id) > 0 <==> IsMadeUp(plans, days, id)
  {
    if plans != [] {
      MadeUpInDayIff(plans[0].stops, days[0], id);
      MadeUpIff(plans[1..], days[1..], id);
      IsMadeUpTail(plans, days, id);
      if MadeUpInDay(plans[0].stops, days[0], id) > 0 && IsMadeUp(plans[1..], days[1..], id) {
        var i :| 0 <= i < |plans[0].stops| && MakesUp(plans[0].stops, days[0], i, id);
        var e, j :| 0 <= e < |plans| - 1 && 0 <= j < |plans[1..][e].stops| && MakesUp(plans[1..][e].stops, days[1..][e], j, id);
        MadeUpIdsDiffer(days[0], i, days[e + 1], j);
      }
    }
  }

  lemma {:induction false} PoiOfDay(days: seq<JourneyDay>, q: Stop) returns (d: nat)
    requires q in PoisOfDays(days)
    ensures d < |days| && q in days[d].pois
  {
    if q in days[0].pois {
      d := 0;
    } else {
      d := PoiOfDay(days[1..], q);
      d := d + 1;
    }
  }

  /** Every active place comes from a stop of the plan. */
  lemma ActiveComesFrom(w: Wording, plans: seq<DayPlan>, original: JourneyData, q: Stop) returns (d: nat, i: nat)
    requires Aligned(plans, original.days) && q in PoisOfDays(BuildJourneyData(w, original, plans).days)
    ensures d < |plans| && i < |plans[d].stops| && q == DraftPoi(plans[d].stops[i], original.days[d], i)
  {
    d := PoiOfDay(BuildJourneyData(w, original, plans).days, q);
    AlignedFinds(plans, original.days, d);
    var pois := DraftPois(plans[d].stops, original.days[d]);
    assert q in pois;
    i :| 0 <= i < |pois| && pois[i] == q;
  }

  // ---------- When a save keeps the ids distinct ----------

  /** No stop without an id is given the id of another stop of the plan. */
  predicate NoClash(plans: seq<DayPlan>, days: seq<JourneyDay>)
    requires |plans| == |days|
  {
    forall d, i | 0 <= d < |plans| && 0 <= i < |plans[d].stops| && plans[d].stops[i].id == "" ::
      !HasId(AllStops(plans), MadeUpId(days[d], i))
  }

  lemma NoClashIff(plans: seq<DayPlan>, days: seq<JourneyDay>)
    requires |plans| == |days|
    ensures NoClash(plans, days) <==> forall id | IsMadeUp(plans, days, id) :: PlanCount(plans, id) == 0
  {
    if !NoClash(plans, days) {
      var d, i :| 0 <= d < |plans| && 0 <= i < |plans[d].stops| && plans[d].stops[i].id == "" &&
        HasId(AllStops(plans), MadeUpId(days[d], i));
      assert MakesUp(plans[d].stops, days[d], i, MadeUpId(days[d], i));
      assert IsMadeUp(plans, days, MadeUpId(days[d], i));
    }
    if NoClash(plans, days) {
      forall id | IsMadeUp(plans, days, id)
        ensures PlanCount(plans, id) == 0
      {
        var d, i :| 0 <= d < |plans| && 0 <= i < |plans[d].stops| && MakesUp(plans[d].stops, days[d], i, id);
        assert !HasId(AllStops(plans), MadeUpId(days[d], i));
      }
    }
  }

  /** How often an id stands in `pois` after a save, in terms of the plan and the catalogue before. */
  lemma SavedPoisCount(w: Wording, original: JourneyData, plans: seq<DayPlan>, id: string)
    requires Aligned(plans, original.days) && id != ""
    ensures IdCount(BuildJourneyData(w, original, plans).pois, id) ==
      (if IsMadeUp(plans, original.days, id) then PlanCount(plans, id) + 1
       else if PlanCount(plans, id) > 0 then PlanCount(plans, id)
       else IdCount(original.pois, id))
  {
    SavedCount(w, original, plans, id);
    ActiveCount(w, plans, original, id);
    AlignedDiffer(plans, original.days);
    MadeUpIff(plans, original.days, id);
  }

  lemma AlignedDiffer(plans: seq<DayPlan>, days: seq<JourneyDay>)
    requires Aligned(plans, days)
    ensures DifferentDays(days)
  {
    forall d, e | 0 <= d < e < |days|
      ensures PlanKey(days[d]) != PlanKey(days[e])
    {
      assert plans[d].key != plans[e].key;
    }
  }

  /**
    Exactly when the ids in `pois` are distinct after a save: those of the plan were, none of them is
    made up for another stop, and those of the places that are not on the plan were.
   */
  lemma SavedIdsDistinctIff(w: Wording, original: JourneyData, plans: seq<DayPlan>)
    requires Aligned(plans, original.days)
    ensures DistinctIds(BuildJourneyData(w, original, plans).pois) <==>
      && DistinctIds(AllStops(plans)) && NoClash(plans, original.days)
      && forall id | id != "" && PlanCount(plans, id) == 0 && !IsMadeUp(plans, original.days, id) :: IdCount(original.pois, id) <= 1
  {
    var saved := BuildJourneyData(w, original, plans).pois;
    forall id | id != ""
      ensures IdCount(saved, id) ==
        (if IsMadeUp(plans, original.days, id) then PlanCount(plans, id) + 1
         else if PlanCount(plans, id) > 0 then PlanCount(plans, id)
         else IdCount(original.pois, id))
    {
      SavedPoisCount(w, original, plans, id);
    }
    NoClashIff(plans, original.days);
    if DistinctIds(saved) {
      forall id | id != ""
        ensures IdCount(AllStops(plans), id) <= 1 && (IsMadeUp(plans, original.days, id) ==> PlanCount(plans, id) == 0)
      {
        assert IdCount(saved, id) <= 1;
      }
    }
  }

  /** From distinct ids on the plan and in the catalogue, clashes are the only thing that can go wrong. */
  lemma SaveKeepsDistinctIff(w: Wording, original: JourneyData, plans: seq<DayPlan>)
    requires Aligned(plans, original.days) && DistinctIds(AllStops(plans)) && DistinctIds(original.pois)
    ensures DistinctIds(BuildJourneyData(w, original, plans).pois) <==> NoClash(plans, original.days)
  {
    SavedIdsDistinctIff(w, original, plans);
  }
}
