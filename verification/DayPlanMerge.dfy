/** Merging the day plans of several sources into one plan (frontend/journey-map-data.js). */
module DayPlanMerge {
  import opened Text
  import opened Journey
  import opened FirstSeen

  /** A day as a source gives it; number 0 and empty texts are missing, `None` is an absent field. */
  datatype Day = Day(
    dayNumber: nat, key: string, dayLabel: string, title: string, note: string,
    waypoints: seq<string>, stops: seq<Stop>, segments: seq<Segment>,
    points: Option<seq<string>>, summary: Option<string>, routeNote: Option<string>)

  /** Cleaning a place name, and reading a day number from the texts of a day (0 if there is none). */
  datatype Rules = Rules(clean: string -> string, parseDayNumber: Day -> nat)

  function Given(t: Option<string>): (s: string) {
    if t.Some? then t.value else ""
  }

  function StopName(r: Rules): (f: Stop -> string) {
    (stop: Stop) => r.clean(stop.name)
  }

  function Cleaned(r: Rules, names: seq<string>): (c: seq<string>) {
    seq(|names|, i requires 0 <= i < |names| => r.clean(names[i]))
  }

  function StopNames(r: Rules, stops: seq<Stop>): (names: seq<string>) {
    if stops == [] then []
    else (if r.clean(stops[0].name) == "" then [] else [r.clean(stops[0].name)]) + StopNames(r, stops[1..])
  }

  function GivenWaypoints(r: Rules, day: Day): (names: seq<string>) {
    day.waypoints + (if day.points.Some? then day.points.value else []) + StopNames(r, day.stops)
  }

  function PlanDayNumber(r: Rules, day: Day, fallback: nat): (n: nat) {
    if day.dayNumber > 0 then day.dayNumber
    else if r.parseDayNumber(day) > 0 then r.parseDayNumber(day)
    else fallback
  }

  function NormalizeJourneyModalDayPlan(r: Rules, day: Day, fallback: nat): (d: Day) {
    var n := PlanDayNumber(r, day, fallback);
    day.(dayNumber := n,
         key := Or(day.key, "report-day-" + Decimal(n)),
         dayLabel := Or(day.dayLabel, "Day " + Decimal(n)),
         title := Or(day.title, Or(Given(day.summary), "Day " + Decimal(n))),
         note := Or(day.note, Or(Given(day.routeNote), Given(day.summary))),
         waypoints := FirstBy(SameText, Cleaned(r, GivenWaypoints(r, day))))
  }

  /** Where a day number comes from: the day says it, else its texts do, else it is the place in the list. */
  lemma DayNumberOf(r: Rules, day: Day, place: nat)
    requires place > 0
    ensures var d := NormalizeJourneyModalDayPlan(r, day, place);
      && d.dayNumber > 0
      && (day.dayNumber > 0 ==> d.dayNumber == day.dayNumber)
      && (day.dayNumber == 0 && r.parseDayNumber(day) > 0 ==> d.dayNumber == r.parseDayNumber(day))
      && (day.dayNumber == 0 && r.parseDayNumber(day) == 0 ==> d.dayNumber == place)
  {}

  /** Where the names of a day come from, and what is left alone. */
  lemma DayTexts(r: Rules, day: Day, place: nat)
    ensures var d := NormalizeJourneyModalDayPlan(r, day, place);
      var numbered := "Day " + Decimal(d.dayNumber);
      && (if day.key != "" then d.key == day.key else d.key == "report-day-" + Decimal(d.dayNumber))
      && (if day.dayLabel != "" then d.dayLabel == day.dayLabel else d.dayLabel == numbered)
      && (day.title != "" ==> d.title == day.title)
      && (day.title == "" && Given(day.summary) != "" ==> d.title == Given(day.summary))
      && (day.title == "" && Given(day.summary) == "" ==> d.title == numbered)
      && (day.note != "" ==> d.note == day.note)
      && (day.note == "" && Given(day.routeNote) != "" ==> d.note == Given(day.routeNote))
      && (day.note == "" && Given(day.routeNote) == "" ==> d.note == Given(day.summary))
      && d.stops == day.stops && d.segments == day.segments
      && d.points == day.points && d.summary == day.summary && d.routeNote == day.routeNote
  {}

  // ---------- Merging the days of one number ----------

  function Over<T>(before: Option<T>, after: Option<T>): (r: Option<T>) {
    if after.Some? then after else before
  }

  function MergeDay(r: Rules, existing: Option<Day>, day: Day): (d: Day) {
    match existing
    case None => day.(waypoints := FirstBy(SameText, day.waypoints), stops := FirstBy(StopName(r), day.stops))
    case Some(e) =>
      day.(key := Or(e.key, day.key), dayLabel := Or(e.dayLabel, day.dayLabel), title := Or(e.title, day.title),
           note := Or(e.note, day.note),
           waypoints := FirstBy(SameText, e.waypoints + day.waypoints),
           stops := FirstBy(StopName(r), e.stops + day.stops),
           segments := if e.segments != [] then e.segments else day.segments,
           points := Over(e.points, day.points), summary := Over(e.summary, day.summary),
           routeNote := Over(e.routeNote, day.routeNote))
  }

  /** The days of one number, merged from the first to the last. */
  function Combined(r: Rules, days: seq<Day>): (d: Option<Day>) {
    if days == [] then None
    else Some(MergeDay(r, Combined(r, days[..|days| - 1]), days[|days| - 1]))
  }

  /** The usable candidates in order; the place in the list is the last resort for a day number. */
  function Normalized(r: Rules, candidates: seq<Option<Day>>): (days: seq<Day>) {
    if candidates == [] then []
    else
      var last := |candidates| - 1;
      Normalized(r, candidates[..last]) +
      if candidates[last].None? then [] else [NormalizeJourneyModalDayPlan(r, candidates[last].value, last + 1)]
  }

  function OfDay(days: seq<Day>, n: nat): (d: seq<Day>) {
    if days == [] then []
    else OfDay(days[..|days| - 1], n) + if days[|days| - 1].dayNumber == n then [days[|days| - 1]] else []
  }

  function MaxDay(days: seq<Day>): (n: nat) {
    if days == [] then 0
    else
      var rest := MaxDay(days[..|days| - 1]);
      if days[|days| - 1].dayNumber > rest then days[|days| - 1].dayNumber else rest
  }

  function EmptyDay(n: nat): (d: Day) {
    Day(n, "report-day-" + Decimal(n), "Day " + Decimal(n), "Day " + Decimal(n), "当天路线待核验。", [], [], [], None, None, None)
  }

  function DayResult(r: Rules, days: seq<Day>, n: nat): (d: Day) {
    match Combined(r, OfDay(days, n))
    case None => EmptyDay(n)
    case Some(d) => d
  }

  function PlanUpTo(r: Rules, days: seq<Day>, n: nat): (plan: seq<Day>)
    ensures |plan| == n
  {
    if n == 0 then [] else PlanUpTo(r, days, n - 1) + [DayResult(r, days, n)]
  }

  /** The merged plan: one day for every number from 1 to the largest. */
  function MergedPlan(r: Rules, candidates: seq<Option<Day>>): (plan: seq<Day>) {
    PlanUpTo(r, Normalized(r, candidates), MaxDay(Normalized(r, candidates)))
  }

  function Lookup(byDay: map<nat, Day>, n: nat): (d: Option<Day>) {
    if n in byDay then Some(byDay[n]) else None
  }

  /** The map holds the merged day of every number met so far. */
  ghost predicate Collected(r: Rules, byDay: map<nat, Day>, days: seq<Day>) {
    forall n: nat :: Lookup(byDay, n) == Combined(r, OfDay(days, n))
  }

  method MergeJourneyDayPlanSources(r: Rules, candidates: seq<Option<Day>>) returns (result: seq<Day>)
    ensures result == MergedPlan(r, candidates)
  {
    var byDay: map<nat, Day> := map[];
    var maxDay := 0;
    ghost var days: seq<Day> := [];
    for index := 0 to |candidates|
      invariant days == Normalized(r, candidates[..index])
      invariant maxDay == MaxDay(days) && Collected(r, byDay, days)
    {
      NormalizedTake(r, candidates, index);
      if candidates[index].Some? {
        var normalized := NormalizeJourneyModalDayPlan(r, candidates[index].value, index + 1);
        CollectedStep(r, byDay, days, normalized);
        maxDay := if normalized.dayNumber > maxDay then normalized.dayNumber else maxDay;
        byDay := byDay[normalized.dayNumber := MergeDay(r, Lookup(byDay, normalized.dayNumber), normalized)];
        days := days + [normalized];
      }
    }
    assert candidates[..|candidates|] == candidates;
    result := AllDays(r, byDay, maxDay, days);
  }

  lemma NormalizedTake(r: Rules, candidates: seq<Option<Day>>, n: nat)
    requires n < |candidates|
    ensures var before := Normalized(r, candidates[..n]);
      Normalized(r, candidates[..n + 1]) ==
      if candidates[n].None? then before else before + [NormalizeJourneyModalDayPlan(r, candidates[n].value, n + 1)]
  {
    assert candidates[..n + 1][..n] == candidates[..n];
    assert Normalized(r, candidates[..n]) + [] == Normalized(r, candidates[..n]);
  }

  /** The closing loop: every number from 1 to the largest, with an empty day for a gap. */
  method AllDays(r: Rules, byDay: map<nat, Day>, maxDay: nat, ghost days: seq<Day>) returns (result: seq<Day>)
    requires Collected(r, byDay, days)
    ensures result == PlanUpTo(r, days, maxDay)
  {
    result := [];
    var dayNumber := 1;
    while dayNumber <= maxDay
      invariant 1 <= dayNumber <= maxDay + 1 && result == PlanUpTo(r, days, dayNumber - 1)
    {
      CollectedDay(r, byDay, days, dayNumber);
      result := result + [if dayNumber in byDay then byDay[dayNumber] else EmptyDay(dayNumber)];
      dayNumber := dayNumber + 1;
    }
  }

  lemma CollectedDay(r: Rules, byDay: map<nat, Day>, days: seq<Day>, n: nat)
    requires Collected(r, byDay, days)
    ensures DayResult(r, days, n) == if n in byDay then byDay[n] else EmptyDay(n)
  {
    assert Lookup(byDay, n) == Combined(r, OfDay(days, n));
  }

  lemma OfDayStep(days: seq<Day>, day: Day, n: nat)
    ensures OfDay(days + [day], n) == if n == day.dayNumber then OfDay(days, n) + [day] else OfDay(days, n)
    ensures MaxDay(days + [day]) == if day.dayNumber > MaxDay(days) then day.dayNumber else MaxDay(days)
  {
    assert (days + [day])[..|days|] == days;
    assert OfDay(days, n) + [] == OfDay(days, n);
  }

  lemma CombinedStep(r: Rules, days: seq<Day>, day: Day)
    ensures Combined(r, days + [day]) == Some(MergeDay(r, Combined(r, days), day))
  {
    assert (days + [day])[..|days|] == days;
  }

  lemma CollectedStep(r: Rules, byDay: map<nat, Day>, days: seq<Day>, day: Day)
    requires Collected(r, byDay, days)
    ensures MaxDay(days + [day]) == if day.dayNumber > MaxDay(days) then day.dayNumber else MaxDay(days)
    ensures Collected(r, byDay[day.dayNumber := MergeDay(r, Lookup(byDay, day.dayNumber), day)], days + [day])
  {
    var later := byDay[day.dayNumber := MergeDay(r, Lookup(byDay, day.dayNumber), day)];
    OfDayStep(days, day, day.dayNumber);
    forall n: nat
      ensures Lookup(later, n) == Combined(r, OfDay(days + [day], n))
    {
      OfDayStep(days, day, n);
      CombinedStep(r, OfDay(days, n), day);
      assert Lookup(byDay, n) == Combined(r, OfDay(days, n));
    }
  }

  lemma MergedAt(r: Rules, candidates: seq<Option<Day>>, n: nat)
    requires 1 <= n <= |MergedPlan(r, candidates)|
    ensures MergedPlan(r, candidates)[n - 1] == DayResult(r, Normalized(r, candidates), n)
  {
    var days := Normalized(r, candidates);
    PlanAt(r, days, MaxDay(days), n);
  }

  lemma {:induction false} PlanAt(r: Rules, days: seq<Day>, max: nat, n: nat)
    requires 1 <= n <= max
    ensures PlanUpTo(r, days, max)[n - 1] == DayResult(r, days, n)
  {
    if n < max {
      PlanAt(r, days, max - 1, n);
    }
  }

  // ---------- What a merged day holds ----------

  function AllWaypoints(days: seq<Day>): (names: seq<string>) {
    if days == [] then [] else AllWaypoints(days[..|days| - 1]) + days[|days| - 1].waypoints
  }

  function AllStopsOf(days: seq<Day>): (stops: seq<Stop>) {
    if days == [] then [] else AllStopsOf(days[..|days| - 1]) + days[|days| - 1].stops
  }

  function FirstNote(days: seq<Day>): (note: string) {
    if days == [] then "" else Or(days[0].note, FirstNote(days[1..]))
  }

  function FirstSegments(days: seq<Day>): (segments: seq<Segment>) {
    if days == [] then [] else if days[0].segments != [] then days[0].segments else FirstSegments(days[1..])
  }

  predicate Named(day: Day) {
    day.key != "" && day.dayLabel != "" && day.title != ""
  }

  lemma {:induction false} FirstOfMore(days: seq<Day>, day: Day)
    ensures FirstNote(days + [day]) == Or(FirstNote(days), day.note)
    ensures FirstSegments(days + [day]) == if FirstSegments(days) != [] then FirstSegments(days) else day.segments
  {
    if days == [] {
      assert ([day])[1..] == [];
    } else {
      assert (days + [day])[1..] == days[1..] + [day];
      FirstOfMore(days[1..], day);
    }
  }

  lemma {:induction false} CombinedNames(r: Rules, days: seq<Day>)
    requires days != [] && forall i | 0 <= i < |days| :: Named(days[i])
    ensures var d := Combined(r, days).value;
      && d.key == days[0].key && d.dayLabel == days[0].dayLabel && d.title == days[0].title
      && d.note == FirstNote(days) && d.segments == FirstSegments(days)
  {
    var last := |days| - 1;
    assert days == days[..last] + [days[last]];
    FirstOfMore(days[..last], days[last]);
    if last > 0 {
      CombinedNames(r, days[..last]);
    }
  }

  function LastPoints(days: seq<Day>): (points: Option<seq<string>>) {
    if days == [] then None else if days[|days| - 1].points.Some? then days[|days| - 1].points else LastPoints(days[..|days| - 1])
  }

  function LastSummary(days: seq<Day>): (summary: Option<string>) {
    if days == [] then None else if days[|days| - 1].summary.Some? then days[|days| - 1].summary else LastSummary(days[..|days| - 1])
  }

  function LastRouteNote(days: seq<Day>): (note: Option<string>) {
    if days == [] then None else if days[|days| - 1].routeNote.Some? then days[|days| - 1].routeNote else LastRouteNote(days[..|days| - 1])
  }

  /** Of the fields that no rule names, the last one given is kept. */
  lemma {:induction false} CombinedKeepsLast(r: Rules, days: seq<Day>)
    requires days != []
    ensures var d := Combined(r, days).value;
      d.points == LastPoints(days) && d.summary == LastSummary(days) && d.routeNote == LastRouteNote(days)
  {
    var last := |days| - 1;
    if last > 0 {
      CombinedKeepsLast(r, days[..last]);
    }
  }

  lemma {:induction false} CombinedWaypoints(r: Rules, days: seq<Day>)
    requires days != []
    ensures Combined(r, days).value.waypoints == FirstBy(SameText, AllWaypoints(days))
  {
    var last := |days| - 1;
    if last == 0 {
      assert [] + days[last].waypoints == days[last].waypoints;
    } else {
      CombinedWaypoints(r, days[..last]);
      FirstBySplit(SameText, AllWaypoints(days[..last]), days[last].waypoints);
    }
  }

  lemma {:induction false} CombinedStops(r: Rules, days: seq<Day>)
    requires days != []
    ensures Combined(r, days).value.stops == FirstBy(StopName(r), AllStopsOf(days))
  {
    var last := |days| - 1;
    if last == 0 {
      assert [] + days[last].stops == days[last].stops;
    } else {
      CombinedStops(r, days[..last]);
      FirstBySplit(StopName(r), AllStopsOf(days[..last]), days[last].stops);
    }
  }

  lemma {:induction false} OfDayMembers(days: seq<Day>, n: nat)
    ensures forall i | 0 <= i < |OfDay(days, n)| :: OfDay(days, n)[i] in days && OfDay(days, n)[i].dayNumber == n
    ensures (exists d :: d in days && d.dayNumber == n) <==> OfDay(days, n) != []
  {
    if days != [] {
      var last := |days| - 1;
      OfDayMembers(days[..last], n);
      assert days == days[..last] + [days[last]];
      assert days[last] in days;
    }
  }

  lemma {:induction false} NormalizedAreNamed(r: Rules, candidates: seq<Option<Day>>)
    ensures forall d | d in Normalized(r, candidates) :: Named(d) && d.dayNumber > 0
  {
    if candidates != [] {
      NormalizedAreNamed(r, candidates[..|candidates| - 1]);
    }
  }

  /**
    `d` has every waypoint and every stop of the given days, once each and in first-seen order; the
    first one gives the names, the first that has them gives the note and the segments, and the last
    that has them the points, the summary and the route note.
   */
  ghost predicate HoldsAll(r: Rules, d: Day, given: seq<Day>)
    requires given != []
  {
    && d.key == given[0].key && d.dayLabel == given[0].dayLabel && d.title == given[0].title
    && d.note == FirstNote(given) && d.segments == FirstSegments(given)
    && d.waypoints == FirstBy(SameText, AllWaypoints(given))
    && d.stops == FirstBy(StopName(r), AllStopsOf(given))
    && d.points == LastPoints(given) && d.summary == LastSummary(given) && d.routeNote == LastRouteNote(given)
  }

  lemma CombinedHoldsAll(r: Rules, given: seq<Day>)
    requires given != [] && forall i | 0 <= i < |given| :: Named(given[i])
    ensures HoldsAll(r, Combined(r, given).value, given)
  {
    CombinedNames(r, given);
    CombinedWaypoints(r, given);
    CombinedStops(r, given);
    CombinedKeepsLast(r, given);
  }

  /** Day `n` of the merged plan holds all that the sources give for it; a day of no source is empty. */
  lemma MergedDayHolds(r: Rules, candidates: seq<Option<Day>>, n: nat)
    requires 1 <= n <= |MergedPlan(r, candidates)|
    ensures var given := OfDay(Normalized(r, candidates), n);
      if given == [] then MergedPlan(r, candidates)[n - 1] == EmptyDay(n)
      else HoldsAll(r, MergedPlan(r, candidates)[n - 1], given)
  {
    var days := Normalized(r, candidates);
    NormalizedAreNamed(r, candidates);
    OfDayMembers(days, n);
    MergedAt(r, candidates, n);
    if OfDay(days, n) != [] {
      CombinedHoldsAll(r, OfDay(days, n));
    }
  }

  lemma {:induction false} MaxIsReached(days: seq<Day>)
    ensures forall d | d in days :: d.dayNumber <= MaxDay(days)
    ensures MaxDay(days) > 0 ==> exists d :: d in days && d.dayNumber == MaxDay(days)
  {
    if days != [] {
      var last := |days| - 1;
      MaxIsReached(days[..last]);
      assert days == days[..last] + [days[last]];
      assert days[last] in days;
    }
  }

  lemma {:induction false} CombinedNumber(r: Rules, days: seq<Day>, n: nat)
    requires days != [] && forall d | d in days :: d.dayNumber == n
    ensures Combined(r, days).value.dayNumber == n
  {
    assert days[|days| - 1] in days;
  }

  lemma {:induction false} PlanNumbered(r: Rules, days: seq<Day>, max: nat)
    ensures Numbered(PlanUpTo(r, days, max))
  {
    if max > 0 {
      PlanNumbered(r, days, max - 1);
      DayResultNumber(r, days, max);
    }
  }

  /** The merged plan has the days 1, 2, 3 ... in order, */
  lemma MergedDaysInOrder(r: Rules, candidates: seq<Option<Day>>)
    ensures Numbered(MergedPlan(r, candidates))
  {
    PlanNumbered(r, Normalized(r, candidates), MaxDay(Normalized(r, candidates)));
  }

  /** ... up to exactly the largest number of any source. */
  lemma MergedDaysReachMax(r: Rules, candidates: seq<Option<Day>>)
    ensures var n := |MergedPlan(r, candidates)|;
      && (forall d | d in Normalized(r, candidates) :: 1 <= d.dayNumber <= n)
      && (n > 0 ==> exists d :: d in Normalized(r, candidates) && d.dayNumber == n)
  {
    NormalizedAreNamed(r, candidates);
    MaxIsReached(Normalized(r, candidates));
  }

  /** Days with the numbers 1, 2, 3 ... in this order. */
  predicate Numbered(plan: seq<Day>) {
    forall i | 0 <= i < |plan| :: plan[i].dayNumber == i + 1
  }

  lemma DayResultNumber(r: Rules, days: seq<Day>, n: nat)
    ensures DayResult(r, days, n).dayNumber == n
  {
    OfDayMembers(days, n);
    if OfDay(days, n) != [] {
      CombinedNumber(r, OfDay(days, n), n);
    }
  }

  // ---------- Exactly the given names arrive ----------

  /** The names, cleaned, that a source gives for a day; names of stops are cleaned twice. */
  ghost predicate Gives(r: Rules, day: Day, name: string) {
    name != "" &&
    ((exists n :: n in day.waypoints && r.clean(n) == name)
     || (day.points.Some? && exists n :: n in day.points.value && r.clean(n) == name)
     || (exists s :: s in day.stops && r.clean(s.name) != "" && r.clean(r.clean(s.name)) == name))
  }

  lemma {:induction false} StopNamesIff(r: Rules, stops: seq<Stop>, name: string)
    ensures name in StopNames(r, stops) <==> name != "" && exists s :: s in stops && r.clean(s.name) == name
  {
    if stops != [] {
      StopNamesIff(r, stops[1..], name);
      assert stops[0] in stops;
      assert forall s | s in stops :: s == stops[0] || s in stops[1..];
    }
  }

  lemma CleanedIff(r: Rules, names: seq<string>, name: string)
    ensures name in Cleaned(r, names) <==> exists n :: n in names && r.clean(n) == name
  {
    if n :| n in names && r.clean(n) == name {
      var i :| 0 <= i < |names| && names[i] == n;
      assert Cleaned(r, names)[i] == name;
    }
  }

  lemma GivenIff(r: Rules, day: Day, name: string)
    ensures (name != "" && name in Cleaned(r, GivenWaypoints(r, day))) <==> Gives(r, day, name)
  {
    CleanedIff(r, GivenWaypoints(r, day), name);
    if n :| n in GivenWaypoints(r, day) && r.clean(n) == name {
      StopNamesIff(r, day.stops, n);
    }
    if s :| s in day.stops && r.clean(s.name) != "" && r.clean(r.clean(s.name)) == name {
      StopNamesIff(r, day.stops, r.clean(s.name));
      assert r.clean(s.name) in GivenWaypoints(r, day);
    }
  }

  lemma StopsComeFrom(r: Rules, stops: seq<Stop>)
    ensures forall s | s in FirstBy(StopName(r), stops) :: s in stops
  {}

  lemma NamesComeFrom(names: seq<string>)
    ensures forall s | s in FirstBy(SameText, names) :: s in names
    ensures forall s | s in names && s != "" :: s in FirstBy(SameText, names)
  {}

  lemma FirstTextsIff(names: seq<string>, name: string)
    ensures name in FirstBy(SameText, names) <==> name != "" && name in names
  {
    NamesComeFrom(names);
    FirstByDistinct(SameText, names);
    if name in FirstBy(SameText, names) {
      var i :| 0 <= i < |FirstBy(SameText, names)| && FirstBy(SameText, names)[i] == name;
      assert SameText(FirstBy(SameText, names)[i]) != "";
    }
  }

  /** A day's own waypoints come first, then the names of its points, then those of its stops. */
  lemma WaypointsComeFirst(r: Rules, day: Day, fallback: nat)
    ensures var d := NormalizeJourneyModalDayPlan(r, day, fallback);
      var points := if day.points.Some? then day.points.value else [];
      && FirstBy(SameText, Cleaned(r, day.waypoints)) <= FirstBy(SameText, Cleaned(r, day.waypoints + points)) <= d.waypoints
  {
    var points := if day.points.Some? then day.points.value else [];
    CleanedAppend(r, day.waypoints, points);
    CleanedAppend(r, day.waypoints + points, StopNames(r, day.stops));
    FirstByGrows(SameText, Cleaned(r, day.waypoints), Cleaned(r, points));
    FirstByGrows(SameText, Cleaned(r, day.waypoints + points), Cleaned(r, StopNames(r, day.stops)));
  }

  /** A day that no source gives is named by its number, and has nothing in it. */
  lemma GapIsEmpty(r: Rules, candidates: seq<Option<Day>>, n: nat)
    requires 1 <= n <= |MergedPlan(r, candidates)|
    requires forall d | d in Normalized(r, candidates) :: d.dayNumber != n
    ensures var d := MergedPlan(r, candidates)[n - 1];
      && d.dayNumber == n && d.key == "report-day-" + Decimal(n) && d.dayLabel == d.title == "Day " + Decimal(n)
      && d.note != "" && d.waypoints == [] && d.stops == [] && d.segments == []
  {
    OfDayMembers(Normalized(r, candidates), n);
    MergedAt(r, candidates, n);
  }

  lemma NormalizedGives(r: Rules, day: Day, fallback: nat, name: string)
    ensures name in NormalizeJourneyModalDayPlan(r, day, fallback).waypoints <==> Gives(r, day, name)
  {
    FirstTextsIff(Cleaned(r, GivenWaypoints(r, day)), name);
    GivenIff(r, day, name);
  }

  lemma {:induction false} WaypointsOfDay(days: seq<Day>, n: nat, name: string)
    ensures name in AllWaypoints(OfDay(days, n)) <==> HasWaypoint(days, n, name)
  {
    if days != [] {
      var front, last := days[..|days| - 1], days[|days| - 1];
      WaypointsOfDay(front, n, name);
      OfDayStep(front, last, n);
      assert days == front + [last];
      var given := OfDay(front, n);
      assert (given + [last])[..|given|] == given;
      HasWaypointStep(front, last, n, name);
    }
  }

  /** Candidate `i` counts for day `n` and gives the name. */
  ghost predicate CandidateGives(r: Rules, candidates: seq<Option<Day>>, n: nat, name: string, i: nat)
    requires i < |candidates|
  {
    candidates[i].Some? && PlanDayNumber(r, candidates[i].value, i + 1) == n && Gives(r, candidates[i].value, name)
  }

  /** Some day of that number has the waypoint. */
  ghost predicate HasWaypoint(days: seq<Day>, n: nat, name: string) {
    exists d :: d in days && d.dayNumber == n && name in d.waypoints
  }

  lemma HasWaypointStep(days: seq<Day>, day: Day, n: nat, name: string)
    ensures HasWaypoint(days + [day], n, name) <==> HasWaypoint(days, n, name) || (day.dayNumber == n && name in day.waypoints)
  {
    assert day in days + [day];
    assert forall d | d in days + [day] :: d in days || d == day;
    assert forall d | d in days :: d in days + [day];
  }

  ghost predicate SomeGives(r: Rules, candidates: seq<Option<Day>>, n: nat, name: string) {
    exists i :: 0 <= i < |candidates| && CandidateGives(r, candidates, n, name, i)
  }

  lemma SomeGivesStep(r: Rules, candidates: seq<Option<Day>>, n: nat, name: string)
    requires candidates != []
    ensures var last := |candidates| - 1;
      SomeGives(r, candidates, n, name) <==>
        SomeGives(r, candidates[..last], n, name) || CandidateGives(r, candidates, n, name, last)
  {
    var last := |candidates| - 1;
    assert forall i | 0 <= i < last ::
        CandidateGives(r, candidates[..last], n, name, i) == CandidateGives(r, candidates, n, name, i);
  }

  lemma {:induction false} NormalizedGivesIff(r: Rules, candidates: seq<Option<Day>>, n: nat, name: string)
    ensures HasWaypoint(Normalized(r, candidates), n, name) <==> SomeGives(r, candidates, n, name)
  {
    if candidates != [] {
      var last := |candidates| - 1;
      NormalizedGivesIff(r, candidates[..last], n, name);
      SomeGivesStep(r, candidates, n, name);
      LastGivesIff(r, candidates, n, name);
    }
  }

  lemma LastGivesIff(r: Rules, candidates: seq<Option<Day>>, n: nat, name: string)
    requires candidates != []
    ensures var last := |candidates| - 1;
      HasWaypoint(Normalized(r, candidates), n, name) <==>
        HasWaypoint(Normalized(r, candidates[..last]), n, name) || CandidateGives(r, candidates, n, name, last)
  {
    var last := |candidates| - 1;
    assert candidates[..last + 1] == candidates;
    NormalizedTake(r, candidates, last);
    if candidates[last].Some? {
      NormalizedGives(r, candidates[last].value, last + 1, name);
      HasWaypointStep(Normalized(r, candidates[..last]), NormalizeJourneyModalDayPlan(r, candidates[last].value, last + 1), n, name);
    }
  }

  lemma DayWaypointsIff(r: Rules, days: seq<Day>, n: nat, name: string)
    ensures name in DayResult(r, days, n).waypoints <==>
      name != "" && HasWaypoint(days, n, name)
    ensures KeysDistinct(SameText, DayResult(r, days, n).waypoints)
  {
    var given := OfDay(days, n);
    WaypointsOfDay(days, n, name);
    if given != [] {
      CombinedWaypoints(r, given);
      FirstTextsIff(AllWaypoints(given), name);
      FirstByDistinct(SameText, AllWaypoints(given));
    }
  }

  /**
    The waypoints of a merged day are exactly the cleaned waypoint, point and stop names that the
    sources give for it, each once.
   */
  lemma NamesArriveIff(r: Rules, candidates: seq<Option<Day>>, n: nat, name: string)
    requires 1 <= n <= |MergedPlan(r, candidates)|
    ensures var waypoints := MergedPlan(r, candidates)[n - 1].waypoints;
      && (name in waypoints <==> SomeGives(r, candidates, n, name))
      && KeysDistinct(SameText, waypoints)
  {
    MergedAt(r, candidates, n);
    DayWaypointsIff(r, Normalized(r, candidates), n, name);
    NormalizedGivesIff(r, candidates, n, name);
  }

  lemma {:induction false} NormalizedHas(r: Rules, candidates: seq<Option<Day>>, i: nat)
    requires i < |candidates| && candidates[i].Some?
    ensures NormalizeJourneyModalDayPlan(r, candidates[i].value, i + 1) in Normalized(r, candidates)
  {
    if i < |candidates| - 1 {
      NormalizedHas(r, candidates[..|candidates| - 1], i);
    }
  }

  lemma CandidateHasDay(r: Rules, candidates: seq<Option<Day>>, i: nat)
    requires i < |candidates| && candidates[i].Some?
    ensures 1 <= PlanDayNumber(r, candidates[i].value, i + 1) <= |MergedPlan(r, candidates)|
  {
    NormalizedHas(r, candidates, i);
    MergedDaysReachMax(r, candidates);
  }

  /** No given name is lost: the plan has the day of every candidate, and the name is a waypoint there. */
  lemma EveryNameArrives(r: Rules, candidates: seq<Option<Day>>, i: nat, name: string)
    requires i < |candidates| && candidates[i].Some? && Gives(r, candidates[i].value, name)
    ensures var n := PlanDayNumber(r, candidates[i].value, i + 1);
      1 <= n <= |MergedPlan(r, candidates)| && name in MergedPlan(r, candidates)[n - 1].waypoints
  {
    var n := PlanDayNumber(r, candidates[i].value, i + 1);
    CandidateHasDay(r, candidates, i);
    assert CandidateGives(r, candidates, n, name, i);
    assert SomeGives(r, candidates, n, name);
    NamesArriveIff(r, candidates, n, name);
  }

  // ---------- Merging the result again ----------

  /** A merged plan given as a source again. */
  function AsSource(plan: seq<Day>): (candidates: seq<Option<Day>>) {
    seq(|plan|, i requires 0 <= i < |plan| => Some(plan[i]))
  }

  /** The day with its names cleaned and collected once more. */
  function Again(r: Rules, d: Day): (a: Day) {
    d.(waypoints := FirstBy(SameText, Cleaned(r, GivenWaypoints(r, d))))
  }

  function AllAgain(r: Rules, plan: seq<Day>): (a: seq<Day>)
    ensures |a| == |plan|
  {
    if plan == [] then [] else AllAgain(r, plan[..|plan| - 1]) + [Again(r, plan[|plan| - 1])]
  }

  predicate NoneOrEmpty(t: Option<string>) {
    Given(t) == ""
  }

  /** A day in which normalizing and merging alone change at most the waypoints. */
  predicate Firm(r: Rules, d: Day) {
    && d.dayNumber > 0 && Named(d)
    && (d.note == "" ==> NoneOrEmpty(d.routeNote) && NoneOrEmpty(d.summary))
    && KeysDistinct(StopName(r), d.stops)
  }

  predicate AllFirm(r: Rules, plan: seq<Day>) {
    forall i | 0 <= i < |plan| :: Firm(r, plan[i])
  }

  lemma NormalizedStep(r: Rules, candidates: seq<Option<Day>>, day: Day)
    ensures Normalized(r, candidates + [Some(day)]) ==
      Normalized(r, candidates) + [NormalizeJourneyModalDayPlan(r, day, |candidates| + 1)]
  {
    assert (candidates + [Some(day)])[..|candidates|] == candidates;
  }

  lemma AsSourceStep(plan: seq<Day>, day: Day)
    ensures AsSource(plan + [day]) == AsSource(plan) + [Some(day)]
  {}

  lemma FirmIsNormal(r: Rules, d: Day, fallback: nat)
    requires Firm(r, d)
    ensures NormalizeJourneyModalDayPlan(r, d, fallback) == Again(r, d)
  {}

  lemma {:induction false} FirmNormalized(r: Rules, plan: seq<Day>)
    requires AllFirm(r, plan)
    ensures Normalized(r, AsSource(plan)) == AllAgain(r, plan)
  {
    if plan != [] {
      var front, day := plan[..|plan| - 1], plan[|plan| - 1];
      assert plan == front + [day];
      FirmNormalized(r, front);
      AsSourceStep(front, day);
      NormalizedStep(r, AsSource(front), day);
      FirmIsNormal(r, day, |front| + 1);
    }
  }

  lemma {:induction false} AgainAt(r: Rules, plan: seq<Day>, i: nat)
    requires i < |plan|
    ensures AllAgain(r, plan)[i] == Again(r, plan[i])
  {
    if i < |plan| - 1 {
      AgainAt(r, plan[..|plan| - 1], i);
    }
  }

  lemma AgainMergesAlone(r: Rules, d: Day)
    requires Firm(r, d)
    ensures Combined(r, [Again(r, d)]) == Some(Again(r, d))
  {
    FirstByIdempotent(SameText, Cleaned(r, GivenWaypoints(r, d)));
    FirstByOfDistinct(StopName(r), d.stops);
    assert [Again(r, d)][..0] == [];
  }

  lemma {:induction false} NumberedMax(plan: seq<Day>)
    requires Numbered(plan)
    ensures MaxDay(plan) == |plan|
  {
    if plan != [] {
      NumberedMax(plan[..|plan| - 1]);
    }
  }

  lemma {:induction false} NumberedOfDay(plan: seq<Day>, n: nat)
    requires Numbered(plan)
    ensures OfDay(plan, n) == if 1 <= n <= |plan| then [plan[n - 1]] else []
  {
    if plan != [] {
      var last := |plan| - 1;
      NumberedOfDay(plan[..last], n);
      assert plan == plan[..last] + [plan[last]];
      OfDayStep(plan[..last], plan[last], n);
      assert n == last + 1 ==> OfDay(plan[..last], n) == [];
    }
  }

  lemma AgainDay(r: Rules, plan: seq<Day>, i: nat)
    requires Numbered(plan) && AllFirm(r, plan) && i < |plan|
    ensures Numbered(AllAgain(r, plan)) && DayResult(r, AllAgain(r, plan), i + 1) == Again(r, plan[i])
  {
    var again := AllAgain(r, plan);
    forall k | 0 <= k < |plan|
      ensures again[k].dayNumber == k + 1
    {
      AgainAt(r, plan, k);
    }
    NumberedOfDay(again, i + 1);
    AgainAt(r, plan, i);
    AgainMergesAlone(r, plan[i]);
  }

  lemma MergeOfFirm(r: Rules, plan: seq<Day>)
    requires Numbered(plan) && AllFirm(r, plan)
    ensures MergedPlan(r, AsSource(plan)) == AllAgain(r, plan)
  {
    var again := AllAgain(r, plan);
    FirmNormalized(r, plan);
    forall i | 0 <= i < |plan|
      ensures again[i].dayNumber == i + 1
    {
      AgainAt(r, plan, i);
    }
    NumberedMax(again);
    forall i | 0 <= i < |plan|
      ensures PlanUpTo(r, again, |plan|)[i] == again[i]
    {
      PlanAt(r, again, |plan|, i + 1);
      AgainDay(r, plan, i);
      AgainAt(r, plan, i);
    }
    SameSeq(PlanUpTo(r, again, |plan|), again);
  }

  lemma {:induction false} CombinedIsFirm(r: Rules, days: seq<Day>)
    requires days != [] && forall i | 0 <= i < |days| :: Noted(days[i])
    ensures Firm(r, Combined(r, days).value)
  {
    var last := |days| - 1;
    if last == 0 {
      FirstByDistinct(StopName(r), days[0].stops);
    } else {
      CombinedIsFirm(r, days[..last]);
      FirstByDistinct(StopName(r), Combined(r, days[..last]).value.stops + days[last].stops);
    }
  }

  /** What normalizing gives a day: a number, its names, and a note if there is anything to note. */
  predicate Noted(d: Day) {
    d.dayNumber > 0 && Named(d) && (d.note == "" ==> NoneOrEmpty(d.routeNote) && NoneOrEmpty(d.summary))
  }

  lemma {:induction false} NormalizedAreNoted(r: Rules, candidates: seq<Option<Day>>)
    ensures forall d | d in Normalized(r, candidates) :: Noted(d)
  {
    if candidates != [] {
      NormalizedAreNoted(r, candidates[..|candidates| - 1]);
    }
  }

  lemma DayResultIsFirm(r: Rules, candidates: seq<Option<Day>>, n: nat)
    requires n > 0
    ensures Firm(r, DayResult(r, Normalized(r, candidates), n))
  {
    var days := Normalized(r, candidates);
    NormalizedAreNoted(r, candidates);
    OfDayMembers(days, n);
    if OfDay(days, n) != [] {
      CombinedIsFirm(r, OfDay(days, n));
    }
  }

  lemma {:induction false} PlanIsFirm(r: Rules, candidates: seq<Option<Day>>, max: nat)
    ensures AllFirm(r, PlanUpTo(r, Normalized(r, candidates), max))
  {
    if max > 0 {
      PlanIsFirm(r, candidates, max - 1);
      DayResultIsFirm(r, candidates, max);
    }
  }

  /** Merging a merged plan again cleans and collects the waypoints once more and changes nothing else. */
  lemma MergeAgain(r: Rules, candidates: seq<Option<Day>>)
    ensures var plan := MergedPlan(r, candidates);
      MergedPlan(r, AsSource(plan)) == AllAgain(r, plan)
  {
    MergedDaysInOrder(r, candidates);
    PlanIsFirm(r, candidates, MaxDay(Normalized(r, candidates)));
    MergeOfFirm(r, MergedPlan(r, candidates));
  }

  /** Cleaning and collecting once more leaves the day as it is. */
  predicate Stays(r: Rules, d: Day) {
    Again(r, d) == d
  }

  predicate PlanStays(r: Rules, plan: seq<Day>) {
    AllAgain(r, plan) == plan
  }

  lemma AgainStep(r: Rules, plan: seq<Day>, d: Day)
    ensures PlanStays(r, plan + [d]) <==> PlanStays(r, plan) && Stays(r, d)
  {
    assert (plan + [d])[..|plan|] == plan;
    SnocIff(AllAgain(r, plan), Again(r, d), plan, d);
  }

  lemma SnocIff<T>(s: seq<T>, x: T, t: seq<T>, y: T)
    requires |s| == |t|
    ensures s + [x] == t + [y] <==> s == t && x == y
  {
    assert (s + [x])[..|s|] == s && (t + [y])[..|t|] == t;
    assert (s + [x])[|s|] == x && (t + [y])[|t|] == y;
  }

  /** So it is for all merged days up to the last. */
  predicate AllStay(r: Rules, days: seq<Day>, last: nat) {
    last == 0 || (AllStay(r, days, last - 1) && Stays(r, DayResult(r, days, last)))
  }

  lemma {:induction false} AllStayAt(r: Rules, days: seq<Day>, last: nat, n: nat)
    requires AllStay(r, days, last) && 1 <= n <= last
    ensures Stays(r, DayResult(r, days, n))
  {
    if n < last {
      AllStayAt(r, days, last - 1, n);
    }
  }

  lemma PlanStep(r: Rules, days: seq<Day>, last: nat)
    requires last > 0
    ensures PlanStays(r, PlanUpTo(r, days, last)) <==>
      PlanStays(r, PlanUpTo(r, days, last - 1)) && Stays(r, DayResult(r, days, last))
  {
    var front, d := PlanUpTo(r, days, last - 1), DayResult(r, days, last);
    AgainStep(r, front, d);
    assert PlanUpTo(r, days, last) == front + [d];
  }

  lemma {:induction false} PlanAgainIff(r: Rules, days: seq<Day>, last: nat)
    ensures PlanStays(r, PlanUpTo(r, days, last)) <==> AllStay(r, days, last)
  {
    if last > 0 {
      PlanAgainIff(r, days, last - 1);
      PlanStep(r, days, last);
    }
  }

  /** Merging again changes nothing exactly if no day changes. */
  lemma MergeAgainIff(r: Rules, candidates: seq<Option<Day>>)
    ensures MergedPlan(r, AsSource(MergedPlan(r, candidates))) == MergedPlan(r, candidates) <==>
      AllStay(r, Normalized(r, candidates), |MergedPlan(r, candidates)|)
  {
    MergeAgain(r, candidates);
    PlanAgainIff(r, Normalized(r, candidates), MaxDay(Normalized(r, candidates)));
  }

  // ---------- When that changes nothing ----------

  /** Cleaning the cleaned name changes nothing, or the name is dropped at once. */
  predicate CleansOnce(r: Rules, name: string) {
    r.clean(name) == "" || r.clean(r.clean(name)) == r.clean(name)
  }

  /** So it is for all names that a source gives. */
  predicate CleansGiven(r: Rules, day: Day) {
    && (forall n | n in day.waypoints :: CleansOnce(r, n))
    && (day.points.Some? ==> forall n | n in day.points.value :: CleansOnce(r, n))
    && (forall s | s in day.stops :: r.clean(s.name) == "" || CleansOnce(r, r.clean(s.name)))
  }

  predicate AllCleansGiven(r: Rules, candidates: seq<Option<Day>>) {
    forall i | 0 <= i < |candidates| && candidates[i].Some? :: CleansGiven(r, candidates[i].value)
  }

  lemma CleansGivenIff(r: Rules, day: Day)
    ensures CleansGiven(r, day) <==> forall name | Gives(r, day, name) :: r.clean(name) == name
  {
    if forall name | Gives(r, day, name) :: r.clean(name) == name {
      forall n | n in day.waypoints
        ensures CleansOnce(r, n)
      {
        assert r.clean(n) != "" ==> Gives(r, day, r.clean(n));
      }
      forall n | day.points.Some? && n in day.points.value
        ensures CleansOnce(r, n)
      {
        assert r.clean(n) != "" ==> Gives(r, day, r.clean(n));
      }
      forall s | s in day.stops && r.clean(s.name) != ""
        ensures CleansOnce(r, r.clean(s.name))
      {
        assert r.clean(r.clean(s.name)) != "" ==> Gives(r, day, r.clean(r.clean(s.name)));
      }
    }
  }

  /** The waypoints of the day are clean, and are all the names that it gives itself. */
  ghost predicate Collects(r: Rules, d: Day) {
    && KeysDistinct(SameText, d.waypoints)
    && (forall name | name in d.waypoints :: r.clean(name) == name)
    && (forall name | Gives(r, d, name) :: name in d.waypoints)
  }

  lemma CleanWaypoints(r: Rules, names: seq<string>)
    requires forall name | name in names :: r.clean(name) == name
    ensures Cleaned(r, names) == names
  {
    SameSeq(Cleaned(r, names), names);
  }

  lemma CollectedStays(r: Rules, d: Day)
    requires Collects(r, d)
    ensures Stays(r, d)
  {
    var rest := (if d.points.Some? then d.points.value else []) + StopNames(r, d.stops);
    assert GivenWaypoints(r, d) == d.waypoints + rest;
    CleanWaypoints(r, d.waypoints);
    CleanedAppend(r, d.waypoints, rest);
    forall name | name in Cleaned(r, rest)
      ensures name == "" || name in d.waypoints
    {
      GivenIff(r, d, name);
    }
    KnownAreAbsorbed(d.waypoints, Cleaned(r, rest));
  }

  lemma KnownAreAbsorbed(names: seq<string>, more: seq<string>)
    requires KeysDistinct(SameText, names) && forall name | name in more :: name == "" || name in names
    ensures FirstBy(SameText, names + more) == names
  {
    forall i | 0 <= i < |more|
      ensures SameText(more[i]) == "" || HasKey(SameText, names, SameText(more[i]))
    {
      assert more[i] in more;
      if more[i] != "" {
        var k :| 0 <= k < |names| && names[k] == more[i];
        assert SameText(names[k]) == more[i];
      }
    }
    FirstByAbsorbs(SameText, names, more);
  }

  lemma CleanedAppend(r: Rules, a: seq<string>, b: seq<string>)
    ensures Cleaned(r, a + b) == Cleaned(r, a) + Cleaned(r, b)
  {
    SameSeq(Cleaned(r, a + b), Cleaned(r, a) + Cleaned(r, b));
  }

  lemma NormalizedCollects(r: Rules, day: Day, fallback: nat)
    requires CleansGiven(r, day)
    ensures Collects(r, MergeDay(r, None, NormalizeJourneyModalDayPlan(r, day, fallback)))
  {
    var d := NormalizeJourneyModalDayPlan(r, day, fallback);
    FirstByDistinct(SameText, Cleaned(r, GivenWaypoints(r, day)));
    FirstByOfDistinct(SameText, d.waypoints);
    StopsComeFrom(r, d.stops);
    CleansGivenIff(r, day);
    forall name
      ensures name in d.waypoints <==> Gives(r, day, name)
    {
      NormalizedGives(r, day, fallback, name);
    }
  }

  /** Merging days that collect their names gives such a day again. */
  lemma MergeCollects(r: Rules, e: Day, day: Day)
    requires Collects(r, e) && Collects(r, MergeDay(r, None, day))
    ensures Collects(r, MergeDay(r, Some(e), day))
  {
    var d := MergeDay(r, Some(e), day);
    var alone := MergeDay(r, None, day);
    FirstByDistinct(SameText, e.waypoints + day.waypoints);
    FirstBySplitRight(StopName(r), e.stops, day.stops);
    StopsComeFrom(r, e.stops + alone.stops);
    forall name
      ensures name in d.waypoints <==> name in e.waypoints || name in alone.waypoints
    {
      FirstTextsIff(e.waypoints + day.waypoints, name);
      FirstTextsIff(day.waypoints, name);
      EmptyIsNoWaypoint(e);
    }
    forall name | Gives(r, d, name)
      ensures name in d.waypoints
    {
      MergedGives(r, e, day, name);
    }
  }

  lemma EmptyIsNoWaypoint(d: Day)
    requires KeysDistinct(SameText, d.waypoints)
    ensures "" !in d.waypoints
  {
    assert forall i | 0 <= i < |d.waypoints| :: SameText(d.waypoints[i]) == d.waypoints[i];
  }

  /** What a merged day gives, one of the two gives or has. */
  lemma MergedGives(r: Rules, e: Day, day: Day, name: string)
    requires Gives(r, MergeDay(r, Some(e), day), name)
    requires forall n | n in MergeDay(r, Some(e), day).waypoints :: r.clean(n) == n
    requires forall s | s in MergeDay(r, Some(e), day).stops :: s in e.stops || s in MergeDay(r, None, day).stops
    ensures name in MergeDay(r, Some(e), day).waypoints || Gives(r, e, name) || Gives(r, MergeDay(r, None, day), name)
  {
  }

  lemma {:induction false} CombinedCollects(r: Rules, days: seq<Day>)
    requires days != [] && forall i | 0 <= i < |days| :: Collects(r, MergeDay(r, None, days[i]))
    ensures Collects(r, Combined(r, days).value)
  {
    var last := |days| - 1;
    if last > 0 {
      CombinedCollects(r, days[..last]);
      MergeCollects(r, Combined(r, days[..last]).value, days[last]);
    }
  }

  lemma {:induction false} NormalizedAllCollect(r: Rules, candidates: seq<Option<Day>>)
    requires AllCleansGiven(r, candidates)
    ensures forall d | d in Normalized(r, candidates) :: Collects(r, MergeDay(r, None, d))
  {
    if candidates != [] {
      var last := |candidates| - 1;
      assert AllCleansGiven(r, candidates[..last]);
      NormalizedAllCollect(r, candidates[..last]);
      if candidates[last].Some? {
        NormalizedCollects(r, candidates[last].value, last + 1);
      }
    }
  }

  lemma DayResultCollects(r: Rules, candidates: seq<Option<Day>>, n: nat)
    requires AllCleansGiven(r, candidates)
    ensures Collects(r, DayResult(r, Normalized(r, candidates), n))
  {
    var given := OfDay(Normalized(r, candidates), n);
    NormalizedAllCollect(r, candidates);
    OfDayMembers(Normalized(r, candidates), n);
    if given != [] {
      CombinedCollects(r, given);
    }
  }

  /** Merging the result again changes nothing if the names that the sources give clean at once. */
  lemma MergeIdempotent(r: Rules, candidates: seq<Option<Day>>)
    requires AllCleansGiven(r, candidates)
    ensures MergedPlan(r, AsSource(MergedPlan(r, candidates))) == MergedPlan(r, candidates)
  {
    MergeAgainIff(r, candidates);
    DaysStay(r, candidates, |MergedPlan(r, candidates)|);
  }

  lemma {:induction false} DaysStay(r: Rules, candidates: seq<Option<Day>>, last: nat)
    requires AllCleansGiven(r, candidates)
    ensures AllStay(r, Normalized(r, candidates), last)
  {
    if last > 0 {
      DaysStay(r, candidates, last - 1);
      DayResultStays(r, candidates, last);
    }
  }

  lemma DayResultStays(r: Rules, candidates: seq<Option<Day>>, n: nat)
    requires AllCleansGiven(r, candidates)
    ensures Stays(r, DayResult(r, Normalized(r, candidates), n))
  {
    DayResultCollects(r, candidates, n);
    CollectedStays(r, DayResult(r, Normalized(r, candidates), n));
  }

  // ---------- Exactly when, for sources of waypoints only ----------

  predicate WaypointsOnly(d: Day) {
    d.stops == [] && (d.points.Some? ==> d.points.value == [])
  }

  lemma {:induction false} CombinedWaypointsOnly(r: Rules, days: seq<Day>)
    requires days != [] && forall i | 0 <= i < |days| :: WaypointsOnly(days[i])
    ensures WaypointsOnly(Combined(r, days).value)
  {
    var last := |days| - 1;
    if last > 0 {
      CombinedWaypointsOnly(r, days[..last]);
    }
  }

  lemma {:induction false} NormalizedWaypointsOnly(r: Rules, candidates: seq<Option<Day>>)
    requires forall i | 0 <= i < |candidates| && candidates[i].Some? :: WaypointsOnly(candidates[i].value)
    ensures forall d | d in Normalized(r, candidates) :: WaypointsOnly(d)
  {
    if candidates != [] {
      NormalizedWaypointsOnly(r, candidates[..|candidates| - 1]);
    }
  }

  /** For sources without points and stops, the condition on the given names is exact. */
  lemma MergeIdempotentIff(r: Rules, candidates: seq<Option<Day>>)
    requires forall i | 0 <= i < |candidates| && candidates[i].Some? :: WaypointsOnly(candidates[i].value)
    ensures MergedPlan(r, AsSource(MergedPlan(r, candidates))) == MergedPlan(r, candidates) <==> AllCleansGiven(r, candidates)
  {
    if AllCleansGiven(r, candidates) {
      MergeIdempotent(r, candidates);
    } else {
      var n := UncleanDay(r, candidates);
      MergeAgainIff(r, candidates);
      if AllStay(r, Normalized(r, candidates), |MergedPlan(r, candidates)|) {
        AllStayAt(r, Normalized(r, candidates), |MergedPlan(r, candidates)|, n);
      }
    }
  }

  lemma UncleanDay(r: Rules, candidates: seq<Option<Day>>) returns (n: nat)
    requires forall i | 0 <= i < |candidates| && candidates[i].Some? :: WaypointsOnly(candidates[i].value)
    requires !AllCleansGiven(r, candidates)
    ensures 1 <= n <= |MergedPlan(r, candidates)| && !Stays(r, DayResult(r, Normalized(r, candidates), n))
  {
    var i: nat :| i < |candidates| && candidates[i].Some? && !CleansGiven(r, candidates[i].value);
    n := PlanDayNumber(r, candidates[i].value, i + 1);
    var name := UncleanName(r, candidates[i].value);
    CandidateHasDay(r, candidates, i);
    assert CandidateGives(r, candidates, n, name, i);
    NormalizedGivesIff(r, candidates, n, name);
    DayWaypointsIff(r, Normalized(r, candidates), n, name);
    DayWaypointsOnly(r, candidates, n);
    UncleanChanges(r, DayResult(r, Normalized(r, candidates), n), name);
  }

  lemma UncleanChanges(r: Rules, d: Day, name: string)
    requires WaypointsOnly(d) && name in d.waypoints && r.clean(name) != name
    ensures !Stays(r, d)
  {
    var names := Cleaned(r, d.waypoints);
    assert GivenWaypoints(r, d) == d.waypoints;
    FirstByIsShorter(SameText, names);
    var i :| 0 <= i < |d.waypoints| && d.waypoints[i] == name;
    assert names[i] != d.waypoints[i];
  }

  lemma UncleanName(r: Rules, day: Day) returns (name: string)
    requires !CleansGiven(r, day)
    ensures Gives(r, day, name) && r.clean(name) != name
  {
    CleansGivenIff(r, day);
    name :| Gives(r, day, name) && r.clean(name) != name;
  }

  lemma DayWaypointsOnly(r: Rules, candidates: seq<Option<Day>>, n: nat)
    requires forall i | 0 <= i < |candidates| && candidates[i].Some? :: WaypointsOnly(candidates[i].value)
    ensures WaypointsOnly(DayResult(r, Normalized(r, candidates), n))
  {
    var given := OfDay(Normalized(r, candidates), n);
    NormalizedWaypointsOnly(r, candidates);
    OfDayMembers(Normalized(r, candidates), n);
    if given != [] {
      CombinedWaypointsOnly(r, given);
    }
  }

  /** A cleaner that takes away one word at a time changes a waypoint with every merge. */
  lemma MergeAgainChanges(r: Rules, day: Day)
    requires r.clean("X提醒建议") == "X提醒" && r.clean("X提醒") == "X"
    requires day.waypoints == ["X提醒建议"] && WaypointsOnly(day) && day.dayNumber == 1
    ensures var plan := MergedPlan(r, [Some(day)]);
      |plan| == 1 && "X提醒" in plan[0].waypoints && MergedPlan(r, AsSource(plan)) != plan
  {
    GivesUnclean(r, day, "X提醒建议");
    MergeIdempotentIff(r, [Some(day)]);
    EveryNameArrives(r, [Some(day)], 0, "X提醒");
    OneCandidate(r, day);
  }

  lemma GivesUnclean(r: Rules, day: Day, name: string)
    requires name in day.waypoints && r.clean(name) != "" && r.clean(r.clean(name)) != r.clean(name)
    ensures Gives(r, day, r.clean(name)) && !CleansGiven(r, day)
  {
    assert !CleansOnce(r, name);
  }

  lemma OneCandidate(r: Rules, day: Day)
    ensures Normalized(r, [Some(day)]) == [NormalizeJourneyModalDayPlan(r, day, 1)]
    ensures |MergedPlan(r, [Some(day)])| == PlanDayNumber(r, day, 1)
  {
    assert [Some(day)][..0] == [];
    var d := NormalizeJourneyModalDayPlan(r, day, 1);
    assert Normalized(r, [Some(day)]) == [] + [d];
    assert [d][..0] == [] && MaxDay([]) == 0;
    assert MaxDay([d]) == d.dayNumber;
  }
}
