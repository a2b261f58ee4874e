/** Which known places can be added to a plan or replace a stop (frontend/journey-poi-utils.js). */
module PoiCatalogue {
  import opened Text
  import opened Journey

  function NoStop(): (s: Stop) {
    Stop("", "", "", "", "", "", "", Missing, Missing, false, false, false)
  }

  function NumberOrNull(field: Field): (f: Field) {
    if field.Number? then field else Null
  }

  function NormalizeJourneyPoiAsStop(poi: Stop, fallback: Stop): (s: Stop)
    ensures s.id == poi.id && s.name == poi.name
    ensures HasCoordinate(s)
  {
    Stop(poi.id, poi.name, Or(poi.city, fallback.city), Or(poi.kind, Or(fallback.kind, "attraction")),
         Or(poi.kindLabel, Or(poi.kind, Or(fallback.kindLabel, "地点"))), Or(poi.timeRange, fallback.timeRange),
         Or(poi.duration, fallback.duration), NumberOrNull(poi.lat), NumberOrNull(poi.lng),
         poi.locked || fallback.locked, poi.mapVerified, poi.estimated)
  }

  /** What a place says is kept; what it leaves out comes from the fallback; either may lock it. */
  lemma NormalizedKeeps(poi: Stop, fallback: Stop)
    ensures var s := NormalizeJourneyPoiAsStop(poi, fallback);
      && (if poi.city != "" then s.city == poi.city else s.city == fallback.city)
      && (if poi.kind != "" then s.kind == poi.kind else if fallback.kind != "" then s.kind == fallback.kind else s.kind == "attraction")
      && (poi.kindLabel != "" ==> s.kindLabel == poi.kindLabel)
      && (poi.kindLabel == "" && poi.kind != "" ==> s.kindLabel == poi.kind)
      && (if poi.timeRange != "" then s.timeRange == poi.timeRange else s.timeRange == fallback.timeRange)
      && (if poi.duration != "" then s.duration == poi.duration else s.duration == fallback.duration)
      && (poi.lat.Number? ==> s.lat == poi.lat) && (poi.lng.Number? ==> s.lng == poi.lng)
      && (s.locked <==> poi.locked || fallback.locked) && s.mapVerified == poi.mapVerified && s.estimated == poi.estimated
  {}

  /** Alternatives first, then the places of the journey. */
  function GetJourneyPoiPool(journey: JourneyData): (pool: seq<Stop>) {
    journey.alternatives + journey.pois
  }

  function AllStops(plans: seq<DayPlan>): (stops: seq<Stop>) {
    if plans == [] then [] else plans[0].stops + AllStops(plans[1..])
  }

  function IdsOf(stops: seq<Stop>): (ids: set<string>) {
    set s | s in stops && s.id != "" :: s.id
  }

  function NamesOf(w: Wording, stops: seq<Stop>): (names: set<string>) {
    set s | s in stops && w.matchText(s.name) != "" :: w.matchText(s.name)
  }

  // ---------- A stable sort, best score first ----------

  function Insert(score: Stop -> int, p: Stop, sorted: seq<Stop>): (r: seq<Stop>) {
    if sorted == [] || score(sorted[0]) <= score(p) then [p] + sorted
    else [sorted[0]] + Insert(score, p, sorted[1..])
  }

  /** `pois.sort((left, right) => score(right) - score(left))`. */
  function SortByScore(score: Stop -> int, pois: seq<Stop>): (sorted: seq<Stop>) {
    if pois == [] then [] else Insert(score, pois[0], SortByScore(score, pois[1..]))
  }

  function WithScore(score: Stop -> int, v: int, pois: seq<Stop>): (r: seq<Stop>) {
    if pois == [] then []
    else (if score(pois[0]) == v then [pois[0]] else []) + WithScore(score, v, pois[1..])
  }

  predicate BestFirst(score: Stop -> int, pois: seq<Stop>) {
    forall i, j | 0 <= i < j < |pois| :: score(pois[j]) <= score(pois[i])
  }

  lemma {:induction false} InsertAdds(score: Stop -> int, p: Stop, sorted: seq<Stop>)
    ensures multiset(Insert(score, p, sorted)) == multiset(sorted) + multiset{p}
  {
    if sorted != [] && score(p) < score(sorted[0]) {
      InsertAdds(score, p, sorted[1..]);
      assert sorted == [sorted[0]] + sorted[1..];
    }
  }

  lemma {:induction false} InsertKeepsOrder(score: Stop -> int, p: Stop, sorted: seq<Stop>)
    requires BestFirst(score, sorted)
    ensures BestFirst(score, Insert(score, p, sorted))
    ensures forall i | 0 <= i < |Insert(score, p, sorted)| ::
      score(Insert(score, p, sorted)[i]) <= (if sorted == [] || score(sorted[0]) <= score(p) then score(p) else score(sorted[0]))
  {
    if sorted != [] && score(p) < score(sorted[0]) {
      InsertKeepsOrder(score, p, sorted[1..]);
    }
  }

  lemma {:induction false} InsertIsStable(score: Stop -> int, p: Stop, sorted: seq<Stop>, v: int)
    requires BestFirst(score, sorted)
    ensures WithScore(score, v, Insert(score, p, sorted)) == WithScore(score, v, [p] + sorted)
  {
    if sorted != [] && score(p) < score(sorted[0]) {
      InsertIsStable(score, p, sorted[1..], v);
      assert ([p] + sorted)[1..] == sorted;
      assert ([p] + sorted[1..])[1..] == sorted[1..];
      var rest := Insert(score, p, sorted[1..]);
      assert ([sorted[0]] + rest)[1..] == rest;
    }
  }

  /** Sorting loses nothing, puts the best first, and keeps the order of equally good places. */
  lemma {:induction false} SortIsStable(score: Stop -> int, pois: seq<Stop>)
    ensures BestFirst(score, SortByScore(score, pois))
    ensures multiset(SortByScore(score, pois)) == multiset(pois)
    ensures forall v :: WithScore(score, v, SortByScore(score, pois)) == WithScore(score, v, pois)
  {
    if pois != [] {
      var rest := SortByScore(score, pois[1..]);
      SortIsStable(score, pois[1..]);
      InsertKeepsOrder(score, pois[0], rest);
      InsertAdds(score, pois[0], rest);
      assert pois == [pois[0]] + pois[1..];
      forall v
        ensures WithScore(score, v, SortByScore(score, pois)) == WithScore(score, v, pois)
      {
        InsertIsStable(score, pois[0], rest, v);
        assert ([pois[0]] + rest)[1..] == rest;
      }
    }
  }

  // ---------- Places that can be added ----------

  function KeyOf(w: Wording, poi: Stop): (key: string) {
    Or(poi.id, w.matchText(poi.name))
  }

  predicate Named(w: Wording, poi: Stop) {
    w.matchText(poi.name) != ""
  }

  /** No stop of the plan has its id or its name. */
  predicate Inactive(w: Wording, stops: seq<Stop>, poi: Stop) {
    (poi.id == "" || poi.id !in IdsOf(stops)) && w.matchText(poi.name) !in NamesOf(w, stops)
  }

  /** The first named place of the pool with its key. */
  predicate IsFirst(w: Wording, pool: seq<Stop>, i: nat)
    requires i < |pool|
  {
    Named(w, pool[i]) && forall j | 0 <= j < i :: Named(w, pool[j]) ==> KeyOf(w, pool[j]) != KeyOf(w, pool[i])
  }

  function Pending(w: Wording, pool: seq<Stop>, stops: seq<Stop>): (pending: seq<Stop>) {
    if pool == [] then []
    else
      var last := |pool| - 1;
      Pending(w, pool[..last], stops) +
      if IsFirst(w, pool, last) && Inactive(w, stops, pool[last]) then [pool[last]] else []
  }

  function PendingScore(poi: Stop): (score: int) {
    (if poi.mapVerified then 3 else 0) + (if poi.lng.Number? && poi.lat.Number? then 2 else 0) + (if poi.estimated then 1 else 0)
  }

  function PendingCandidates(w: Wording, pool: seq<Stop>, plans: seq<DayPlan>): (candidates: seq<Stop>) {
    SortByScore(PendingScore, Pending(w, pool, AllStops(plans)))
  }

  method GetJourneyPendingPoiCandidates(w: Wording, allPois: seq<Stop>, plans: seq<DayPlan>) returns (candidates: seq<Stop>)
    ensures candidates == PendingCandidates(w, allPois, plans)
  {
    var activeIds := IdsOf(AllStops(plans));
    var activeNames := NamesOf(w, AllStops(plans));
    var seen: set<string> := {};
    var kept: seq<Stop> := [];
    for n := 0 to |allPois|
      invariant kept == Pending(w, allPois[..n], AllStops(plans))
      invariant forall key :: key in seen <==> exists j :: 0 <= j < n && Named(w, allPois[j]) && KeyOf(w, allPois[j]) == key
    {
      var poi := allPois[n];
      var name := w.matchText(poi.name);
      var key := Or(poi.id, name);
      assert allPois[..n + 1][..n] == allPois[..n];
      assert IsFirst(w, allPois[..n + 1], n) <==> name != "" && key !in seen;
      if name == "" || key in seen {
        continue;
      }
      seen := seen + {key};
      if poi.id != "" && poi.id in activeIds {
        continue;
      }
      if name in activeNames {
        continue;
      }
      kept := kept + [poi];
    }
    assert allPois[..|allPois|] == allPois;
    candidates := SortByScore(PendingScore, kept);
  }

  /** A pending place is the first of its key in the pool, and inactive. */
  lemma {:induction false} PendingComesFrom(w: Wording, pool: seq<Stop>, stops: seq<Stop>, k: nat) returns (i: nat)
    requires k < |Pending(w, pool, stops)|
    ensures i < |pool| && pool[i] == Pending(w, pool, stops)[k]
    ensures IsFirst(w, pool, i) && Inactive(w, stops, pool[i])
  {
    var last := |pool| - 1;
    if k < |Pending(w, pool[..last], stops)| {
      i := PendingComesFrom(w, pool[..last], stops, k);
      assert forall j | 0 <= j <= i :: pool[..last][j] == pool[j];
    } else {
      i := last;
    }
  }

  predicate DistinctKeys(w: Wording, pois: seq<Stop>) {
    forall i, j | 0 <= i < j < |pois| :: KeyOf(w, pois[i]) != KeyOf(w, pois[j])
  }

  lemma {:induction false} PendingKeysDistinct(w: Wording, pool: seq<Stop>, stops: seq<Stop>)
    ensures DistinctKeys(w, Pending(w, pool, stops))
  {
    if pool != [] {
      var last := |pool| - 1;
      var front := Pending(w, pool[..last], stops);
      PendingKeysDistinct(w, pool[..last], stops);
      if IsFirst(w, pool, last) && Inactive(w, stops, pool[last]) {
        forall k | 0 <= k < |front|
          ensures KeyOf(w, front[k]) != KeyOf(w, pool[last])
        {
          var i := PendingComesFrom(w, pool[..last], stops, k);
          assert Named(w, pool[i]) && pool[i] == front[k];
        }
        assert Pending(w, pool, stops) == front + [pool[last]];
      } else {
        assert Pending(w, pool, stops) == front;
      }
    }
  }

  lemma {:induction false} PendingHas(w: Wording, pool: seq<Stop>, stops: seq<Stop>, i: nat)
    requires i < |pool| && IsFirst(w, pool, i) && Inactive(w, stops, pool[i])
    ensures pool[i] in Pending(w, pool, stops)
  {
    var last := |pool| - 1;
    if i < last {
      assert forall j | 0 <= j <= i :: pool[..last][j] == pool[j];
      PendingHas(w, pool[..last], stops, i);
    }
  }

  lemma SortKeepsMembers(pois: seq<Stop>, p: Stop)
    ensures p in SortByScore(PendingScore, pois) <==> p in pois
  {
    SortIsStable(PendingScore, pois);
    assert p in multiset(pois) <==> p in multiset(SortByScore(PendingScore, pois));
  }

  /** The candidates are exactly the places that are first of their key in the pool, named and inactive. */
  lemma CandidatesAreExact(w: Wording, pool: seq<Stop>, plans: seq<DayPlan>, p: Stop)
    ensures p in PendingCandidates(w, pool, plans) <==>
      exists i :: 0 <= i < |pool| && pool[i] == p && IsFirst(w, pool, i) && Inactive(w, AllStops(plans), p)
  {
    var stops := AllStops(plans);
    var pending := Pending(w, pool, stops);
    SortKeepsMembers(pending, p);
    if p in pending {
      var k :| 0 <= k < |pending| && pending[k] == p;
      var i := PendingComesFrom(w, pool, stops, k);
    }
    if exists i :: 0 <= i < |pool| && pool[i] == p && IsFirst(w, pool, i) && Inactive(w, stops, p) {
      var i :| 0 <= i < |pool| && pool[i] == p && IsFirst(w, pool, i) && Inactive(w, stops, p);
      PendingHas(w, pool, stops, i);
    }
  }

  /** Candidates are offered once, best first, and in pool order where they are equally good. */
  lemma CandidatesAreOrdered(w: Wording, pool: seq<Stop>, plans: seq<DayPlan>)
    ensures var candidates := PendingCandidates(w, pool, plans);
      && BestFirst(PendingScore, candidates)
      && DistinctKeys(w, candidates)
      && (forall v :: WithScore(PendingScore, v, candidates) == WithScore(PendingScore, v, Pending(w, pool, AllStops(plans))))
  {
    var pending := Pending(w, pool, AllStops(plans));
    var candidates := PendingCandidates(w, pool, plans);
    SortIsStable(PendingScore, pending);
    PendingKeysDistinct(w, pool, AllStops(plans));
    forall i, j | 0 <= i < j < |candidates|
      ensures KeyOf(w, candidates[i]) != KeyOf(w, candidates[j])
    {
      DistinctKeysSurvive(w, pending, candidates, i, j);
    }
  }

  lemma DistinctKeysSurvive(w: Wording, s: seq<Stop>, t: seq<Stop>, i: nat, j: nat)
    requires multiset(s) == multiset(t) && i < j < |t| && DistinctKeys(w, s)
    ensures KeyOf(w, t[i]) != KeyOf(w, t[j])
  {
    assert t == t[..i] + [t[i]] + t[i + 1..j] + [t[j]] + t[j + 1..];
    assert multiset{t[i], t[j]} <= multiset(s);
    assert t[i] in multiset(s) && t[j] in multiset(s);
    var k :| 0 <= k < |s| && s[k] == t[i];
    var l :| 0 <= l < |s| && s[l] == t[j];
    if k == l {
      OnceIn(w, s, k);
    }
  }

  lemma OnceIn(w: Wording, s: seq<Stop>, k: nat)
    requires k < |s| && DistinctKeys(w, s)
    ensures multiset(s)[s[k]] == 1
  {
    assert s == s[..k] + [s[k]] + s[k + 1..];
  }

  /** Every candidate has a name, and no stop of the plan has this name or its id. */
  lemma CandidatesAreNew(w: Wording, pool: seq<Stop>, plans: seq<DayPlan>, p: Stop, s: Stop)
    requires p in PendingCandidates(w, pool, plans) && s in AllStops(plans)
    ensures p in pool && w.matchText(p.name) != "" && w.matchText(s.name) != w.matchText(p.name)
    ensures p.id != "" ==> s.id != p.id
  {
    CandidatesAreExact(w, pool, plans, p);
  }

  /** A place that is known as an alternative and as a place of the journey is offered as the alternative. */
  lemma AlternativeIsOffered(w: Wording, journey: JourneyData, plans: seq<DayPlan>, a: Stop, p: Stop)
    requires a in journey.alternatives && Named(w, a) && KeyOf(w, p) == KeyOf(w, a)
    requires p in PendingCandidates(w, GetJourneyPoiPool(journey), plans)
    ensures p in journey.alternatives
  {
    var pool := GetJourneyPoiPool(journey);
    CandidatesAreExact(w, pool, plans, p);
    var i :| 0 <= i < |pool| && pool[i] == p && IsFirst(w, pool, i);
    var k :| 0 <= k < |journey.alternatives| && journey.alternatives[k] == a;
    assert pool[k] == a;
  }

  predicate Located(p: Stop) {
    p.lat.Number? && p.lng.Number?
  }

  /** What a better candidate may lack: only a place both located and estimated is as good as a verified one. */
  lemma BetterComesFirst(w: Wording, pool: seq<Stop>, plans: seq<DayPlan>, i: nat, j: nat)
    requires i < j < |PendingCandidates(w, pool, plans)|
    ensures var p, q := PendingCandidates(w, pool, plans)[i], PendingCandidates(w, pool, plans)[j];
      && (q.mapVerified && !p.mapVerified ==> Located(p) && p.estimated && !Located(q) && !q.estimated)
      && (q.mapVerified == p.mapVerified && Located(q) ==> Located(p))
      && (q.mapVerified == p.mapVerified && Located(q) == Located(p) && q.estimated ==> p.estimated)
  {
    CandidatesAreOrdered(w, pool, plans);
    var p, q := PendingCandidates(w, pool, plans)[i], PendingCandidates(w, pool, plans)[j];
    assert PendingScore(q) <= PendingScore(p);
  }

  // ---------- Places that can replace a stop ----------

  predicate CanReplace(w: Wording, plans: seq<DayPlan>, current: Stop, poi: Stop) {
    && w.matchText(poi.name) != "" && w.matchText(poi.name) != w.matchText(current.name)
    && (poi.id == "" || poi.id !in IdsOf(AllStops(plans)))
  }

  function Replacements(w: Wording, pool: seq<Stop>, plans: seq<DayPlan>, current: Stop): (r: seq<Stop>) {
    if pool == [] then []
    else (if CanReplace(w, plans, current, pool[0]) then [pool[0]] else []) + Replacements(w, pool[1..], plans, current)
  }

  function ReplacementScore(w: Wording, current: Stop, city: string, poi: Stop): (score: int) {
    var currentCity := w.matchText(Or(current.city, city));
    var currentKind := w.matchText(Or(current.kindLabel, current.kind));
    var poiCity := w.matchText(poi.city);
    var poiKind := w.matchText(Or(poi.kindLabel, poi.kind));
    (if poiCity != "" && poiCity == currentCity then 4 else 0) + (if poiKind != "" && poiKind == currentKind then 3 else 0) +
    (if poi.mapVerified then 2 else 0) + (if poi.estimated then 1 else 0)
  }

  function ReplacementCandidates(w: Wording, pool: seq<Stop>, plans: seq<DayPlan>, current: Stop, city: string): (r: seq<Stop>) {
    SortByScore(poi => ReplacementScore(w, current, city, poi), Replacements(w, pool, plans, current))
  }

  lemma {:induction false} ReplacementsCanReplace(w: Wording, pool: seq<Stop>, plans: seq<DayPlan>, current: Stop, p: Stop)
    ensures p in Replacements(w, pool, plans, current) <==> p in pool && CanReplace(w, plans, current, p)
  {
    if pool != [] {
      ReplacementsCanReplace(w, pool[1..], plans, current, p);
    }
  }

  lemma ReplacementsAreExact(w: Wording, pool: seq<Stop>, plans: seq<DayPlan>, current: Stop, city: string, p: Stop)
    ensures p in ReplacementCandidates(w, pool, plans, current, city) <==> p in pool && CanReplace(w, plans, current, p)
  {
    var may := Replacements(w, pool, plans, current);
    SortIsStable(poi => ReplacementScore(w, current, city, poi), may);
    ReplacementsCanReplace(w, pool, plans, current, p);
    assert p in multiset(ReplacementCandidates(w, pool, plans, current, city)) <==> p in multiset(may);
  }

  /** The first candidate may replace the stop, and no other place that may would score higher. */
  lemma BestReplacement(w: Wording, pool: seq<Stop>, plans: seq<DayPlan>, current: Stop, city: string)
    ensures var candidates := ReplacementCandidates(w, pool, plans, current, city);
      if candidates == [] then forall p | p in pool :: !CanReplace(w, plans, current, p)
      else
        && candidates[0] in pool && CanReplace(w, plans, current, candidates[0])
        && forall p | p in pool && CanReplace(w, plans, current, p) ::
             ReplacementScore(w, current, city, p) <= ReplacementScore(w, current, city, candidates[0])
  {
    var candidates := ReplacementCandidates(w, pool, plans, current, city);
    SortIsStable(poi => ReplacementScore(w, current, city, poi), Replacements(w, pool, plans, current));
    if candidates != [] {
      ReplacementsAreExact(w, pool, plans, current, city, candidates[0]);
    }
    forall p | p in pool && CanReplace(w, plans, current, p)
      ensures candidates != [] && ReplacementScore(w, current, city, p) <= ReplacementScore(w, current, city, candidates[0])
    {
      ReplacementsAreExact(w, pool, plans, current, city, p);
      var k :| 0 <= k < |candidates| && candidates[k] == p;
    }
  }

  /** What a replacement is: a place of the pool with another name, and an id that no stop of the plan has. */
  lemma ReplacementIsNew(w: Wording, pool: seq<Stop>, plans: seq<DayPlan>, current: Stop, city: string, p: Stop)
    ensures p in ReplacementCandidates(w, pool, plans, current, city) <==>
      && p in pool && w.matchText(p.name) != "" && w.matchText(p.name) != w.matchText(current.name)
      && forall s | s in AllStops(plans) :: p.id != "" ==> s.id != p.id
  {
    ReplacementsAreExact(w, pool, plans, current, city, p);
  }

  /** The place is in the city of the stop, or of its day if the stop names none. */
  predicate SameCity(w: Wording, current: Stop, city: string, p: Stop) {
    w.matchText(p.city) != "" && w.matchText(p.city) == w.matchText(if current.city != "" then current.city else city)
  }

  function KindText(s: Stop): (kind: string) {
    if s.kindLabel != "" then s.kindLabel else s.kind
  }

  predicate SameKind(w: Wording, current: Stop, p: Stop) {
    w.matchText(KindText(p)) != "" && w.matchText(KindText(p)) == w.matchText(KindText(current))
  }

  /**
    How replacements compare: the same city counts most, then the same kind, then that the map knows
    the place, then that its position was estimated; only several marks together outdo one that
    counts more.
   */
  lemma ReplacementOrder(w: Wording, current: Stop, city: string, p: Stop, q: Stop)
    ensures var better := ReplacementScore(w, current, city, q) < ReplacementScore(w, current, city, p);
      var cityP, cityQ := SameCity(w, current, city, p), SameCity(w, current, city, q);
      var kindP, kindQ := SameKind(w, current, p), SameKind(w, current, q);
      && (cityP && !cityQ && kindP == kindQ ==> better)
      && (cityP && !cityQ && !kindQ ==> better)
      && (cityP == cityQ && kindP && !kindQ && !(q.mapVerified && q.estimated) ==> better)
      && (cityP == cityQ && kindP == kindQ && p.mapVerified && !q.mapVerified ==> better)
      && (cityP == cityQ && kindP == kindQ && p.mapVerified == q.mapVerified && p.estimated && !q.estimated ==> better)
  {}
}
