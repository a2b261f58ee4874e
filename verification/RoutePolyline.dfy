/** The line drawn for a day on the map (frontend/journey-map-view.js). */
module RoutePolyline {
  import opened Text
  import opened Journey

  datatype RawPoint = RawPoint(lat: Field, lng: Field)

  function NormalizeJourneyRoutePathPoint(p: RawPoint): (r: Option<Point>) {
    match (ToNumber(p.lat), ToNumber(p.lng))
    case (Some(lat), Some(lng)) => Some(Point(lat, lng))
    case _ => None
  }

  /** The usable points of a list. */
  function Valid(points: seq<RawPoint>): (r: seq<Point>) {
    if points == [] then []
    else
      var last := |points| - 1;
      Valid(points[..last]) + match NormalizeJourneyRoutePathPoint(points[last]) { case None => [] case Some(p) => [p] }
  }

  function Abs(x: real): (y: real) {
    if x < 0.0 then -x else x
  }

  predicate IsSameJourneyRoutePoint(left: Point, right: Point) {
    Abs(left.lng - right.lng) < 0.000001 && Abs(left.lat - right.lat) < 0.000001
  }

  /** The two stops that a segment joins, as far as they exist. */
  function Ends(dayPoints: seq<RawPoint>, i: nat): (r: seq<RawPoint>) {
    (if i < |dayPoints| then [dayPoints[i]] else []) + (if i + 1 < |dayPoints| then [dayPoints[i + 1]] else [])
  }

  /** The live path of a segment, or the straight line between its stops. */
  function ChosenPath(dayPoints: seq<RawPoint>, path: seq<RawPoint>, i: nat): (r: seq<Point>) {
    if |Valid(path)| >= 2 then Valid(path) else Valid(Ends(dayPoints, i))
  }

  /** What is added of a path: all of it, or all but a first point that is already there. */
  function Piece(route: seq<Point>, path: seq<Point>): (r: seq<Point>) {
    if route != [] && path != [] && IsSameJourneyRoutePoint(route[|route| - 1], path[0]) then path[1..] else path
  }

  function Drawn(dayPoints: seq<RawPoint>, paths: seq<seq<RawPoint>>): (route: seq<Point>) {
    if paths == [] then []
    else
      var last := |paths| - 1;
      var route := Drawn(dayPoints, paths[..last]);
      route + Piece(route, ChosenPath(dayPoints, paths[last], last))
  }

  function RoutePoints(dayPoints: seq<RawPoint>, paths: seq<seq<RawPoint>>): (route: seq<Point>) {
    if |Drawn(dayPoints, paths)| >= 2 then Drawn(dayPoints, paths) else Valid(dayPoints)
  }

  method GetJourneySegmentRoutePoints(dayPoints: seq<RawPoint>, paths: seq<seq<RawPoint>>) returns (route: seq<Point>)
    ensures route == RoutePoints(dayPoints, paths)
  {
    if paths == [] {
      return Valid(dayPoints);
    }
    route := [];
    for segmentIndex := 0 to |paths|
      invariant route == Drawn(dayPoints, paths[..segmentIndex])
    {
      var chosenPath := ChosenPath(dayPoints, paths[segmentIndex], segmentIndex);
      assert paths[..segmentIndex + 1][..segmentIndex] == paths[..segmentIndex];
      route := PushPath(route, chosenPath);
    }
    assert paths[..|paths|] == paths;
    if |route| < 2 {
      route := Valid(dayPoints);
    }
  }

  /** The inner loop: pushes the points of one path. */
  method PushPath(before: seq<Point>, chosenPath: seq<Point>) returns (route: seq<Point>)
    ensures route == before + Piece(before, chosenPath)
  {
    route := before;
    for pointIndex := 0 to |chosenPath|
      invariant route == before + Piece(before, chosenPath[..pointIndex])
    {
      var point := chosenPath[pointIndex];
      assert chosenPath[..pointIndex + 1] == chosenPath[..pointIndex] + [point];
      if route != [] && pointIndex == 0 && IsSameJourneyRoutePoint(route[|route| - 1], point) {
        continue;
      }
      route := route + [point];
    }
    assert chosenPath[..|chosenPath|] == chosenPath;
  }

  // ---------- Usable points ----------

  /** Numbers are the point itself; `null` is zero; with a field left out there is no point. */
  lemma PointOfFields(p: RawPoint)
    ensures NormalizeJourneyRoutePathPoint(p).None? <==> p.lat.Missing? || p.lng.Missing?
    ensures match NormalizeJourneyRoutePathPoint(p)
      case None => true
      case Some(q) =>
        && (p.lat.Number? ==> q.lat == p.lat.value) && (p.lng.Number? ==> q.lng == p.lng.value)
        && (p.lat.Null? ==> q.lat == 0.0) && (p.lng.Null? ==> q.lng == 0.0)
  {}

  /** A usable point is kept, behind as many points as there are usable ones before it. */
  lemma {:induction false} UsableIsKept(points: seq<RawPoint>, i: nat)
    requires i < |points| && NormalizeJourneyRoutePathPoint(points[i]).Some?
    ensures var k := |Valid(points[..i])|;
      k < |Valid(points)| && Some(Valid(points)[k]) == NormalizeJourneyRoutePathPoint(points[i])
  {
    var last := |points| - 1;
    if i < last {
      UsableIsKept(points[..last], i);
      assert points[..last][..i] == points[..i];
    }
  }

  /** Every kept point is a usable one. */
  lemma {:induction false} KeptIsUsable(points: seq<RawPoint>, k: nat) returns (i: nat)
    requires k < |Valid(points)|
    ensures i < |points| && k == |Valid(points[..i])| && NormalizeJourneyRoutePathPoint(points[i]) == Some(Valid(points)[k])
  {
    var last := |points| - 1;
    if k < |Valid(points[..last])| {
      i := KeptIsUsable(points[..last], k);
      assert points[..last][..i] == points[..i];
    } else {
      i := last;
    }
  }

  /** The tolerance: two points are the same if they differ by less than a millionth of a degree in both directions. */
  lemma SamePoint(p: Point, lat: real, lng: real)
    ensures IsSameJourneyRoutePoint(p, Point(p.lat + lat, p.lng + lng)) <==>
      -0.000001 < lat < 0.000001 && -0.000001 < lng < 0.000001
  {}

  // ---------- Without live paths ----------

  predicate AllValid(points: seq<RawPoint>) {
    forall i | 0 <= i < |points| :: NormalizeJourneyRoutePathPoint(points[i]).Some?
  }

  predicate NoLivePath(paths: seq<seq<RawPoint>>) {
    forall i | 0 <= i < |paths| :: |Valid(paths[i])| < 2
  }

  lemma {:induction false} ValidOfAll(points: seq<RawPoint>)
    requires AllValid(points)
    ensures |Valid(points)| == |points|
    ensures forall i | 0 <= i < |points| :: Some(Valid(points)[i]) == NormalizeJourneyRoutePathPoint(points[i])
  {
    if points != [] {
      ValidOfAll(points[..|points| - 1]);
    }
  }

  /** Every usable end of segment `i` is on its straight line. */
  lemma ValidEnds(dayPoints: seq<RawPoint>, i: nat)
    requires AllValid(dayPoints)
    ensures Valid(Ends(dayPoints, i)) == Joined(Valid(dayPoints), i)
  {
    ValidOfAll(dayPoints);
    ValidOfAll(Ends(dayPoints, i));
  }

  /** The first `k + 1` stops, or all of them. */
  function Reached(stops: seq<Point>, k: nat): (r: seq<Point>) {
    if k < |stops| then stops[..k + 1] else stops
  }

  /** A segment without a live path is drawn straight. */
  lemma StraightPath(dayPoints: seq<RawPoint>, path: seq<RawPoint>, i: nat)
    requires AllValid(dayPoints) && |Valid(path)| < 2
    ensures ChosenPath(dayPoints, path, i) == Joined(Valid(dayPoints), i)
  {
    ValidEnds(dayPoints, i);
  }

  lemma {:induction false} StraightLine(stops: seq<Point>, chosen: seq<seq<Point>>)
    requires chosen != [] && forall i | 0 <= i < |chosen| :: chosen[i] == Joined(stops, i)
    ensures Line(chosen) == Reached(stops, |chosen|)
  {
    var last := |chosen| - 1;
    if last == 0 {
      FirstPiece(stops);
      assert chosen[..0] == [];
    } else {
      StraightLine(stops, chosen[..last]);
      NextPiece(stops, last);
    }
  }

  lemma DrawnStraight(dayPoints: seq<RawPoint>, paths: seq<seq<RawPoint>>)
    requires AllValid(dayPoints) && NoLivePath(paths) && paths != []
    ensures Drawn(dayPoints, paths) == Reached(Valid(dayPoints), |paths|)
  {
    var chosen := Chosen(dayPoints, paths);
    DrawnIsLine(dayPoints, paths);
    forall i | 0 <= i < |paths|
      ensures chosen[i] == Joined(Valid(dayPoints), i)
    {
      ChosenAt(dayPoints, paths, i);
      StraightPath(dayPoints, paths[i], i);
    }
    StraightLine(Valid(dayPoints), chosen);
  }

  lemma FirstPiece(stops: seq<Point>)
    ensures [] + Piece([], Joined(stops, 0)) == Reached(stops, 1)
  {}

  /** The straight line of segment `i`, as far as its stops exist. */
  function Joined(stops: seq<Point>, i: nat): (r: seq<Point>) {
    (if i < |stops| then [stops[i]] else []) + (if i + 1 < |stops| then [stops[i + 1]] else [])
  }

  /** A straight segment goes on from the stop that the line has reached. */
  lemma NextPiece(stops: seq<Point>, i: nat)
    ensures Reached(stops, i) + Piece(Reached(stops, i), Joined(stops, i)) == Reached(stops, i + 1)
  {
    if i < |stops| {
      assert IsSameJourneyRoutePoint(stops[i], stops[i]);
    }
  }

  /**
    Without live paths the line runs through all stops as soon as there are as many segments as gaps,
    and also when there is no segment at all; with fewer segments it stops where they end.
   */
  lemma StraightRoute(dayPoints: seq<RawPoint>, paths: seq<seq<RawPoint>>)
    requires AllValid(dayPoints) && NoLivePath(paths)
    ensures var stops, k := Valid(dayPoints), |paths|;
      RoutePoints(dayPoints, paths) == if 1 <= k < |stops| then stops[..k + 1] else stops
  {
    ValidOfAll(dayPoints);
    if paths != [] {
      DrawnStraight(dayPoints, paths);
    }
  }

  // ---------- In general ----------

  function Flatten(pieces: seq<seq<Point>>): (r: seq<Point>) {
    if pieces == [] then [] else Flatten(pieces[..|pieces| - 1]) + pieces[|pieces| - 1]
  }

  /** A piece is a whole chosen path, or one without a first point that the line had already reached. */
  ghost predicate IsPieceOf(before: seq<Point>, piece: seq<Point>, path: seq<Point>) {
    piece == path ||
    (path != [] && piece == path[1..] && before != [] && IsSameJourneyRoutePoint(before[|before| - 1], path[0]))
  }

  /** One piece per segment, in order. */
  ghost predicate ArePieces(dayPoints: seq<RawPoint>, paths: seq<seq<RawPoint>>, pieces: seq<seq<Point>>)
    decreases |paths|
  {
    var last := |paths| - 1;
    && |pieces| == |paths|
    && (paths != [] ==>
      && ArePieces(dayPoints, paths[..last], pieces[..last])
      && IsPieceOf(Flatten(pieces[..last]), pieces[last], ChosenPath(dayPoints, paths[last], last)))
  }

  /** The line is made of one piece per segment, in order, and nothing else. */
  lemma {:induction false} DrawnInPieces(dayPoints: seq<RawPoint>, paths: seq<seq<RawPoint>>) returns (pieces: seq<seq<Point>>)
    ensures ArePieces(dayPoints, paths, pieces) && Flatten(pieces) == Drawn(dayPoints, paths)
    decreases |paths|
  {
    if paths == [] {
      pieces := [];
    } else {
      var last := |paths| - 1;
      var front := DrawnInPieces(dayPoints, paths[..last]);
      var route := Drawn(dayPoints, paths[..last]);
      var piece := Piece(route, ChosenPath(dayPoints, paths[last], last));
      pieces := front + [piece];
      assert pieces[..last] == front;
    }
  }

  // ---------- Every path is on the line ----------

  /** All points of the path from the second on are a stretch of the line; the first is in front of them, or the line had just reached it. */
  ghost predicate IsOnLine(line: seq<Point>, path: seq<Point>, at: nat) {
    && path != [] && 0 < at && at + |path| - 1 <= |line|
    && line[at..at + |path| - 1] == path[1..]
    && (line[at - 1] == path[0] || IsSameJourneyRoutePoint(line[at - 1], path[0]))
  }

  lemma PieceIsOnLine(route: seq<Point>, path: seq<Point>) returns (at: nat)
    requires path != []
    ensures IsOnLine(route + Piece(route, path), path, at)
  {
    var line := route + Piece(route, path);
    if Piece(route, path) == path {
      at := |route| + 1;
      assert line[|route|] == path[0];
      assert line[at..at + |path| - 1] == path[1..];
    } else {
      at := |route|;
      assert line[at - 1] == route[|route| - 1];
      assert line[at..at + |path| - 1] == path[1..];
    }
  }

  lemma StaysOnLine(line: seq<Point>, more: seq<Point>, path: seq<Point>, at: nat)
    requires IsOnLine(line, path, at)
    ensures IsOnLine(line + more, path, at)
  {
    assert (line + more)[at..at + |path| - 1] == line[at..at + |path| - 1];
  }

  /** The line through the chosen paths of all segments. */
  function Line(chosen: seq<seq<Point>>): (route: seq<Point>) {
    if chosen == [] then []
    else
      var route := Line(chosen[..|chosen| - 1]);
      route + Piece(route, chosen[|chosen| - 1])
  }

  function Chosen(dayPoints: seq<RawPoint>, paths: seq<seq<RawPoint>>): (chosen: seq<seq<Point>>)
    ensures |chosen| == |paths|
  {
    if paths == [] then []
    else
      var last := |paths| - 1;
      Chosen(dayPoints, paths[..last]) + [ChosenPath(dayPoints, paths[last], last)]
  }

  lemma {:induction false} DrawnIsLine(dayPoints: seq<RawPoint>, paths: seq<seq<RawPoint>>)
    ensures Drawn(dayPoints, paths) == Line(Chosen(dayPoints, paths))
  {
    if paths != [] {
      var last := |paths| - 1;
      DrawnIsLine(dayPoints, paths[..last]);
      LineStep(Chosen(dayPoints, paths[..last]), ChosenPath(dayPoints, paths[last], last));
    }
  }

  lemma LineStep(chosen: seq<seq<Point>>, path: seq<Point>)
    ensures Line(chosen + [path]) == Line(chosen) + Piece(Line(chosen), path)
  {
    assert (chosen + [path])[..|chosen|] == chosen;
  }

  lemma {:induction false} ChosenAt(dayPoints: seq<RawPoint>, paths: seq<seq<RawPoint>>, i: nat)
    requires i < |paths|
    ensures Chosen(dayPoints, paths)[i] == ChosenPath(dayPoints, paths[i], i)
  {
    if i < |paths| - 1 {
      ChosenAt(dayPoints, paths[..|paths| - 1], i);
    }
  }

  lemma {:induction false} PathIsOnLine(chosen: seq<seq<Point>>, i: nat) returns (at: nat)
    requires i < |chosen| && chosen[i] != []
    ensures IsOnLine(Line(chosen), chosen[i], at)
  {
    var front, path := chosen[..|chosen| - 1], chosen[|chosen| - 1];
    if i == |chosen| - 1 {
      at := PieceIsOnLine(Line(front), path);
    } else {
      at := PathIsOnLine(front, i);
      StaysOnLine(Line(front), Piece(Line(front), path), chosen[i], at);
    }
  }

  lemma ChosenIsDrawn(dayPoints: seq<RawPoint>, paths: seq<seq<RawPoint>>, i: nat) returns (at: nat)
    requires i < |paths| && ChosenPath(dayPoints, paths[i], i) != []
    ensures IsOnLine(Drawn(dayPoints, paths), ChosenPath(dayPoints, paths[i], i), at)
  {
    DrawnIsLine(dayPoints, paths);
    ChosenAt(dayPoints, paths, i);
    at := PathIsOnLine(Chosen(dayPoints, paths), i);
  }

  lemma OnLineIsRoute(dayPoints: seq<RawPoint>, paths: seq<seq<RawPoint>>, path: seq<Point>, at: nat)
    requires IsOnLine(Drawn(dayPoints, paths), path, at) && |path| >= 2
    ensures IsOnLine(RoutePoints(dayPoints, paths), path, at)
  {}

  /** A live path of two or more usable points is drawn point by point. */
  lemma LivePathIsDrawn(dayPoints: seq<RawPoint>, paths: seq<seq<RawPoint>>, i: nat) returns (at: nat)
    requires i < |paths| && |Valid(paths[i])| >= 2
    ensures IsOnLine(RoutePoints(dayPoints, paths), Valid(paths[i]), at)
  {
    at := ChosenIsDrawn(dayPoints, paths, i);
    OnLineIsRoute(dayPoints, paths, Valid(paths[i]), at);
  }

  /** A segment without one, between two usable stops, is drawn straight from the one to the other. */
  lemma StraightSegmentIsDrawn(dayPoints: seq<RawPoint>, paths: seq<seq<RawPoint>>, i: nat, p: Point, q: Point) returns (at: nat)
    requires i < |paths| && |Valid(paths[i])| < 2 && i + 1 < |dayPoints|
    requires NormalizeJourneyRoutePathPoint(dayPoints[i]) == Some(p) && NormalizeJourneyRoutePathPoint(dayPoints[i + 1]) == Some(q)
    ensures IsOnLine(RoutePoints(dayPoints, paths), [p, q], at)
  {
    StraightEnds(dayPoints, i, p, q);
    at := ChosenIsDrawn(dayPoints, paths, i);
    OnLineIsRoute(dayPoints, paths, [p, q], at);
  }

  lemma StraightEnds(dayPoints: seq<RawPoint>, i: nat, p: Point, q: Point)
    requires i + 1 < |dayPoints|
    requires NormalizeJourneyRoutePathPoint(dayPoints[i]) == Some(p) && NormalizeJourneyRoutePathPoint(dayPoints[i + 1]) == Some(q)
    ensures Valid(Ends(dayPoints, i)) == [p, q]
  {
    var ends := [dayPoints[i], dayPoints[i + 1]];
    assert Ends(dayPoints, i) == ends;
    assert ends[..1] == [dayPoints[i]] && ends[..1][..0] == [];
    assert Valid(ends[..1]) == [p];
  }

  /** One segment with a live path of three points, between stops where a straight line would have two. */
  lemma DetourExample()
    ensures var raw := (lat: real, lng: real) => RawPoint(Number(lat), Number(lng));
      RoutePoints([raw(0.0, 0.0), raw(1.0, 1.0)], [[raw(0.0, 0.0), raw(1.0, 0.0), raw(1.0, 1.0)]])
      == [Point(0.0, 0.0), Point(1.0, 0.0), Point(1.0, 1.0)]
  {
    var raw := (lat: real, lng: real) => RawPoint(Number(lat), Number(lng));
    var path := [raw(0.0, 0.0), raw(1.0, 0.0), raw(1.0, 1.0)];
    var stops := [raw(0.0, 0.0), raw(1.0, 1.0)];
    ValidOfAll(path);
    assert Valid(path) == [Point(0.0, 0.0), Point(1.0, 0.0), Point(1.0, 1.0)];
    assert [path][..0] == [];
    assert Drawn(stops, [path]) == [] + Piece([], ChosenPath(stops, path, 0));
  }
}
