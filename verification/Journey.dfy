/** The records of a travel plan that the editor, the optimizer and the saved draft share. */
module Journey {
  import opened Text

  datatype Point = Point(lat: real, lng: real)

  /** A `lat` or `lng` field: left out, `null`, or a number. */
  datatype Field = Missing | Null | Number(value: real)

  /** A place of a day plan or of the place catalogue; an empty string stands for a missing text. */
  datatype Stop = Stop(
    id: string, name: string, city: string, kind: string, kindLabel: string,
    timeRange: string, duration: string, lat: Field, lng: Field,
    locked: bool, mapVerified: bool, estimated: bool)

  /** `Number(field)` when it is finite: `null` counts as zero. */
  function ToNumber(field: Field): (n: Option<real>) {
    match field
    case Missing => None
    case Null => Some(0.0)
    case Number(value) => Some(value)
  }

  function GetStopCoordinate(stop: Stop): (p: Option<Point>) {
    match (ToNumber(stop.lat), ToNumber(stop.lng))
    case (Some(lat), Some(lng)) => Some(Point(lat, lng))
    case _ => None
  }

  predicate HasCoordinate(stop: Stop) {
    GetStopCoordinate(stop).Some?
  }

  /** The way between two neighbouring stops; `place` is its number within the day. */
  datatype Segment = Segment(
    place: nat, dayNumber: nat, fromId: string, toId: string, fromName: string, toName: string,
    mode: string, selectedMode: string, locked: bool, distance: string, duration: string,
    confidence: string, source: string, status: string, statusLabel: string, note: string)

  /** What the editor keeps of a day. */
  datatype DayPlan = DayPlan(key: string, dayNumber: nat, city: string, stops: seq<Stop>, segments: seq<Segment>)

  /** A day of the saved journey. */
  datatype JourneyDay = JourneyDay(dayNumber: nat, city: string, pois: seq<Stop>, segments: seq<Segment>)

  /** The saved journey: its days and the catalogue of known places. */
  datatype JourneyData = JourneyData(days: seq<JourneyDay>, pois: seq<Stop>, alternatives: seq<Stop>)

  /** Text rules that the model leaves open: comparing names, naming transport modes, judging a route. */
  datatype Wording = Wording(
    matchText: string -> string, foldName: string -> string,
    segmentMode: string -> string, routeStatus: Segment -> string)

  function Decimal(n: nat): (digits: string) {
    var digit := ['0' + (n % 10) as char];
    if n < 10 then digit else Decimal(n / 10) + digit
  }
}
