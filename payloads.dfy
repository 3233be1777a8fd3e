/** The flight payloads of the upstream flight-listing endpoint, the answers it
    gives per request window, and the flat row the normaliser builds. Every field
    reached through `.get(...)` is an `Option`: `None` when the key (or an
    enclosing object) is absent. */
module Payloads {
  import opened Wrappers
  import opened Calendar
  import opened Dedup

  /** One end of a flight: `flight["departure"]` or `flight["arrival"]`. A missing
      end (`.get("departure", {})`) is `NoMovement`. */
  datatype Movement = Movement(
    airportIata: Option<string>,     // ["airport"]["iata"]
    scheduledUtc: Option<string>,    // ["scheduledTime"]["utc"]
    revisedUtc: Option<string>,      // ["revisedTime"]["utc"]
    actualTimeLocal: Option<string>) // ["actualTimeLocal"]

  const NoMovement := Movement(None, None, None, None)

  datatype Flight = Flight(
    number: Option<string>,       // ["number"]
    status: Option<string>,       // ["status"]
    airlineIata: Option<string>,  // ["airline"]["iata"]
    aircraftReg: Option<string>,  // ["aircraft"]["reg"]
    iataNumber: Option<string>,   // ["flight"]["iataNumber"]
    departure: Movement,
    arrival: Movement)

  /** A request for one window: the airport code and the two `%Y-%m-%dT%H:%M` strings
      that end the URL `/flights/airports/iata/{code}/{from}/{to}`. */
  datatype Request = Request(airport: string, from: string, to: string)

  /** A request window: two wall-clock times on the clock the URL is written in. */
  datatype Window = Window(start: DateTime, end: DateTime)

  predicate ValidWindow(w: Window) {
    ValidDateTime(w.start) && ValidDateTime(w.end)
  }

  function RequestFor(airport: string, w: Window): Request
    requires ValidWindow(w)
  {
    Request(airport, FormatDateTime(w.start), FormatDateTime(w.end))
  }

  /** What aborts a fetch: `strptime` rejecting the date (ValueError), a window
      leaving the years 1..9999 (OverflowError) or `raise_for_status()` (HTTPError). */
  datatype FetchError = InvalidDate | DateOverflow | HttpError(status: int)

  /** The answer to one request: the HTTP status and the decoded lists
      (`data.get("departures", [])`, `data.get("arrivals", [])`). */
  datatype Response = Response(status: int, departures: seq<Flight>, arrivals: seq<Flight>)

  /** Statuses for which `raise_for_status()` raises. */
  predicate IsHttpError(status: int) {
    400 <= status < 600
  }

  /** A value written into an f-string: `None` renders as the text "None". */
  function Render(v: Option<string>): (s: string)
    ensures v.Some? ==> s == v.value
    ensures v.None? ==> s == "None"
  {
    match v
    case Some(x) => x
    case None => "None"
  }

  /** Python truthiness of an optional string: neither `None` nor "". */
  predicate Present(v: Option<string>) {
    v.Some? && v.value != ""
  }

  /** Python's `a or b` on optional strings. */
  function OrElse(a: Option<string>, b: Option<string>): (r: Option<string>)
    ensures Present(a) ==> r == a
    ensures !Present(a) ==> r == b
  {
    if Present(a) then a else b
  }

  /** The two lists of an answer. */
  datatype Direction = Dep | Arr

  /** What a fetch hands on: the departures and the arrivals kept. */
  datatype FlightLists = FlightLists(departures: seq<Flight>, arrivals: seq<Flight>)

  /** The answers to the requests for the windows, in order. */
  function Answers(airport: string, ws: seq<Window>, respond: Request -> Response): (rs: seq<Response>)
    requires forall i :: 0 <= i < |ws| ==> ValidWindow(ws[i])
    ensures |rs| == |ws| && forall i :: 0 <= i < |ws| ==> rs[i] == respond(RequestFor(airport, ws[i]))
  {
    seq(|ws|, i requires 0 <= i < |ws| => respond(RequestFor(airport, ws[i])))
  }

  /** A row of the flights table as the normaliser builds it. */
  datatype FlightRow = FlightRow(
    flightId: string,
    flightNumber: Option<string>,
    aircraftRegistration: Option<string>,
    originIata: Option<string>,
    destinationIata: Option<string>,
    scheduledDeparture: Option<string>,
    actualDeparture: Option<string>,
    scheduledArrival: Option<string>,
    actualArrival: Option<string>,
    status: Option<string>,
    airlineCode: Option<string>)

  function FlightIds(rows: seq<FlightRow>): (ids: seq<string>)
    ensures |ids| == |rows|
    ensures forall i :: 0 <= i < |rows| ==> ids[i] == rows[i].flightId
  {
    seq(|rows|, i requires 0 <= i < |rows| => rows[i].flightId)
  }

  /** The rows a frame keeps, each with its position among the rows. */
  lemma FrameSelects(rows: seq<FlightRow>)
    ensures var idx := KeptIndices(FlightIds(rows), {});
      && |KeepFirst(rows, FlightIds(rows), {})| == |idx|
      && forall j :: 0 <= j < |idx| ==> KeepFirst(rows, FlightIds(rows), {})[j] == rows[idx[j]]
  {
    KeepFirstSelects(rows, FlightIds(rows), {});
  }

  lemma FrameIdsUnique(rows: seq<FlightRow>)
    ensures forall j1, j2 :: 0 <= j1 < j2 < |KeepFirst(rows, FlightIds(rows), {})| ==>
      KeepFirst(rows, FlightIds(rows), {})[j1].flightId != KeepFirst(rows, FlightIds(rows), {})[j2].flightId
  {
    var ids := FlightIds(rows);
    var idx := KeptIndices(ids, {});
    FrameSelects(rows);
    KeptKeysUnique(ids, {});
    var frame := KeepFirst(rows, ids, {});
    forall j1, j2 | 0 <= j1 < j2 < |frame|
      ensures frame[j1].flightId != frame[j2].flightId
    {
      assert frame[j1].flightId == ids[idx[j1]] && frame[j2].flightId == ids[idx[j2]];
    }
  }

  lemma FrameIdsCover(rows: seq<FlightRow>, i: nat)
    requires i < |rows|
    ensures exists j :: (0 <= j < |KeepFirst(rows, FlightIds(rows), {})|
                         && KeepFirst(rows, FlightIds(rows), {})[j].flightId == rows[i].flightId)
  {
    var ids := FlightIds(rows);
    var idx := KeptIndices(ids, {});
    FrameSelects(rows);
    KeptKeysCover(ids, {}, i);
    var j :| 0 <= j < |idx| && ids[idx[j]] == ids[i];
    assert KeepFirst(rows, ids, {})[j].flightId == rows[i].flightId;
  }

  lemma FrameInRows(rows: seq<FlightRow>)
    ensures forall j :: 0 <= j < |KeepFirst(rows, FlightIds(rows), {})| ==> KeepFirst(rows, FlightIds(rows), {})[j] in rows
  {
    var idx := KeptIndices(FlightIds(rows), {});
    var frame := KeepFirst(rows, FlightIds(rows), {});
    FrameSelects(rows);
    forall j | 0 <= j < |frame| ensures frame[j] in rows {
      assert frame[j] == rows[idx[j]];
    }
  }

  /** A frame keeps exactly the first row of each `flight_id`: ids are unique, every
      row's id is still represented, and each kept row is one of the rows. */
  lemma FrameFirstPerId(rows: seq<FlightRow>)
    ensures var frame := KeepFirst(rows, FlightIds(rows), {});
      && (forall j1, j2 :: 0 <= j1 < j2 < |frame| ==> frame[j1].flightId != frame[j2].flightId)
      && (forall i :: 0 <= i < |rows| ==> exists j :: 0 <= j < |frame| && frame[j].flightId == rows[i].flightId)
      && (forall j :: 0 <= j < |frame| ==> frame[j] in rows)
  {
    FrameIdsUnique(rows);
    forall i | 0 <= i < |rows|
      ensures exists j :: 0 <= j < |KeepFirst(rows, FlightIds(rows), {})| && KeepFirst(rows, FlightIds(rows), {})[j].flightId == rows[i].flightId
    {
      FrameIdsCover(rows, i);
    }
    FrameInRows(rows);
  }
}
