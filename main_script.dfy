/** main.py: `fetch_flights_for_date`, which asks for a local day as two abutting
    twelve-hour windows and concatenates what both answers list, without
    deduplication. Its `insert_airport` and `insert_flight` bind the same values as
    new_main.py's and are modelled once, in `NewMain`. */
module MainScript {
  import opened Wrappers
  import opened Calendar
  import opened Payloads
  import NewMain

  // ---------------------------------------------------------------------------
  // Request windows

  /** [D 00:00, D 12:00] and [D 12:00, D+1 00:00] in local time. `localize`
      overflows on 0001-01-01 and 9999-12-31 (on the latter, so would adding a day). */
  function DayWindows(d: Date): (r: Option<seq<Window>>)
    requires ValidDate(d)
    ensures r.None? <==> d == FirstDate || d == LastDate
    ensures r.Some? ==> |r.value| == 2 && ValidWindow(r.value[0]) && ValidWindow(r.value[1])
  {
    if AtCalendarEnd(d) then None
    else
      NextDayStep(d);
      Some([Window(DateTime(d, 0), DateTime(d, 720)), Window(DateTime(d, 720), DateTime(NextDay(d), 0))])
  }

  /** Two twelve-hour windows: the second starts exactly where the first ends, and
      it ends at midnight of the next date. */
  lemma DayWindowsAbut(d: Date)
    requires ValidDate(d) && !AtCalendarEnd(d)
    ensures var ws := DayWindows(d).value;
      && Instant(ws[0].start) == Instant(DateTime(d, 0))
      && Instant(ws[0].end) - Instant(ws[0].start) == 720
      && Instant(ws[0].end) == Instant(ws[1].start)
      && Instant(ws[1].end) - Instant(ws[1].start) == 720
      && ws[1].end.date == NextDay(d) && ws[1].end.date != d
  {
    NextDayStep(d);
  }

  /** Every minute from D 00:00 to D+1 00:00 lies in a window; noon, and only noon,
      lies in both. */
  lemma DayWindowsCoverDay(d: Date, t: int)
    requires ValidDate(d) && !AtCalendarEnd(d)
    requires Instant(DateTime(d, 0)) <= t <= Instant(DateTime(d, 0)) + MinutesPerDay
    ensures var ws := DayWindows(d).value;
      && (NewMain.InWindow(ws[0], t) || NewMain.InWindow(ws[1], t))
      && (NewMain.InWindow(ws[0], t) && NewMain.InWindow(ws[1], t) <==> t == Instant(DateTime(d, 720)))
  {
    NextDayStep(d);
  }

  /** For 2025-12-13 the URLs carry 2025-12-13T00:00 to 2025-12-13T12:00 and
      2025-12-13T12:00 to 2025-12-14T00:00. */
  lemma DayWindowsExample()
    ensures var ws := DayWindows(Date(2025, 12, 13));
      && ws.Some?
      && FormatDateTime(ws.value[0].start) == "2025-12-13T00:00"
      && FormatDateTime(ws.value[0].end) == "2025-12-13T12:00"
      && FormatDateTime(ws.value[1].start) == "2025-12-13T12:00"
      && FormatDateTime(ws.value[1].end) == "2025-12-14T00:00"
  {
    assert NextDay(Date(2025, 12, 13)) == Date(2025, 12, 14);
    MidnightText();
    NoonText();
    NextMidnightText();
  }

  lemma ExampleDays()
    ensures FormatDate(Date(2025, 12, 13)) == "2025-12-13"
    ensures FormatDate(Date(2025, 12, 14)) == "2025-12-14"
  {
    assert Padded(2025, 4) == "2025";
  }

  lemma MidnightText()
    ensures FormatDateTime(DateTime(Date(2025, 12, 13), 0)) == "2025-12-13T00:00"
  {
    ExampleDays();
    assert Padded(0, 2) == "00";
    FormatDateTimeParts(Date(2025, 12, 13), 0, "2025-12-13", "00", "00");
  }

  lemma NoonText()
    ensures FormatDateTime(DateTime(Date(2025, 12, 13), 720)) == "2025-12-13T12:00"
  {
    ExampleDays();
    assert Padded(12, 2) == "12";
    assert Padded(0, 2) == "00";
    FormatDateTimeParts(Date(2025, 12, 13), 720, "2025-12-13", "12", "00");
  }

  lemma NextMidnightText()
    ensures FormatDateTime(DateTime(Date(2025, 12, 14), 0)) == "2025-12-14T00:00"
  {
    ExampleDays();
    assert Padded(0, 2) == "00";
    FormatDateTimeParts(Date(2025, 12, 14), 0, "2025-12-14", "00", "00");
  }

  // ---------------------------------------------------------------------------
  // Fetching: concatenation

  /** What the window loop means: the first error status, or per direction every
      flight listed, in window order. */
  function Collect(rs: seq<Response>): Result<FlightLists, FetchError> {
    match NewMain.FirstError(rs)
    case Some(status) => Err(HttpError(status))
    case None => Ok(FlightLists(NewMain.All(rs, Dep), NewMain.All(rs, Arr)))
  }

  /** The dictionary `fetch_flights_for_date` returns. */
  datatype DateFlights = DateFlights(
    iata: string, date: string, departureCount: nat, arrivalCount: nat,
    departures: seq<Flight>, arrivals: seq<Flight>)

  /** What `fetch_flights_for_date` returns for an airport and a `%Y-%m-%d` date. */
  function FetchSpec(iata: string, dateText: string, respond: Request -> Response): Result<DateFlights, FetchError> {
    match ParseDate(dateText)
    case None => Err(InvalidDate)
    case Some(d) =>
      match DayWindows(d)
      case None => Err(DateOverflow)
      case Some(ws) =>
        match Collect(Answers(iata, ws, respond))
        case Err(e) => Err(e)
        case Ok(lists) =>
          Ok(DateFlights(iata, dateText, |lists.departures|, |lists.arrivals|, lists.departures, lists.arrivals))
  }

  /** Once an answer has raised, later answers change nothing. */
  lemma {:induction false} FirstErrorStays(rs: seq<Response>, k: nat)
    requires k <= |rs| && NewMain.FirstError(rs[..k]).Some?
    ensures NewMain.FirstError(rs) == NewMain.FirstError(rs[..k])
    decreases |rs| - k
  {
    if k < |rs| {
      assert rs[..k + 1][..k] == rs[..k];
      FirstErrorStays(rs, k + 1);
    } else {
      assert rs[..k] == rs;
    }
  }

  /** One more answer: its lists follow the earlier ones, and it raises unless an
      earlier one already did. */
  lemma PrefixStep(rs: seq<Response>, i: nat, response: Response)
    requires i < |rs| && rs[i] == response
    ensures NewMain.All(rs[..i + 1], Dep) == NewMain.All(rs[..i], Dep) + response.departures
    ensures NewMain.All(rs[..i + 1], Arr) == NewMain.All(rs[..i], Arr) + response.arrivals
    ensures NewMain.FirstError(rs[..i]).None? ==>
      NewMain.FirstError(rs[..i + 1]) == (if IsHttpError(response.status) then Some(response.status) else None)
  {
    assert rs[..i + 1][..i] == rs[..i];
  }

  /** An error status in answer `i`, with none before it, is what the loop reports. */
  lemma RaisesAt(rs: seq<Response>, i: nat, response: Response)
    requires i < |rs| && rs[i] == response && IsHttpError(response.status)
    requires NewMain.FirstError(rs[..i]).None?
    ensures Collect(rs) == Err(HttpError(response.status))
  {
    PrefixStep(rs, i, response);
    FirstErrorStays(rs, i + 1);
  }

  /** The window loop (HTTP abstracted as `respond`): requests each window in order,
      raises on any error status, and extends both lists with everything listed. */
  method FetchWindows(iata: string, windows: seq<Window>, respond: Request -> Response)
    returns (r: Result<FlightLists, FetchError>)
    requires forall i :: 0 <= i < |windows| ==> ValidWindow(windows[i])
    ensures r == Collect(Answers(iata, windows, respond))
  {
    ghost var rs := Answers(iata, windows, respond);
    var allDepartures: seq<Flight> := [];
    var allArrivals: seq<Flight> := [];
    for i := 0 to |windows|
      invariant NewMain.FirstError(rs[..i]).None?
      invariant allDepartures == NewMain.All(rs[..i], Dep)
      invariant allArrivals == NewMain.All(rs[..i], Arr)
    {
      var response := respond(RequestFor(iata, windows[i]));
      if IsHttpError(response.status) {
        RaisesAt(rs, i, response);
        return Err(HttpError(response.status));
      }
      PrefixStep(rs, i, response);
      allDepartures := allDepartures + response.departures;
      allArrivals := allArrivals + response.arrivals;
    }
    assert rs[..|windows|] == rs;
    return Ok(FlightLists(allDepartures, allArrivals));
  }

  /** `fetch_flights_for_date` with the default `code_type` "iata". */
  method FetchFlightsForDate(iata: string, dateText: string, respond: Request -> Response)
    returns (r: Result<DateFlights, FetchError>)
    ensures r == FetchSpec(iata, dateText, respond)
  {
    var date := ParseDate(dateText);
    if date.None? {
      return Err(InvalidDate);
    }
    var windows := DayWindows(date.value);
    if windows.None? {
      return Err(DateOverflow);
    }
    var lists := FetchWindows(iata, windows.value, respond);
    if lists.Err? {
      return Err(lists.error);
    }
    var departures, arrivals := lists.value.departures, lists.value.arrivals;
    return Ok(DateFlights(iata, dateText, |departures|, |arrivals|, departures, arrivals));
  }

  /** Over two answers: failure exactly when one of them is an error status,
      otherwise each list is the first answer's followed by the second's. */
  lemma CollectTwo(rs: seq<Response>)
    requires |rs| == 2
    ensures Collect(rs).Err? <==> IsHttpError(rs[0].status) || IsHttpError(rs[1].status)
    ensures Collect(rs).Ok? ==>
      Collect(rs).value == FlightLists(rs[0].departures + rs[1].departures, rs[0].arrivals + rs[1].arrivals)
  {
    PrefixStep(rs, 0, rs[0]);
    PrefixStep(rs, 1, rs[1]);
    assert rs[..0] == [] && rs[..2] == rs;
  }

  /** On 0001-01-01 and 9999-12-31 `localize` raises before any request is made. */
  lemma FetchOverflowsAtCalendarEnds(iata: string, d: Date, respond: Request -> Response)
    requires ValidDate(d) && AtCalendarEnd(d)
    ensures FetchSpec(iata, FormatDate(d), respond) == Err(DateOverflow)
  {
    ParseFormatDate(d);
  }

  /** For a date inside the calendar: the fetch fails exactly when a window is
      answered with an error status; otherwise each list is the first window's list
      followed by the second's, nothing dropped, and the counts are their lengths. */
  lemma FetchConcatenates(iata: string, d: Date, respond: Request -> Response)
    requires ValidDate(d) && !AtCalendarEnd(d)
    ensures var rs := Answers(iata, DayWindows(d).value, respond);
      var r := FetchSpec(iata, FormatDate(d), respond);
      && (r.Err? <==> IsHttpError(rs[0].status) || IsHttpError(rs[1].status))
      && (r.Ok? ==>
        && r.value.departures == rs[0].departures + rs[1].departures
        && r.value.arrivals == rs[0].arrivals + rs[1].arrivals
        && r.value.departureCount == |rs[0].departures| + |rs[1].departures|
        && r.value.arrivalCount == |rs[0].arrivals| + |rs[1].arrivals|)
  {
    ParseFormatDate(d);
    CollectTwo(Answers(iata, DayWindows(d).value, respond));
  }
}
