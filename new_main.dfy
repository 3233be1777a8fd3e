/** new_main.py: the day's windows in local time, the fetch loop with one `seen`
    set per direction keyed by `flight.iataNumber` (object identity as the
    fallback), the packed result with its counts, the normaliser with its
    fallbacks, and the values bound by `insert_flight`, `batch_insert_flights` and
    `insert_airport` (main.py binds the same values for a flight and an airport). */
module NewMain {
  import opened Wrappers
  import opened Calendar
  import opened Payloads
  import opened Dedup
  import opened PyJson
  import Etl

  const Timezone := "Asia/Kolkata"

  // ---------------------------------------------------------------------------
  // Request windows

  /** [D 00:00, D 12:00] and [D 12:01, D 23:59], written into the URL in local time;
      `None` is `localize`'s OverflowError on 0001-01-01 and 9999-12-31. */
  function LocalWindows(d: Date): (r: Option<seq<Window>>)
    requires ValidDate(d)
    ensures r.None? <==> d == FirstDate || d == LastDate
    ensures r.Some? ==>
      var ws := r.value;
      var midnight := Instant(DateTime(d, 0));
      && |ws| == 2 && ValidWindow(ws[0]) && ValidWindow(ws[1])
      && Instant(ws[0].start) == midnight && Instant(ws[0].end) == midnight + 720
      && Instant(ws[1].start) == midnight + 721 && Instant(ws[1].end) == midnight + 1439
  {
    if AtCalendarEnd(d) then None
    else Some([Window(DateTime(d, 0), DateTime(d, 720)), Window(DateTime(d, 721), DateTime(d, 1439))])
  }

  predicate InWindow(w: Window, t: int)
    requires ValidWindow(w)
  {
    Instant(w.start) <= t <= Instant(w.end)
  }

  /** Every minute of the local day lies in exactly one of the two windows, and
      nothing outside the day lies in either. */
  lemma LocalWindowsPartitionDay(d: Date, t: int)
    requires ValidDate(d) && LocalWindows(d).Some?
    ensures var ws := LocalWindows(d).value;
      var midnight := Instant(DateTime(d, 0));
      && (midnight <= t < midnight + MinutesPerDay ==> InWindow(ws[0], t) != InWindow(ws[1], t))
      && (t < midnight || midnight + MinutesPerDay <= t ==> !InWindow(ws[0], t) && !InWindow(ws[1], t))
  {
  }

  /** etl.py asks for the same two local windows, shifted to UTC: each of its window
      ends is this script's end 330 minutes earlier. */
  lemma LocalWindowsAreUtcWindowsShifted(d: Date)
    requires ValidDate(d) && !AtCalendarEnd(d)
    ensures var local, utc := LocalWindows(d).value, Etl.UtcWindows(d).value;
      forall k :: 0 <= k < 2 ==>
        && Instant(utc[k].start) + Etl.IstOffset == Instant(local[k].start)
        && Instant(utc[k].end) + Etl.IstOffset == Instant(local[k].end)
  {
  }

  /** For 2024-12-14 the URLs carry 2024-12-14T00:00 to 2024-12-14T12:00 and
      2024-12-14T12:01 to 2024-12-14T23:59. */
  lemma LocalWindowsExample()
    ensures var ws := LocalWindows(Date(2024, 12, 14));
      && ws.Some?
      && FormatDateTime(ws.value[0].start) == "2024-12-14T00:00"
      && FormatDateTime(ws.value[0].end) == "2024-12-14T12:00"
      && FormatDateTime(ws.value[1].start) == "2024-12-14T12:01"
      && FormatDateTime(ws.value[1].end) == "2024-12-14T23:59"
  {
    FirstStartText();
    FirstEndText();
    SecondStartText();
    SecondEndText();
  }

  lemma FirstStartText()
    ensures FormatDateTime(DateTime(Date(2024, 12, 14), 0)) == "2024-12-14T00:00"
  {
    Etl.ExampleDays();
    assert Padded(0, 2) == "00";
    FormatDateTimeParts(Date(2024, 12, 14), 0, "2024-12-14", "00", "00");
  }

  lemma FirstEndText()
    ensures FormatDateTime(DateTime(Date(2024, 12, 14), 720)) == "2024-12-14T12:00"
  {
    Etl.ExampleDays();
    assert Padded(0, 2) == "00";
    assert Padded(12, 2) == "12";
    FormatDateTimeParts(Date(2024, 12, 14), 720, "2024-12-14", "12", "00");
  }

  lemma SecondStartText()
    ensures FormatDateTime(DateTime(Date(2024, 12, 14), 721)) == "2024-12-14T12:01"
  {
    Etl.ExampleDays();
    assert Padded(1, 2) == "01";
    assert Padded(12, 2) == "12";
    FormatDateTimeParts(Date(2024, 12, 14), 721, "2024-12-14", "12", "01");
  }

  lemma SecondEndText()
    ensures FormatDateTime(DateTime(Date(2024, 12, 14), 1439)) == "2024-12-14T23:59"
  {
    Etl.ExampleDays();
    assert Padded(23, 2) == "23";
    assert Padded(59, 2) == "59";
    FormatDateTimeParts(Date(2024, 12, 14), 1439, "2024-12-14", "23", "59");
  }

  // ---------------------------------------------------------------------------
  // Fetching: one `seen` set per direction

  /** `flight.get("flight", {}).get("iataNumber") or id(flight)`: the IATA number when
      it is truthy, otherwise the identity of the payload object, written as the
      window it came in and its position in that window's list. A flight whose
      identity enters a `seen` set is kept, so stays alive, and no identity is reused. */
  datatype Fid = ByNumber(iataNumber: string) | ById(window: nat, position: nat)

  function FidOf(f: Flight, window: nat, position: nat): Fid {
    if Present(f.iataNumber) then ByNumber(f.iataNumber.value) else ById(window, position)
  }

  function Fids(fs: seq<Flight>, window: nat): (ks: seq<Fid>)
    ensures |ks| == |fs|
    ensures forall i :: 0 <= i < |fs| ==> ks[i] == FidOf(fs[i], window, i)
  {
    seq(|fs|, i requires 0 <= i < |fs| => FidOf(fs[i], window, i))
  }

  function Listed(r: Response, dir: Direction): seq<Flight> {
    if dir == Dep then r.departures else r.arrivals
  }

  /** The status of the first answer for which `raise_for_status()` raises. */
  function FirstError(rs: seq<Response>): (r: Option<int>)
    ensures r.None? <==> forall i :: 0 <= i < |rs| ==> !IsHttpError(rs[i].status)
    ensures r.Some? ==> exists i :: 0 <= i < |rs| && IsHttpError(rs[i].status) && rs[i].status == r.value
  {
    if rs == [] then None
    else
      var n := |rs| - 1;
      var r := FirstError(rs[..n]);
      assert forall i :: 0 <= i < n ==> rs[..n][i] == rs[i];
      if r.Some? then r
      else if IsHttpError(rs[n].status) then Some(rs[n].status)
      else None
  }

  /** One direction's flights over all answers, in window order. */
  function All(rs: seq<Response>, dir: Direction): seq<Flight> {
    if rs == [] then []
    else
      var n := |rs| - 1;
      All(rs[..n], dir) + Listed(rs[n], dir)
  }

  /** The `fid` of each of those flights. */
  function AllFids(rs: seq<Response>, dir: Direction): (ks: seq<Fid>)
    ensures |ks| == |All(rs, dir)|
  {
    if rs == [] then []
    else
      var n := |rs| - 1;
      AllFids(rs[..n], dir) + Fids(Listed(rs[n], dir), n)
  }

  /** What the window loop means: the first error status, or per direction the first
      flight of each `fid` over all the answers. */
  function Collect(rs: seq<Response>): Result<FlightLists, FetchError> {
    match FirstError(rs)
    case Some(status) => Err(HttpError(status))
    case None =>
      Ok(FlightLists(KeepFirst(All(rs, Dep), AllFids(rs, Dep), {}),
                     KeepFirst(All(rs, Arr), AllFids(rs, Arr), {})))
  }

  datatype Meta = Meta(arrivalCount: nat, departureCount: nat, windowsUsed: nat)

  /** The dictionary `fetch_flights` returns. */
  datatype Packed = Packed(
    iata: string, date: string, timezone: string,
    arrivals: seq<Flight>, departures: seq<Flight>, meta: Meta)

  /** What `fetch_flights` returns for an airport and a `%Y-%m-%d` date. */
  function FetchSpec(iata: string, dateText: string, respond: Request -> Response): Result<Packed, FetchError> {
    match ParseDate(dateText)
    case None => Err(InvalidDate)
    case Some(d) =>
      match LocalWindows(d)
      case None => Err(DateOverflow)
      case Some(ws) =>
        match Collect(Answers(iata, ws, respond))
        case Err(e) => Err(e)
        case Ok(lists) =>
          Ok(Packed(iata, dateText, Timezone, lists.arrivals, lists.departures,
                    Meta(|lists.arrivals|, |lists.departures|, |ws|)))
  }

  /** The variables of the window loop. */
  datatype Progress = Progress(
    arrivals: seq<Flight>, departures: seq<Flight>,
    seenArrivals: set<Fid>, seenDepartures: set<Fid>)

  /** One pass of the window loop on the answer for window `window`: raise on an error
      status, otherwise filter the arrivals and then the departures, each through its
      own `seen` set. */
  function Step(p: Progress, window: nat, r: Response): Result<Progress, FetchError> {
    if IsHttpError(r.status) then Err(HttpError(r.status))
    else
      var ak, dk := Fids(r.arrivals, window), Fids(r.departures, window);
      Ok(Progress(p.arrivals + KeepFirst(r.arrivals, ak, p.seenArrivals),
                  p.departures + KeepFirst(r.departures, dk, p.seenDepartures),
                  p.seenArrivals + Elems(ak),
                  p.seenDepartures + Elems(dk)))
  }

  /** The window loop over the answers; the first error ends it. */
  function Loop(rs: seq<Response>): Result<Progress, FetchError> {
    if rs == [] then Ok(Progress([], [], {}, {}))
    else
      var n := |rs| - 1;
      match Loop(rs[..n])
      case Err(e) => Err(e)
      case Ok(p) => Step(p, n, rs[n])
  }

  /** What the loop variables hold after the answers `rs`. */
  ghost predicate Holds(rs: seq<Response>, p: Progress) {
    && p.arrivals == KeepFirst(All(rs, Arr), AllFids(rs, Arr), {})
    && p.departures == KeepFirst(All(rs, Dep), AllFids(rs, Dep), {})
    && p.seenArrivals == Elems(AllFids(rs, Arr))
    && p.seenDepartures == Elems(AllFids(rs, Dep))
  }

  /** Filtering one more answer's list through the `seen` set of the earlier ones is
      keep-first over the longer concatenation. */
  lemma DirectionStep(rs: seq<Response>, r: Response, dir: Direction)
    ensures var all, ks := All(rs, dir), AllFids(rs, dir);
      var cur := Listed(r, dir);
      var ck := Fids(cur, |rs|);
      && All(rs + [r], dir) == all + cur
      && AllFids(rs + [r], dir) == ks + ck
      && KeepFirst(all + cur, ks + ck, {}) == KeepFirst(all, ks, {}) + KeepFirst(cur, ck, Elems(ks))
      && Elems(ks + ck) == Elems(ks) + Elems(ck)
  {
    var all, ks := All(rs, dir), AllFids(rs, dir);
    var cur := Listed(r, dir);
    var ck := Fids(cur, |rs|);
    var rs' := rs + [r];
    assert rs'[..|rs|] == rs && rs'[|rs|] == r;
    assert All(rs', dir) == all + cur;
    assert AllFids(rs', dir) == ks + ck;
    assert |ks| == |all| && |ck| == |cur|;
    KeepFirstAppend(all, ks, cur, ck, {});
    assert {} + Elems(ks) == Elems(ks);
    ElemsAppend(ks, ck);
  }

  lemma StepKeeps(rs: seq<Response>, p: Progress, r: Response)
    requires Holds(rs, p) && !IsHttpError(r.status)
    ensures Holds(rs + [r], Step(p, |rs|, r).value)
  {
    DirectionStep(rs, r, Arr);
    DirectionStep(rs, r, Dep);
  }

  /** One more answer is one more step, unless the loop has already failed. */
  lemma LoopSnoc(rs: seq<Response>, i: nat)
    requires i < |rs|
    ensures Loop(rs[..i + 1]) == match Loop(rs[..i])
      case Err(e) => Err(e)
      case Ok(p) => Step(p, i, rs[i])
  {
    assert rs[..i + 1][..i] == rs[..i];
  }

  /** The loop fails exactly when some answer is an error status, with the first one. */
  lemma {:induction false} LoopFails(rs: seq<Response>)
    ensures Loop(rs).Err? <==> FirstError(rs).Some?
    ensures Loop(rs).Err? ==> Loop(rs).error == HttpError(FirstError(rs).value)
  {
    if rs != [] {
      LoopFails(rs[..|rs| - 1]);
    }
  }

  lemma {:induction false} LoopSucceeds(rs: seq<Response>)
    ensures Loop(rs).Ok? ==> Holds(rs, Loop(rs).value)
  {
    if rs != [] {
      var n := |rs| - 1;
      LoopSucceeds(rs[..n]);
      assert rs == rs[..n] + [rs[n]];
      if Loop(rs[..n]).Ok? && !IsHttpError(rs[n].status) {
        StepKeeps(rs[..n], Loop(rs[..n]).value, rs[n]);
      }
    }
  }

  /** The loop computes `Collect`. */
  lemma LoopMeaning(rs: seq<Response>)
    ensures match Loop(rs)
      case Err(e) => Collect(rs) == Err(e)
      case Ok(p) => Collect(rs) == Ok(FlightLists(p.departures, p.arrivals))
  {
    LoopFails(rs);
    LoopSucceeds(rs);
  }

  /** Once the loop has failed, later answers change nothing. */
  lemma {:induction false} LoopStopsAtError(rs: seq<Response>, k: nat)
    requires k <= |rs| && Loop(rs[..k]).Err?
    ensures Loop(rs) == Loop(rs[..k])
    decreases |rs| - k
  {
    if k < |rs| {
      assert rs[..k + 1][..k] == rs[..k];
      LoopStopsAtError(rs, k + 1);
    } else {
      assert rs[..k] == rs;
    }
  }

  /** The window loop of `fetch_flights` (HTTP abstracted as `respond`): requests
      each window in order, raises on any error status, and keeps arrivals and then
      departures, each through its own `seen` set. */
  method FetchWindows(iata: string, ranges: seq<Window>, respond: Request -> Response)
    returns (r: Result<FlightLists, FetchError>)
    requires forall i :: 0 <= i < |ranges| ==> ValidWindow(ranges[i])
    ensures r == Collect(Answers(iata, ranges, respond))
  {
    ghost var rs := Answers(iata, ranges, respond);
    var arrivals: seq<Flight> := [];
    var departures: seq<Flight> := [];
    var seenArrivals: set<Fid> := {};
    var seenDepartures: set<Fid> := {};
    for i := 0 to |ranges|
      invariant Loop(rs[..i]) == Ok(Progress(arrivals, departures, seenArrivals, seenDepartures))
    {
      var response := respond(RequestFor(iata, ranges[i]));
      LoopSnoc(rs, i);
      if IsHttpError(response.status) {
        LoopStopsAtError(rs, i + 1);
        LoopMeaning(rs);
        return Err(HttpError(response.status));
      }
      arrivals, seenArrivals := KeepUnseen(response.arrivals, Fids(response.arrivals, i), arrivals, seenArrivals);
      departures, seenDepartures := KeepUnseen(response.departures, Fids(response.departures, i), departures, seenDepartures);
    }
    assert rs[..|ranges|] == rs;
    LoopMeaning(rs);
    return Ok(FlightLists(departures, arrivals));
  }

  /** `fetch_flights`: parses the date, runs the window loop over both local windows,
      and packs the arrivals and departures kept with their counts. */
  method FetchFlights(iata: string, dateText: string, respond: Request -> Response)
    returns (r: Result<Packed, FetchError>)
    ensures r == FetchSpec(iata, dateText, respond)
  {
    var date := ParseDate(dateText);
    if date.None? {
      return Err(InvalidDate);
    }
    var windows := LocalWindows(date.value);
    if windows.None? {
      return Err(DateOverflow);
    }
    var ranges := windows.value;
    var lists := FetchWindows(iata, ranges, respond);
    if lists.Err? {
      return Err(lists.error);
    }
    var arrivals, departures := lists.value.arrivals, lists.value.departures;
    return Ok(Packed(iata, dateText, Timezone, arrivals, departures,
                     Meta(|arrivals|, |departures|, |ranges|)));
  }

  /** There is no skipped status: for a date inside the calendar, the fetch fails
      exactly when one of the two windows is answered with a status from 400 to 599. */
  lemma FetchFailsOnAnyError(iata: string, d: Date, respond: Request -> Response)
    requires ValidDate(d) && !AtCalendarEnd(d)
    ensures var rs := Answers(iata, LocalWindows(d).value, respond);
      FetchSpec(iata, FormatDate(d), respond).Err? <==> exists k :: 0 <= k < 2 && IsHttpError(rs[k].status)
  {
    ParseFormatDate(d);
  }

  /** On 0001-01-01 and 9999-12-31 `localize` raises before any request is made. */
  lemma FetchOverflowsAtCalendarEnds(iata: string, d: Date, respond: Request -> Response)
    requires ValidDate(d) && AtCalendarEnd(d)
    ensures FetchSpec(iata, FormatDate(d), respond) == Err(DateOverflow)
  {
    ParseFormatDate(d);
  }

  /** The counts in `meta` are the lengths of the lists returned, and two windows
      are used. */
  lemma PackedCounts(iata: string, dateText: string, respond: Request -> Response)
    requires FetchSpec(iata, dateText, respond).Ok?
    ensures var p := FetchSpec(iata, dateText, respond).value;
      && p.meta.arrivalCount == |p.arrivals|
      && p.meta.departureCount == |p.departures|
      && p.meta.windowsUsed == 2
      && p.iata == iata && p.date == dateText && p.timezone == "Asia/Kolkata"
  {
  }

  /** The `fid`s of one direction: a flight with a truthy IATA number is keyed by it,
      any other by an identity from an earlier or the current window that no other
      flight of that direction shares. */
  lemma {:induction false} AllFidsSpec(rs: seq<Response>, dir: Direction)
    ensures forall i :: 0 <= i < |All(rs, dir)| && Present(All(rs, dir)[i].iataNumber) ==>
      AllFids(rs, dir)[i] == ByNumber(All(rs, dir)[i].iataNumber.value)
    ensures forall i :: 0 <= i < |All(rs, dir)| && !Present(All(rs, dir)[i].iataNumber) ==>
      AllFids(rs, dir)[i].ById? && AllFids(rs, dir)[i].window < |rs|
    ensures forall i, j :: 0 <= i < |All(rs, dir)| && 0 <= j < |All(rs, dir)| && i != j && AllFids(rs, dir)[i].ById? ==>
      AllFids(rs, dir)[i] != AllFids(rs, dir)[j]
  {
    if rs != [] {
      var n := |rs| - 1;
      AllFidsSpec(rs[..n], dir);
      var all0, ks0 := All(rs[..n], dir), AllFids(rs[..n], dir);
      var cur := Listed(rs[n], dir);
      var ck := Fids(cur, n);
      var all, ks := all0 + cur, ks0 + ck;
      assert All(rs, dir) == all && AllFids(rs, dir) == ks;
      var m := |all0|;
      forall i | 0 <= i < |all|
        ensures Present(all[i].iataNumber) ==> ks[i] == ByNumber(all[i].iataNumber.value)
        ensures !Present(all[i].iataNumber) ==> ks[i].ById? && ks[i].window < |rs|
        ensures ks[i].ById? ==> ks[i].window < n || (ks[i].window == n && ks[i].position == i - m)
      {
        if i >= m {
          assert all[i] == cur[i - m] && ks[i] == ck[i - m];
        } else {
          assert all[i] == all0[i] && ks[i] == ks0[i];
        }
      }
      forall i, j | 0 <= i < |all| && 0 <= j < |all| && i != j && ks[i].ById?
        ensures ks[i] != ks[j]
      {
        if i < m && j < m {
          assert ks[i] == ks0[i] && ks[j] == ks0[j];
        } else if i < m {
          assert ks[i] == ks0[i];
        } else if j < m {
          assert ks[j] == ks0[j];
        }
      }
    }
  }

  /** Per direction no two flights kept carry the same truthy IATA number, and every
      truthy IATA number answered is still represented. */
  lemma NumberedFlightsOnce(rs: seq<Response>, dir: Direction)
    ensures var all, ks := All(rs, dir), AllFids(rs, dir);
      var kept := KeepFirst(all, ks, {});
      && (forall j1, j2 :: 0 <= j1 < j2 < |kept| && Present(kept[j1].iataNumber) && Present(kept[j2].iataNumber)
            ==> kept[j1].iataNumber != kept[j2].iataNumber)
      && (forall i :: 0 <= i < |all| && Present(all[i].iataNumber) ==>
            exists j :: 0 <= j < |kept| && kept[j].iataNumber == all[i].iataNumber)
  {
    NumberedKeptOnce(rs, dir);
    forall i | 0 <= i < |All(rs, dir)| && Present(All(rs, dir)[i].iataNumber)
      ensures exists j :: (0 <= j < |KeepFirst(All(rs, dir), AllFids(rs, dir), {})|
                           && KeepFirst(All(rs, dir), AllFids(rs, dir), {})[j].iataNumber == All(rs, dir)[i].iataNumber)
    {
      NumberedKept(rs, dir, i);
    }
  }

  lemma NumberedKeptOnce(rs: seq<Response>, dir: Direction)
    ensures forall j1, j2 ::
      (&& 0 <= j1 < j2 < |KeepFirst(All(rs, dir), AllFids(rs, dir), {})|
       && Present(KeepFirst(All(rs, dir), AllFids(rs, dir), {})[j1].iataNumber)
       && Present(KeepFirst(All(rs, dir), AllFids(rs, dir), {})[j2].iataNumber))
      ==> (KeepFirst(All(rs, dir), AllFids(rs, dir), {})[j1].iataNumber
           != KeepFirst(All(rs, dir), AllFids(rs, dir), {})[j2].iataNumber)
  {
    var all, ks := All(rs, dir), AllFids(rs, dir);
    var kept, idx := KeepFirst(all, ks, {}), KeptIndices(ks, {});
    AllFidsSpec(rs, dir);
    KeepFirstSpec(all, ks, {});
    KeptKeysUnique(ks, {});
    forall j1, j2 | 0 <= j1 < j2 < |kept| && Present(kept[j1].iataNumber) && Present(kept[j2].iataNumber)
      ensures kept[j1].iataNumber != kept[j2].iataNumber
    {
      assert ks[idx[j1]] != ks[idx[j2]];
    }
  }

  lemma NumberedKept(rs: seq<Response>, dir: Direction, i: nat)
    requires i < |All(rs, dir)| && Present(All(rs, dir)[i].iataNumber)
    ensures exists j :: (0 <= j < |KeepFirst(All(rs, dir), AllFids(rs, dir), {})|
                         && KeepFirst(All(rs, dir), AllFids(rs, dir), {})[j].iataNumber == All(rs, dir)[i].iataNumber)
  {
    var all, ks := All(rs, dir), AllFids(rs, dir);
    var kept, idx := KeepFirst(all, ks, {}), KeptIndices(ks, {});
    AllFidsSpec(rs, dir);
    KeepFirstSpec(all, ks, {});
    KeptKeysCover(ks, {}, i);
    var j :| 0 <= j < |idx| && ks[idx[j]] == ks[i];
    assert kept[j] == all[idx[j]];
  }

  /** A flight without a truthy IATA number is never dropped. */
  lemma IdentityKeyedKept(rs: seq<Response>, dir: Direction, i: nat)
    requires i < |All(rs, dir)| && !Present(All(rs, dir)[i].iataNumber)
    ensures i in KeptIndices(AllFids(rs, dir), {})
    ensures All(rs, dir)[i] in KeepFirst(All(rs, dir), AllFids(rs, dir), {})
  {
    var all, ks := All(rs, dir), AllFids(rs, dir);
    AllFidsSpec(rs, dir);
    KeepsUniqueKey(ks, {}, i);
    KeepFirstSelects(all, ks, {});
    var idx := KeptIndices(ks, {});
    var j :| 0 <= j < |idx| && idx[j] == i;
    assert KeepFirst(all, ks, {})[j] == all[i];
  }

  // ---------------------------------------------------------------------------
  // Normalising: `flights_to_dataframe`

  /** A departure row: the key is `{airline}_{number}_{scheduled departure}`; the
      origin falls back to the queried airport and each actual time to its
      scheduled time when missing or empty. */
  function DepartureRow(f: Flight, iata: string): (row: FlightRow)
    ensures row.flightId == Render(f.airlineIata) + "_" + Render(f.number) + "_" + Render(f.departure.scheduledUtc)
    ensures row.flightNumber == f.number && row.aircraftRegistration == f.aircraftReg
    ensures row.status == f.status && row.airlineCode == f.airlineIata
    ensures row.originIata.Some?
    ensures Present(f.departure.airportIata) ==> row.originIata == f.departure.airportIata
    ensures !Present(f.departure.airportIata) ==> row.originIata == Some(iata)
    ensures row.destinationIata == f.arrival.airportIata
    ensures row.scheduledDeparture == f.departure.scheduledUtc
    ensures row.scheduledArrival == f.arrival.scheduledUtc
    ensures Present(f.departure.scheduledUtc) ==> Present(row.actualDeparture)
    ensures Present(f.arrival.scheduledUtc) ==> Present(row.actualArrival)
    ensures Present(f.departure.revisedUtc) ==> row.actualDeparture == f.departure.revisedUtc
    ensures !Present(f.departure.revisedUtc) ==> row.actualDeparture == f.departure.scheduledUtc
    ensures Present(f.arrival.revisedUtc) ==> row.actualArrival == f.arrival.revisedUtc
    ensures !Present(f.arrival.revisedUtc) ==> row.actualArrival == f.arrival.scheduledUtc
  {
    var sd, sa := f.departure.scheduledUtc, f.arrival.scheduledUtc;
    FlightRow(
      Render(f.airlineIata) + "_" + Render(f.number) + "_" + Render(sd),
      f.number, f.aircraftReg,
      OrElse(f.departure.airportIata, Some(iata)), f.arrival.airportIata,
      sd, OrElse(f.departure.revisedUtc, sd),
      sa, OrElse(f.arrival.revisedUtc, sa),
      f.status, f.airlineIata)
  }

  /** An arrival row: the key is `{airline}_{number}_{scheduled arrival}`; the
      destination falls back to the queried airport. */
  function ArrivalRow(f: Flight, iata: string): (row: FlightRow)
    ensures row.flightId == Render(f.airlineIata) + "_" + Render(f.number) + "_" + Render(f.arrival.scheduledUtc)
    ensures row.flightNumber == f.number && row.aircraftRegistration == f.aircraftReg
    ensures row.status == f.status && row.airlineCode == f.airlineIata
    ensures row.destinationIata.Some?
    ensures Present(f.arrival.airportIata) ==> row.destinationIata == f.arrival.airportIata
    ensures !Present(f.arrival.airportIata) ==> row.destinationIata == Some(iata)
    ensures row.originIata == f.departure.airportIata
    ensures row.scheduledDeparture == f.departure.scheduledUtc
    ensures row.scheduledArrival == f.arrival.scheduledUtc
    ensures Present(f.departure.scheduledUtc) ==> Present(row.actualDeparture)
    ensures Present(f.arrival.scheduledUtc) ==> Present(row.actualArrival)
    ensures Present(f.departure.revisedUtc) ==> row.actualDeparture == f.departure.revisedUtc
    ensures !Present(f.departure.revisedUtc) ==> row.actualDeparture == f.departure.scheduledUtc
    ensures Present(f.arrival.revisedUtc) ==> row.actualArrival == f.arrival.revisedUtc
    ensures !Present(f.arrival.revisedUtc) ==> row.actualArrival == f.arrival.scheduledUtc
  {
    var sd, sa := f.departure.scheduledUtc, f.arrival.scheduledUtc;
    FlightRow(
      Render(f.airlineIata) + "_" + Render(f.number) + "_" + Render(sa),
      f.number, f.aircraftReg,
      f.departure.airportIata, OrElse(f.arrival.airportIata, Some(iata)),
      sd, OrElse(f.departure.revisedUtc, sd),
      sa, OrElse(f.arrival.revisedUtc, sa),
      f.status, f.airlineIata)
  }

  /** All rows before deduplication: departures first, then arrivals. */
  function Rows(departures: seq<Flight>, arrivals: seq<Flight>, iata: string): (rows: seq<FlightRow>)
    ensures |rows| == |departures| + |arrivals|
    ensures forall i :: 0 <= i < |departures| ==> rows[i] == DepartureRow(departures[i], iata)
    ensures forall i :: 0 <= i < |arrivals| ==> rows[|departures| + i] == ArrivalRow(arrivals[i], iata)
  {
    seq(|departures|, i requires 0 <= i < |departures| => DepartureRow(departures[i], iata))
      + seq(|arrivals|, i requires 0 <= i < |arrivals| => ArrivalRow(arrivals[i], iata))
  }

  /** A sequence holding each departure's row and then each arrival's row is `Rows`. */
  lemma RowsByPosition(rows: seq<FlightRow>, departures: seq<Flight>, arrivals: seq<Flight>, iata: string)
    requires |rows| == |departures| + |arrivals|
    requires forall k :: 0 <= k < |departures| ==> rows[k] == DepartureRow(departures[k], iata)
    requires forall k :: 0 <= k < |arrivals| ==> rows[|departures| + k] == ArrivalRow(arrivals[k], iata)
    ensures rows == Rows(departures, arrivals, iata)
  {
    var all := Rows(departures, arrivals, iata);
    forall k | 0 <= k < |rows| ensures rows[k] == all[k] {
      if k >= |departures| {
        assert rows[|departures| + (k - |departures|)] == ArrivalRow(arrivals[k - |departures|], iata);
      }
    }
  }

  /** `pd.DataFrame(rows).drop_duplicates(subset=["flight_id"], inplace=True)`. */
  function Frame(departures: seq<Flight>, arrivals: seq<Flight>, iata: string): seq<FlightRow> {
    var rows := Rows(departures, arrivals, iata);
    KeepFirst(rows, FlightIds(rows), {})
  }

  /** `flights_to_dataframe`: one row per departure, then one per arrival, then
      keep-first on `flight_id`. */
  method FlightsToDataFrame(flights: Packed, iata: string) returns (df: seq<FlightRow>)
    ensures df == Frame(flights.departures, flights.arrivals, iata)
  {
    var rows: seq<FlightRow> := [];
    var deps := flights.departures;
    for i := 0 to |deps|
      invariant |rows| == i
      invariant forall k :: 0 <= k < i ==> rows[k] == DepartureRow(deps[k], iata)
    {
      rows := rows + [DepartureRow(deps[i], iata)];
    }
    var arrs := flights.arrivals;
    for i := 0 to |arrs|
      invariant |rows| == |deps| + i
      invariant forall k :: 0 <= k < |deps| ==> rows[k] == DepartureRow(deps[k], iata)
      invariant forall k :: 0 <= k < i ==> rows[|deps| + k] == ArrivalRow(arrs[k], iata)
    {
      rows := rows + [ArrivalRow(arrs[i], iata)];
    }
    RowsByPosition(rows, deps, arrs, iata);
    df := KeepFirst(rows, FlightIds(rows), {});
  }

  /** Every frame row is the row of one of the departures or of one of the arrivals,
      so its queried side (origin of a departure, destination of an arrival) is set. */
  lemma FrameRowsFromFlights(departures: seq<Flight>, arrivals: seq<Flight>, iata: string)
    ensures var frame := Frame(departures, arrivals, iata);
      forall j :: 0 <= j < |frame| ==>
        || (exists i :: 0 <= i < |departures| && frame[j] == DepartureRow(departures[i], iata))
        || (exists i :: 0 <= i < |arrivals| && frame[j] == ArrivalRow(arrivals[i], iata))
  {
    var rows := Rows(departures, arrivals, iata);
    var frame := Frame(departures, arrivals, iata);
    KeepFirstSelects(rows, FlightIds(rows), {});
    var idx := KeptIndices(FlightIds(rows), {});
    forall j | 0 <= j < |frame|
      ensures || (exists i :: 0 <= i < |departures| && frame[j] == DepartureRow(departures[i], iata))
              || (exists i :: 0 <= i < |arrivals| && frame[j] == ArrivalRow(arrivals[i], iata))
    {
      var k := idx[j];
      if k < |departures| {
        assert frame[j] == DepartureRow(departures[k], iata);
      } else {
        assert frame[j] == ArrivalRow(arrivals[k - |departures|], iata);
      }
    }
  }

  /** The same leg seen as a departure and as an arrival gets two different keys
      whenever its scheduled departure and arrival times differ. */
  lemma LegKeysDiffer(f: Flight, origin: string, destination: string)
    requires Render(f.departure.scheduledUtc) != Render(f.arrival.scheduledUtc)
    ensures DepartureRow(f, origin).flightId != ArrivalRow(f, destination).flightId
  {
    var p := Render(f.airlineIata) + "_" + Render(f.number) + "_";
    var a, b := Render(f.departure.scheduledUtc), Render(f.arrival.scheduledUtc);
    assert DepartureRow(f, origin).flightId == p + a;
    assert ArrivalRow(f, destination).flightId == p + b;
    assert (p + a)[|p|..] == a;
    assert (p + b)[|p|..] == b;
  }

  // ---------------------------------------------------------------------------
  // Values bound for insertion

  /** The eleven values bound to `INSERT OR IGNORE INTO flights`. `safe_str` leaves
      them unchanged: in this model every one of them is a string or `None`. */
  datatype FlightRecord = FlightRecord(
    flightId: Option<string>,
    flightNumber: Option<string>,
    aircraftRegistration: Option<string>,
    originIata: Option<string>,
    destinationIata: Option<string>,
    scheduledDeparture: Option<string>,
    actualDeparture: Option<string>,
    scheduledArrival: Option<string>,
    actualArrival: Option<string>,
    status: Option<string>,
    airlineCode: Option<string>)

  /** `insert_flight`: the flight number serves as both `flight_id` and
      `flight_number`; origin and destination fall back to the queried airport;
      actual times are the local actual times. */
  function InsertFlightRecord(f: Flight, iata: string): (r: FlightRecord)
    ensures r.flightId == r.flightNumber == f.number
    ensures r.originIata.Some? && r.destinationIata.Some?
    ensures Present(f.departure.airportIata) ==> r.originIata == f.departure.airportIata
    ensures !Present(f.departure.airportIata) ==> r.originIata == Some(iata)
    ensures Present(f.arrival.airportIata) ==> r.destinationIata == f.arrival.airportIata
    ensures !Present(f.arrival.airportIata) ==> r.destinationIata == Some(iata)
    ensures r.aircraftRegistration == f.aircraftReg && r.status == f.status && r.airlineCode == f.airlineIata
    ensures r.scheduledDeparture == f.departure.scheduledUtc && r.scheduledArrival == f.arrival.scheduledUtc
    ensures r.actualDeparture == f.departure.actualTimeLocal && r.actualArrival == f.arrival.actualTimeLocal
  {
    FlightRecord(
      f.number, f.number, f.aircraftReg,
      OrElse(f.departure.airportIata, Some(iata)),
      OrElse(f.arrival.airportIata, Some(iata)),
      f.departure.scheduledUtc, f.departure.actualTimeLocal,
      f.arrival.scheduledUtc, f.arrival.actualTimeLocal,
      f.status, f.airlineIata)
  }

  /** The eleven columns of a frame row, in the order `batch_insert_flights` selects
      them: every column of the row. */
  function RecordOfRow(row: FlightRow): FlightRecord {
    FlightRecord(
      Some(row.flightId), row.flightNumber, row.aircraftRegistration,
      row.originIata, row.destinationIata,
      row.scheduledDeparture, row.actualDeparture,
      row.scheduledArrival, row.actualArrival,
      row.status, row.airlineCode)
  }

  /** `batch_insert_flights`: nothing for an empty frame, otherwise one record per row. */
  function BatchInsertRecords(frame: seq<FlightRow>): (r: Option<seq<FlightRecord>>)
    ensures r.None? <==> frame == []
    ensures r.Some? ==> |r.value| == |frame|
    ensures r.Some? ==> forall i :: 0 <= i < |frame| ==> r.value[i].flightId == Some(frame[i].flightId)
  {
    if frame == [] then None
    else Some(seq(|frame|, i requires 0 <= i < |frame| => RecordOfRow(frame[i])))
  }

  /** The normalised frame is inserted exactly when some flight was fetched, and
      its records carry pairwise distinct `flight_id`s. */
  lemma BatchAfterFrame(departures: seq<Flight>, arrivals: seq<Flight>, iata: string)
    ensures var records := BatchInsertRecords(Frame(departures, arrivals, iata));
      && (records.None? <==> departures == [] && arrivals == [])
      && (records.Some? ==>
            forall j1, j2 :: 0 <= j1 < j2 < |records.value| ==> records.value[j1].flightId != records.value[j2].flightId)
  {
    var rows := Rows(departures, arrivals, iata);
    KeepFirstSelects(rows, FlightIds(rows), {});
    var idx := KeptIndices(FlightIds(rows), {});
    if rows != [] {
      assert idx != [] by {
        KeepFirstSpec(rows, FlightIds(rows), {});
        assert IsFirst(FlightIds(rows), {}, 0);
      }
    }
    FrameFirstPerId(rows);
  }

  /** The airport values with `safe_str` applied to every text column. */
  function SafeTexts(r: Etl.AirportRecord): Etl.AirportRecord {
    Etl.AirportRecord(
      SafeStr(r.icaoCode), SafeStr(r.iataCode), SafeStr(r.name), SafeStr(r.city),
      SafeStr(r.country), SafeStr(r.continent), r.latitude, r.longitude, SafeStr(r.timezone))
  }

  /** `insert_airport`: country and continent without a default, unwrapped to their
      `name` when they are dicts; `safe_str` around every column but the
      coordinates; a `location` that is not a dict raises. */
  function AirportRecordOf(airport: seq<Member>): (r: Result<Etl.AirportRecord, Etl.PayloadError>)
    ensures r.Ok? <==> GetOr(airport, "location", JObj([])).JObj?
    ensures r.Ok? ==>
      r.value.name == SafeStr(if Truthy(Get(airport, "fullName")) then Get(airport, "fullName") else Get(airport, "shortName"))
    ensures r.Ok? ==>
      && (Lookup(airport, "country").None? ==> r.value.country == JNull)
      && (Lookup(airport, "country").Some? && Lookup(airport, "country").value.JObj? ==>
            r.value.country == SafeStr(Get(Lookup(airport, "country").value.members, "name")))
      && (Lookup(airport, "country").Some? && !Lookup(airport, "country").value.JObj? ==>
            r.value.country == SafeStr(Lookup(airport, "country").value))
    ensures r.Ok? ==>
      && (Lookup(airport, "continent").None? ==> r.value.continent == JNull)
      && (Lookup(airport, "continent").Some? && Lookup(airport, "continent").value.JObj? ==>
            r.value.continent == SafeStr(Get(Lookup(airport, "continent").value.members, "name")))
      && (Lookup(airport, "continent").Some? && !Lookup(airport, "continent").value.JObj? ==>
            r.value.continent == SafeStr(Lookup(airport, "continent").value))
    ensures r.Ok? ==>
      && !IsContainer(r.value.icaoCode) && !IsContainer(r.value.iataCode) && !IsContainer(r.value.name)
      && !IsContainer(r.value.city) && !IsContainer(r.value.country) && !IsContainer(r.value.continent)
      && !IsContainer(r.value.timezone)
  {
    var country := Etl.UnwrapName(Get(airport, "country"));
    var continent := Etl.UnwrapName(Get(airport, "continent"));
    var location := GetOr(airport, "location", JObj([]));
    if !location.JObj? then Err(Etl.AttributeError)
    else
      Ok(Etl.AirportRecord(
        SafeStr(Get(airport, "icao")),
        SafeStr(Get(airport, "iata")),
        SafeStr(Or(Get(airport, "fullName"), Get(airport, "shortName"))),
        SafeStr(Get(airport, "municipalityName")),
        SafeStr(country),
        SafeStr(continent),
        Get(location.members, "lat"),
        Get(location.members, "lon"),
        SafeStr(Get(airport, "timeZone"))))
  }

  /** This script's airport row is etl.py's with `safe_str` applied to the text
      columns: the missing country that etl.py defaults to `{}` and unwraps gives
      `None` here as there. */
  lemma AirportRecordIsSafeEtlRecord(airport: seq<Member>)
    ensures match Etl.AirportRecordOf(airport)
      case Err(e) => AirportRecordOf(airport) == Err(e)
      case Ok(rec) => AirportRecordOf(airport) == Ok(SafeTexts(rec))
  {
    if Lookup(airport, "country").None? {
      assert Etl.UnwrapName(JObj([])) == JNull;
    }
    if Lookup(airport, "continent").None? {
      assert Etl.UnwrapName(JObj([])) == JNull;
    }
  }
}
