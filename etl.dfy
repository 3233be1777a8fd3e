/** etl.py: the day's request windows shifted to UTC, the fetch loop with one
    shared `seen` set, the normaliser that feeds the aircraft registry, and the
    airport and aircraft rows prepared for insertion. */
module Etl {
  import opened Wrappers
  import opened Calendar
  import opened Payloads
  import opened Dedup
  import opened PyJson

  /** Asia/Kolkata is UTC+05:30 all year. */
  const IstOffset := 330

  // ---------------------------------------------------------------------------
  // Request windows

  /** `local.astimezone(UTC)`: `None` is the OverflowError before 0001-01-01. */
  function ToUtc(local: DateTime): (r: Option<DateTime>)
    requires ValidDateTime(local)
    ensures r.Some? <==> Instant(local) >= IstOffset
    ensures r.Some? ==> ValidDateTime(r.value) && Instant(r.value) == Instant(local) - IstOffset
  {
    DayNumberBounds(local.date);
    LastDateNumber();
    AddMinutes(local, -IstOffset)
  }

  /** The local day D is asked for as [D 00:00, D 12:00] and [D 12:01, D 23:59],
      each converted to UTC. `localize` overflows on 0001-01-01 and 9999-12-31;
      every other day converts. */
  function UtcWindows(d: Date): (r: Option<seq<Window>>)
    requires ValidDate(d)
    ensures r.None? <==> d == FirstDate || d == LastDate
    ensures r.Some? ==>
      var ws := r.value;
      var midnight := Instant(DateTime(d, 0));
      && |ws| == 2 && ValidWindow(ws[0]) && ValidWindow(ws[1])
      && Instant(ws[0].start) == midnight - IstOffset
      && Instant(ws[0].end) == midnight + 720 - IstOffset
      && Instant(ws[1].start) == midnight + 721 - IstOffset
      && Instant(ws[1].end) == midnight + 1439 - IstOffset
  {
    DayNumberBounds(d);
    if AtCalendarEnd(d) then None
    else
      PrevDayStep(d);
      DayNumberBounds(PrevDay(d));
      var start := ToUtc(DateTime(d, 0)).value;
      var mid := ToUtc(DateTime(d, 720)).value;
      var afterMid := ToUtc(DateTime(d, 721)).value;
      var end := ToUtc(DateTime(d, 1439)).value;
      Some([Window(start, mid), Window(afterMid, end)])
  }

  /** The two windows are ordered and disjoint: the first ends one minute before the
      second starts; neither spans more than twelve hours. */
  lemma UtcWindowsOrdered(d: Date)
    requires ValidDate(d) && UtcWindows(d).Some?
    ensures var ws := UtcWindows(d).value;
      && Instant(ws[0].start) < Instant(ws[0].end)
      && Instant(ws[0].end) + 1 == Instant(ws[1].start)
      && Instant(ws[1].start) < Instant(ws[1].end)
      && Instant(ws[0].end) - Instant(ws[0].start) <= 720
      && Instant(ws[1].end) - Instant(ws[1].start) <= 720
  {
  }

  /** Converted back to local time, the windows are exactly D 00:00 to D 12:00 and
      D 12:01 to D 23:59. */
  lemma UtcWindowsBackToLocal(d: Date)
    requires ValidDate(d) && UtcWindows(d).Some?
    ensures var ws := UtcWindows(d).value;
      && AddMinutes(ws[0].start, IstOffset) == Some(DateTime(d, 0))
      && AddMinutes(ws[0].end, IstOffset) == Some(DateTime(d, 720))
      && AddMinutes(ws[1].start, IstOffset) == Some(DateTime(d, 721))
      && AddMinutes(ws[1].end, IstOffset) == Some(DateTime(d, 1439))
  {
    var ws := UtcWindows(d).value;
    DayNumberBounds(d);
    LastDateNumber();
    InstantInjective(AddMinutes(ws[0].start, IstOffset).value, DateTime(d, 0));
    InstantInjective(AddMinutes(ws[0].end, IstOffset).value, DateTime(d, 720));
    InstantInjective(AddMinutes(ws[1].start, IstOffset).value, DateTime(d, 721));
    InstantInjective(AddMinutes(ws[1].end, IstOffset).value, DateTime(d, 1439));
  }

  /** For 2024-12-14 the URLs carry 2024-12-13T18:30 to 2024-12-14T06:30 and
      2024-12-14T06:31 to 2024-12-14T18:29. */
  lemma UtcWindowsExample()
    ensures var ws := UtcWindows(Date(2024, 12, 14));
      && ws.Some?
      && FormatDateTime(ws.value[0].start) == "2024-12-13T18:30"
      && FormatDateTime(ws.value[0].end) == "2024-12-14T06:30"
      && FormatDateTime(ws.value[1].start) == "2024-12-14T06:31"
      && FormatDateTime(ws.value[1].end) == "2024-12-14T18:29"
  {
    var d, before := Date(2024, 12, 14), Date(2024, 12, 13);
    ExampleShifts();
    FirstStartText();
    FirstEndText();
    SecondStartText();
    SecondEndText();
    assert UtcWindows(d).value[0].start == DateTime(before, 1110);
    assert UtcWindows(d).value[0].end == DateTime(d, 390);
    assert UtcWindows(d).value[1].start == DateTime(d, 391);
    assert UtcWindows(d).value[1].end == DateTime(d, 1109);
  }

  lemma ExampleShifts()
    ensures ToUtc(DateTime(Date(2024, 12, 14), 0)) == Some(DateTime(Date(2024, 12, 13), 1110))
    ensures ToUtc(DateTime(Date(2024, 12, 14), 720)) == Some(DateTime(Date(2024, 12, 14), 390))
    ensures ToUtc(DateTime(Date(2024, 12, 14), 721)) == Some(DateTime(Date(2024, 12, 14), 391))
    ensures ToUtc(DateTime(Date(2024, 12, 14), 1439)) == Some(DateTime(Date(2024, 12, 14), 1109))
  {
    assert PrevDay(Date(2024, 12, 14)) == Date(2024, 12, 13);
  }

  lemma FirstStartText()
    ensures FormatDateTime(DateTime(Date(2024, 12, 13), 1110)) == "2024-12-13T18:30"
  {
    ExampleDays();
    assert Padded(18, 2) == "18";
    assert Padded(30, 2) == "30";
    FormatDateTimeParts(Date(2024, 12, 13), 1110, "2024-12-13", "18", "30");
  }

  lemma FirstEndText()
    ensures FormatDateTime(DateTime(Date(2024, 12, 14), 390)) == "2024-12-14T06:30"
  {
    ExampleDays();
    assert Padded(6, 2) == "06";
    assert Padded(30, 2) == "30";
    FormatDateTimeParts(Date(2024, 12, 14), 390, "2024-12-14", "06", "30");
  }

  lemma SecondStartText()
    ensures FormatDateTime(DateTime(Date(2024, 12, 14), 391)) == "2024-12-14T06:31"
  {
    ExampleDays();
    assert Padded(6, 2) == "06";
    assert Padded(31, 2) == "31";
    FormatDateTimeParts(Date(2024, 12, 14), 391, "2024-12-14", "06", "31");
  }

  lemma SecondEndText()
    ensures FormatDateTime(DateTime(Date(2024, 12, 14), 1109)) == "2024-12-14T18:29"
  {
    ExampleDays();
    assert Padded(18, 2) == "18";
    assert Padded(29, 2) == "29";
    FormatDateTimeParts(Date(2024, 12, 14), 1109, "2024-12-14", "18", "29");
  }

  lemma ExampleDays()
    ensures FormatDate(Date(2024, 12, 13)) == "2024-12-13"
    ensures FormatDate(Date(2024, 12, 14)) == "2024-12-14"
  {
    assert Padded(2024, 4) == "2024";
  }

  // ---------------------------------------------------------------------------
  // Fetching: one shared `seen` set with keys `{number}_DEP` and `{number}_ARR`

  /** The `seen` key of a flight: its number as an f-string renders it, then the
      direction suffix. */
  function Key(dir: Direction, f: Flight): string {
    Render(f.number) + (if dir == Dep then "_DEP" else "_ARR")
  }

  /** The key of each flight, in order. */
  function Keys(fs: seq<Flight>, dir: Direction): (ks: seq<string>)
    ensures |ks| == |fs| && forall i :: 0 <= i < |fs| ==> ks[i] == Key(dir, fs[i])
  {
    seq(|fs|, i requires 0 <= i < |fs| => Key(dir, fs[i]))
  }

  /** A departure key never equals an arrival key, so a departure never suppresses
      an arrival in the shared set. */
  lemma DepKeyIsNotArrKey(f: Flight, g: Flight)
    ensures Key(Dep, f) != Key(Arr, g)
  {
    var a, b := Key(Dep, f), Key(Arr, g);
    assert a[|a| - 1] == 'P';
    assert b[|b| - 1] == 'R';
  }

  /** Two flights of one direction share a key exactly when their numbers render alike. */
  lemma SameKeySameNumber(dir: Direction, f: Flight, g: Flight)
    ensures Key(dir, f) == Key(dir, g) <==> Render(f.number) == Render(g.number)
  {
    var a, b := Render(f.number), Render(g.number);
    assert Key(dir, f)[..|a|] == a && Key(dir, g)[..|b|] == b;
  }

  /** A window answered with 400 is skipped; any other error status raises. */
  predicate Fatal(r: Response) {
    IsHttpError(r.status) && r.status != 400
  }

  /** The status of the first answer that raises, if any. */
  function FirstFatal(rs: seq<Response>): (r: Option<int>)
    ensures r.None? <==> forall i :: 0 <= i < |rs| ==> !Fatal(rs[i])
    ensures r.Some? ==> exists i :: 0 <= i < |rs| && Fatal(rs[i]) && rs[i].status == r.value
  {
    if rs == [] then None
    else
      var n := |rs| - 1;
      var r := FirstFatal(rs[..n]);
      assert forall i :: 0 <= i < n ==> rs[..n][i] == rs[i];
      if r.Some? then r
      else if Fatal(rs[n]) then Some(rs[n].status)
      else None
  }

  /** Departures of the windows not skipped, in window order. */
  function Departures(rs: seq<Response>): seq<Flight> {
    if rs == [] then []
    else
      var n := |rs| - 1;
      Departures(rs[..n]) + (if rs[n].status == 400 then [] else rs[n].departures)
  }

  function Arrivals(rs: seq<Response>): seq<Flight> {
    if rs == [] then []
    else
      var n := |rs| - 1;
      Arrivals(rs[..n]) + (if rs[n].status == 400 then [] else rs[n].arrivals)
  }

  /** What the window loop means: the first error status, or per direction the first
      flight of each number over all the answers that were not skipped. */
  function Collect(rs: seq<Response>): Result<FlightLists, FetchError> {
    match FirstFatal(rs)
    case Some(status) => Err(HttpError(status))
    case None =>
      var deps, arrs := Departures(rs), Arrivals(rs);
      Ok(FlightLists(KeepFirst(deps, Keys(deps, Dep), {}), KeepFirst(arrs, Keys(arrs, Arr), {})))
  }

  /** What `fetch_flights` returns for an airport and a `%Y-%m-%d` date. */
  function FetchSpec(airport: string, dateText: string, respond: Request -> Response): Result<FlightLists, FetchError> {
    match ParseDate(dateText)
    case None => Err(InvalidDate)
    case Some(d) =>
      match UtcWindows(d)
      case None => Err(DateOverflow)
      case Some(ws) => Collect(Answers(airport, ws, respond))
  }

  /** The variables of the window loop. */
  datatype Progress = Progress(departures: seq<Flight>, arrivals: seq<Flight>, seen: set<string>)

  /** One pass of the window loop on an answer: skip a 400, raise on another error,
      otherwise filter the departures and then the arrivals through `seen`. */
  function Step(p: Progress, r: Response): Result<Progress, FetchError> {
    if r.status == 400 then Ok(p)
    else if IsHttpError(r.status) then Err(HttpError(r.status))
    else
      var dk, ak := Keys(r.departures, Dep), Keys(r.arrivals, Arr);
      var seen := p.seen + Elems(dk);
      Ok(Progress(p.departures + KeepFirst(r.departures, dk, p.seen),
                  p.arrivals + KeepFirst(r.arrivals, ak, seen),
                  seen + Elems(ak)))
  }

  /** The window loop over the answers, step by step; the first error ends it. */
  function Loop(rs: seq<Response>): Result<Progress, FetchError> {
    if rs == [] then Ok(Progress([], [], {}))
    else
      var n := |rs| - 1;
      match Loop(rs[..n])
      case Err(e) => Err(e)
      case Ok(p) => Step(p, rs[n])
  }

  /** Keys of one direction never occur among the keys of the other. */
  lemma DirectionKeysDisjoint(deps: seq<Flight>, arrs: seq<Flight>)
    ensures forall j :: 0 <= j < |deps| ==> Keys(deps, Dep)[j] !in Elems(Keys(arrs, Arr))
    ensures forall j :: 0 <= j < |arrs| ==> Keys(arrs, Arr)[j] !in Elems(Keys(deps, Dep))
  {
    forall j, p | 0 <= j < |deps| && 0 <= p < |arrs| ensures Key(Dep, deps[j]) != Key(Arr, arrs[p]) {
      DepKeyIsNotArrKey(deps[j], arrs[p]);
    }
    forall j, p | 0 <= j < |arrs| && 0 <= p < |deps| ensures Key(Arr, arrs[j]) != Key(Dep, deps[p]) {
      DepKeyIsNotArrKey(deps[p], arrs[j]);
    }
  }

  lemma KeysAppend(fs: seq<Flight>, gs: seq<Flight>, dir: Direction)
    ensures Keys(fs + gs, dir) == Keys(fs, dir) + Keys(gs, dir)
  {
  }

  /** Filtering one direction's new flights through the shared `seen` set is filtering
      them through that direction's keys alone. */
  lemma FilterOneDirection(done: seq<Flight>, cur: seq<Flight>, dir: Direction, other: seq<Flight>, otherDir: Direction)
    requires dir != otherDir
    ensures var all := done + cur;
      KeepFirst(done, Keys(done, dir), {}) + KeepFirst(cur, Keys(cur, dir), Elems(Keys(done, dir)) + Elems(Keys(other, otherDir)))
      == KeepFirst(all, Keys(all, dir), {})
  {
    var kd, kc := Keys(done, dir), Keys(cur, dir);
    if dir == Dep {
      DirectionKeysDisjoint(cur, other);
    } else {
      DirectionKeysDisjoint(other, cur);
    }
    KeepFirstIgnoresDisjoint(cur, kc, Elems(kd), Elems(Keys(other, otherDir)));
    KeysAppend(done, cur, dir);
    KeepFirstAppend(done, kd, cur, kc, {});
    assert {} + Elems(kd) == Elems(kd);
  }

  /** What the loop variables hold after the answers `rs`: per direction the first
      flight of each number, and in `seen` the keys of every flight answered. */
  ghost predicate Holds(rs: seq<Response>, p: Progress) {
    var deps, arrs := Departures(rs), Arrivals(rs);
    && p.departures == KeepFirst(deps, Keys(deps, Dep), {})
    && p.arrivals == KeepFirst(arrs, Keys(arrs, Arr), {})
    && p.seen == Elems(Keys(deps, Dep)) + Elems(Keys(arrs, Arr))
  }

  /** A step on an answer that is neither skipped nor an error keeps `Holds`. */
  lemma StepKeeps(rs: seq<Response>, p: Progress, r: Response)
    requires Holds(rs, p) && r.status != 400 && !IsHttpError(r.status)
    ensures Holds(rs + [r], Step(p, r).value)
  {
    var deps, arrs := Departures(rs), Arrivals(rs);
    var deps1, arrs1 := deps + r.departures, arrs + r.arrivals;
    var q := Step(p, r).value;
    var dk, ak := Keys(r.departures, Dep), Keys(r.arrivals, Arr);
    assert Departures(rs + [r]) == deps1 && Arrivals(rs + [r]) == arrs1 by {
      assert (rs + [r])[..|rs|] == rs;
    }
    assert q.departures == KeepFirst(deps1, Keys(deps1, Dep), {}) by {
      assert q.departures == p.departures + KeepFirst(r.departures, dk, p.seen);
      FilterOneDirection(deps, r.departures, Dep, arrs, Arr);
    }
    assert q.arrivals == KeepFirst(arrs1, Keys(arrs1, Arr), {}) by {
      KeysAppend(deps, r.departures, Dep);
      ElemsAppend(Keys(deps, Dep), dk);
      assert p.seen + Elems(dk) == Elems(Keys(arrs, Arr)) + Elems(Keys(deps1, Dep));
      assert q.arrivals == p.arrivals + KeepFirst(r.arrivals, ak, Elems(Keys(arrs, Arr)) + Elems(Keys(deps1, Dep)));
      FilterOneDirection(arrs, r.arrivals, Arr, deps1, Dep);
    }
    assert q.seen == Elems(Keys(deps1, Dep)) + Elems(Keys(arrs1, Arr)) by {
      KeysAppend(deps, r.departures, Dep);
      ElemsAppend(Keys(deps, Dep), dk);
      KeysAppend(arrs, r.arrivals, Arr);
      ElemsAppend(Keys(arrs, Arr), ak);
    }
  }

  /** A skipped answer keeps `Holds`. */
  lemma SkipKeeps(rs: seq<Response>, p: Progress, r: Response)
    requires Holds(rs, p) && r.status == 400
    ensures Holds(rs + [r], p)
  {
    assert (rs + [r])[..|rs|] == rs;
    assert Departures(rs + [r]) == Departures(rs);
    assert Arrivals(rs + [r]) == Arrivals(rs);
  }

  /** The loop fails exactly when some answer is an error other than 400, and then
      with the first such status. */
  lemma {:induction false} LoopFails(rs: seq<Response>)
    ensures Loop(rs).Err? <==> FirstFatal(rs).Some?
    ensures Loop(rs).Err? ==> Loop(rs).error == HttpError(FirstFatal(rs).value)
  {
    if rs != [] {
      LoopFails(rs[..|rs| - 1]);
    }
  }

  /** When the loop succeeds, its variables hold what `Collect` describes. */
  lemma {:induction false} LoopSucceeds(rs: seq<Response>)
    ensures Loop(rs).Ok? ==> Holds(rs, Loop(rs).value)
  {
    if rs != [] {
      var n := |rs| - 1;
      LoopSucceeds(rs[..n]);
      assert rs == rs[..n] + [rs[n]];
      if Loop(rs[..n]).Ok? {
        if rs[n].status == 400 {
          SkipKeeps(rs[..n], Loop(rs[..n]).value, rs[n]);
        } else if !IsHttpError(rs[n].status) {
          StepKeeps(rs[..n], Loop(rs[..n]).value, rs[n]);
        }
      }
    }
  }

  /** The loop computes `Collect`. */
  lemma LoopMeaning(rs: seq<Response>)
    ensures match Loop(rs)
      case Err(e) => Collect(rs) == Err(e)
      case Ok(p) => Collect(rs) == Ok(FlightLists(p.departures, p.arrivals))
  {
    LoopFails(rs);
    LoopSucceeds(rs);
  }

  /** The window loop of `fetch_flights` (HTTP abstracted as `respond`): requests each
      window in order, skips a 400 answer, raises on any other error status, and
      keeps departures then arrivals through one `seen` set. */
  method FetchWindows(airport: string, ws: seq<Window>, respond: Request -> Response)
    returns (r: Result<FlightLists, FetchError>)
    requires forall i :: 0 <= i < |ws| ==> ValidWindow(ws[i])
    ensures r == Collect(Answers(airport, ws, respond))
  {
    ghost var rs := Answers(airport, ws, respond);
    var departures: seq<Flight> := [];
    var arrivals: seq<Flight> := [];
    var seen: set<string> := {};
    for i := 0 to |ws|
      invariant Loop(rs[..i]) == Ok(Progress(departures, arrivals, seen))
    {
      var response := respond(RequestFor(airport, ws[i]));
      assert rs[..i + 1][..i] == rs[..i];
      if response.status == 400 {
        continue;
      }
      if IsHttpError(response.status) {
        LoopStopsAtError(rs, i + 1);
        LoopMeaning(rs);
        return Err(HttpError(response.status));
      }
      departures, seen := KeepUnseen(response.departures, Keys(response.departures, Dep), departures, seen);
      arrivals, seen := KeepUnseen(response.arrivals, Keys(response.arrivals, Arr), arrivals, seen);
    }
    assert rs[..|ws|] == rs;
    LoopMeaning(rs);
    return Ok(FlightLists(departures, arrivals));
  }

  /** Once the loop has failed, later answers change nothing. */
  lemma {:induction false} LoopStopsAtError(rs: seq<Response>, k: nat)
    requires k <= |rs| && Loop(rs[..k]).Err?
    ensures Loop(rs) == Loop(rs[..k])
    decreases |rs| - k
  {
    if k < |rs| {
      assert rs[..k + 1][..k] == rs[..k];
      LoopStopsAtError(rs, k + 1);
    } else {
      assert rs[..k] == rs;
    }
  }

  /** `fetch_flights`: parses the date, builds the two UTC windows, runs the window loop. */
  method FetchFlights(airport: string, dateText: string, respond: Request -> Response)
    returns (r: Result<FlightLists, FetchError>)
    ensures r == FetchSpec(airport, dateText, respond)
  {
    var date := ParseDate(dateText);
    if date.None? {
      return Err(InvalidDate);
    }
    var windows := UtcWindows(date.value);
    if windows.None? {
      return Err(DateOverflow);
    }
    r := FetchWindows(airport, windows.value, respond);
  }

  /** On 0001-01-01 and 9999-12-31 `localize` raises before any request is made. */
  lemma FetchOverflowsAtCalendarEnds(airport: string, d: Date, respond: Request -> Response)
    requires ValidDate(d) && AtCalendarEnd(d)
    ensures FetchSpec(airport, FormatDate(d), respond) == Err(DateOverflow)
  {
    ParseFormatDate(d);
  }

  /** The departures kept (a subsequence, by `KeepFirstSpec`): one per rendered
      flight number, and no number is lost. */
  lemma DeparturesFirstPerNumber(all: seq<Flight>)
    ensures var kept := KeepFirst(all, Keys(all, Dep), {});
      && (forall j1, j2 :: 0 <= j1 < j2 < |kept| ==> Render(kept[j1].number) != Render(kept[j2].number))
      && (forall i :: 0 <= i < |all| ==> exists j :: 0 <= j < |kept| && Render(kept[j].number) == Render(all[i].number))
  {
    var keys := Keys(all, Dep);
    var kept := KeepFirst(all, keys, {});
    var idx := KeptIndices(keys, {});
    KeepFirstSelects(all, keys, {});
    assert forall j1, j2 :: 0 <= j1 < j2 < |kept| ==> Render(kept[j1].number) != Render(kept[j2].number) by {
      KeptKeysUnique(keys, {});
      forall j1, j2 | 0 <= j1 < j2 < |kept|
        ensures Render(kept[j1].number) != Render(kept[j2].number)
      {
        SameKeySameNumber(Dep, all[idx[j1]], all[idx[j2]]);
      }
    }
    assert forall i :: 0 <= i < |all| ==> exists j :: 0 <= j < |kept| && Render(kept[j].number) == Render(all[i].number) by {
      forall i | 0 <= i < |all|
        ensures exists j :: 0 <= j < |kept| && Render(kept[j].number) == Render(all[i].number)
      {
        KeptKeysCover(keys, {}, i);
        var j :| 0 <= j < |idx| && keys[idx[j]] == keys[i];
        SameKeySameNumber(Dep, all[idx[j]], all[i]);
      }
    }
  }

  /** The same for arrivals: one per rendered flight number, none lost. */
  lemma ArrivalsFirstPerNumber(all: seq<Flight>)
    ensures var kept := KeepFirst(all, Keys(all, Arr), {});
      && (forall j1, j2 :: 0 <= j1 < j2 < |kept| ==> Render(kept[j1].number) != Render(kept[j2].number))
      && (forall i :: 0 <= i < |all| ==> exists j :: 0 <= j < |kept| && Render(kept[j].number) == Render(all[i].number))
  {
    var keys := Keys(all, Arr);
    var kept := KeepFirst(all, keys, {});
    var idx := KeptIndices(keys, {});
    KeepFirstSelects(all, keys, {});
    assert forall j1, j2 :: 0 <= j1 < j2 < |kept| ==> Render(kept[j1].number) != Render(kept[j2].number) by {
      KeptKeysUnique(keys, {});
      forall j1, j2 | 0 <= j1 < j2 < |kept|
        ensures Render(kept[j1].number) != Render(kept[j2].number)
      {
        SameKeySameNumber(Arr, all[idx[j1]], all[idx[j2]]);
      }
    }
    assert forall i :: 0 <= i < |all| ==> exists j :: 0 <= j < |kept| && Render(kept[j].number) == Render(all[i].number) by {
      forall i | 0 <= i < |all|
        ensures exists j :: 0 <= j < |kept| && Render(kept[j].number) == Render(all[i].number)
      {
        KeptKeysCover(keys, {}, i);
        var j :| 0 <= j < |idx| && keys[idx[j]] == keys[i];
        SameKeySameNumber(Arr, all[idx[j]], all[i]);
      }
    }
  }

  /** A window answered with 400 contributes nothing: the result is as if it had
      not been asked. */
  lemma SkippedWindowIgnored(rs: seq<Response>, skipped: Response)
    requires skipped.status == 400
    ensures Collect(rs + [skipped]) == Collect(rs)
  {
    assert (rs + [skipped])[..|rs|] == rs;
    assert FirstFatal(rs + [skipped]) == FirstFatal(rs);
    assert Departures(rs + [skipped]) == Departures(rs);
    assert Arrivals(rs + [skipped]) == Arrivals(rs);
  }

  /** An error decides the result whatever the later windows answer. */
  lemma ErrorIsFinal(rs: seq<Response>, more: seq<Response>)
    requires FirstFatal(rs).Some?
    ensures Collect(rs + more) == Collect(rs)
  {
    FirstFatalStays(rs, more);
  }

  /** Once some answer is fatal, one more answer does not change the first one. */
  lemma FirstFatalSnoc(rs: seq<Response>)
    requires rs != [] && FirstFatal(rs[..|rs| - 1]).Some?
    ensures FirstFatal(rs) == FirstFatal(rs[..|rs| - 1])
  {
  }

  lemma {:induction false} FirstFatalStays(rs: seq<Response>, more: seq<Response>)
    requires FirstFatal(rs).Some?
    ensures FirstFatal(rs + more) == FirstFatal(rs)
    decreases |more|
  {
    if more != [] {
      var n := |more| - 1;
      FirstFatalStays(rs, more[..n]);
      var whole := rs + more;
      assert whole[..|whole| - 1] == rs + more[..n];
      FirstFatalSnoc(whole);
    } else {
      assert rs + more == rs;
    }
  }

  // ---------------------------------------------------------------------------
  // Normalising: `flights_to_dataframe`

  /** A departure of the queried airport: origin is that airport, the key is
      `{number}_{scheduled departure}`, actual times are the revised ones. */
  function DepartureRow(f: Flight, airport: string): (row: FlightRow)
    ensures row.flightId == Render(f.number) + "_" + Render(f.departure.scheduledUtc)
    ensures row.originIata == Some(airport) && row.destinationIata == f.arrival.airportIata
    ensures row.flightNumber == f.number && row.aircraftRegistration == f.aircraftReg
    ensures row.status == f.status && row.airlineCode == f.airlineIata
    ensures row.scheduledDeparture == f.departure.scheduledUtc && row.actualDeparture == f.departure.revisedUtc
    ensures row.scheduledArrival == f.arrival.scheduledUtc && row.actualArrival == f.arrival.revisedUtc
  {
    FlightRow(
      Render(f.number) + "_" + Render(f.departure.scheduledUtc),
      f.number, f.aircraftReg, Some(airport), f.arrival.airportIata,
      f.departure.scheduledUtc, f.departure.revisedUtc,
      f.arrival.scheduledUtc, f.arrival.revisedUtc,
      f.status, f.airlineIata)
  }

  /** An arrival at the queried airport: destination is that airport, the key is
      `{number}_{scheduled arrival}`. */
  function ArrivalRow(f: Flight, airport: string): (row: FlightRow)
    ensures row.flightId == Render(f.number) + "_" + Render(f.arrival.scheduledUtc)
    ensures row.originIata == f.departure.airportIata && row.destinationIata == Some(airport)
    ensures row.flightNumber == f.number && row.aircraftRegistration == f.aircraftReg
    ensures row.status == f.status && row.airlineCode == f.airlineIata
    ensures row.scheduledDeparture == f.departure.scheduledUtc && row.actualDeparture == f.departure.revisedUtc
    ensures row.scheduledArrival == f.arrival.scheduledUtc && row.actualArrival == f.arrival.revisedUtc
  {
    FlightRow(
      Render(f.number) + "_" + Render(f.arrival.scheduledUtc),
      f.number, f.aircraftReg, f.departure.airportIata, Some(airport),
      f.departure.scheduledUtc, f.departure.revisedUtc,
      f.arrival.scheduledUtc, f.arrival.revisedUtc,
      f.status, f.airlineIata)
  }

  function DepartureRows(fs: seq<Flight>, airport: string): (rows: seq<FlightRow>)
    ensures |rows| == |fs|
    ensures forall i :: 0 <= i < |fs| ==> rows[i] == DepartureRow(fs[i], airport)
  {
    if fs == [] then []
    else DepartureRows(fs[..|fs| - 1], airport) + [DepartureRow(fs[|fs| - 1], airport)]
  }

  function ArrivalRows(fs: seq<Flight>, airport: string): (rows: seq<FlightRow>)
    ensures |rows| == |fs|
    ensures forall i :: 0 <= i < |fs| ==> rows[i] == ArrivalRow(fs[i], airport)
  {
    if fs == [] then []
    else ArrivalRows(fs[..|fs| - 1], airport) + [ArrivalRow(fs[|fs| - 1], airport)]
  }

  /** All rows before deduplication: departures first, then arrivals. */
  function Rows(flights: FlightLists, airport: string): seq<FlightRow> {
    DepartureRows(flights.departures, airport) + ArrivalRows(flights.arrivals, airport)
  }

  /** `pd.DataFrame(rows).drop_duplicates(subset=["flight_id"])`; a frame built
      from no rows stays empty. */
  function Frame(flights: FlightLists, airport: string): seq<FlightRow> {
    var rows := Rows(flights, airport);
    KeepFirst(rows, FlightIds(rows), {})
  }

  /** The aircraft registrations of the flights (`None` for a flight without one). */
  function Registrations(fs: seq<Flight>): set<Option<string>> {
    if fs == [] then {} else Registrations(fs[..|fs| - 1]) + {fs[|fs| - 1].aircraftReg}
  }

  /** A registration is recorded exactly when some flight carries it. */
  lemma {:induction false} RegistrationsSpec(fs: seq<Flight>, reg: Option<string>)
    ensures reg in Registrations(fs) <==> exists i :: 0 <= i < |fs| && fs[i].aircraftReg == reg
  {
    if fs != [] {
      var n := |fs| - 1;
      RegistrationsSpec(fs[..n], reg);
      if reg in Registrations(fs[..n]) {
        var i :| 0 <= i < n && fs[..n][i].aircraftReg == reg;
        assert fs[i].aircraftReg == reg;
      }
      if i :| 0 <= i < |fs| && fs[i].aircraftReg == reg {
        if i < n {
          assert fs[..n][i] == fs[i];
        }
      }
    }
  }

  lemma DepartureRowsSnoc(fs: seq<Flight>, i: nat, airport: string)
    requires i < |fs|
    ensures DepartureRows(fs[..i + 1], airport) == DepartureRows(fs[..i], airport) + [DepartureRow(fs[i], airport)]
  {
    assert fs[..i + 1][..i] == fs[..i];
  }

  lemma ArrivalRowsSnoc(fs: seq<Flight>, i: nat, airport: string)
    requires i < |fs|
    ensures ArrivalRows(fs[..i + 1], airport) == ArrivalRows(fs[..i], airport) + [ArrivalRow(fs[i], airport)]
  {
    assert fs[..i + 1][..i] == fs[..i];
  }

  lemma RegistrationsSnoc(fs: seq<Flight>, i: nat)
    requires i < |fs|
    ensures Registrations(fs[..i + 1]) == Registrations(fs[..i]) + {fs[i].aircraftReg}
  {
    assert fs[..i + 1][..i] == fs[..i];
  }

  /** The module-level `AIRCRAFT_REGISTRATIONS` set: a seed of known tail numbers
      (abstracted as the constructor's argument) that normalising grows. */
  class AircraftRegistry {
    var registrations: set<Option<string>>

    constructor (seed: set<Option<string>>)
      ensures registrations == seed
    {
      registrations := seed;
    }

    /** `AIRCRAFT_REGISTRATIONS.add(reg)`; a missing registration adds `None`. */
    method Add(reg: Option<string>)
      modifies this
      ensures registrations == old(registrations) + {reg}
    {
      registrations := registrations + {reg};
    }
  }

  /** The departures loop of `flights_to_dataframe`: each departure's registration
      goes into the registry and its row is appended. */
  method AppendDepartureRows(deps: seq<Flight>, airport: string, registry: AircraftRegistry)
    returns (rows: seq<FlightRow>)
    modifies registry
    ensures rows == DepartureRows(deps, airport)
    ensures registry.registrations == old(registry.registrations) + Registrations(deps)
  {
    rows := [];
    for i := 0 to |deps|
      invariant rows == DepartureRows(deps[..i], airport)
      invariant registry.registrations == old(registry.registrations) + Registrations(deps[..i])
    {
      DepartureRowsSnoc(deps, i, airport);
      RegistrationsSnoc(deps, i);
      registry.Add(deps[i].aircraftReg);
      rows := rows + [DepartureRow(deps[i], airport)];
    }
    assert deps[..|deps|] == deps;
  }

  /** The arrivals loop of `flights_to_dataframe`: each arrival's registration goes
      into the registry and its row is appended after the rows so far. */
  method AppendArrivalRows(arrs: seq<Flight>, airport: string, registry: AircraftRegistry, rows0: seq<FlightRow>)
    returns (rows: seq<FlightRow>)
    modifies registry
    ensures rows == rows0 + ArrivalRows(arrs, airport)
    ensures registry.registrations == old(registry.registrations) + Registrations(arrs)
  {
    rows := rows0;
    for i := 0 to |arrs|
      invariant rows == rows0 + ArrivalRows(arrs[..i], airport)
      invariant registry.registrations == old(registry.registrations) + Registrations(arrs[..i])
    {
      ArrivalRowsSnoc(arrs, i, airport);
      RegistrationsSnoc(arrs, i);
      registry.Add(arrs[i].aircraftReg);
      rows := rows + [ArrivalRow(arrs[i], airport)];
    }
    assert arrs[..|arrs|] == arrs;
  }

  /** `flights_to_dataframe`: one row per departure then per arrival, every
      aircraft registration added to the registry, then keep-first on `flight_id`. */
  method FlightsToDataFrame(flights: FlightLists, airport: string, registry: AircraftRegistry)
    returns (frame: seq<FlightRow>)
    modifies registry
    ensures registry.registrations
         == old(registry.registrations) + Registrations(flights.departures) + Registrations(flights.arrivals)
    ensures frame == Frame(flights, airport)
  {
    var rows := AppendDepartureRows(flights.departures, airport, registry);
    rows := AppendArrivalRows(flights.arrivals, airport, registry, rows);
    frame := KeepFirst(rows, FlightIds(rows), {});
  }

  predicate Touches(row: FlightRow, airport: string) {
    row.originIata == Some(airport) || row.destinationIata == Some(airport)
  }

  lemma RowsTouchAirport(flights: FlightLists, airport: string)
    ensures forall k :: 0 <= k < |Rows(flights, airport)| ==> Touches(Rows(flights, airport)[k], airport)
  {
    var rows := Rows(flights, airport);
    var n := |flights.departures|;
    forall k | 0 <= k < |rows| ensures Touches(rows[k], airport) {
      if k < n {
        assert rows[k] == DepartureRow(flights.departures[k], airport);
      } else {
        assert rows[k] == ArrivalRow(flights.arrivals[k - n], airport);
      }
    }
  }

  /** Every row of the etl frame starts or ends at the queried airport. */
  lemma FrameTouchesAirport(flights: FlightLists, airport: string)
    ensures forall j :: 0 <= j < |Frame(flights, airport)| ==> Touches(Frame(flights, airport)[j], airport)
  {
    var rows := Rows(flights, airport);
    RowsTouchAirport(flights, airport);
    KeepFirstSelects(rows, FlightIds(rows), {});
  }

  /** The same leg seen as a departure at its origin and as an arrival at its
      destination gets two different keys whenever its scheduled departure and
      arrival times differ, so the two observations are not collapsed. */
  lemma LegKeysDiffer(f: Flight, origin: string, destination: string)
    requires Render(f.departure.scheduledUtc) != Render(f.arrival.scheduledUtc)
    ensures DepartureRow(f, origin).flightId != ArrivalRow(f, destination).flightId
  {
    var p := Render(f.number) + "_";
    var a, b := Render(f.departure.scheduledUtc), Render(f.arrival.scheduledUtc);
    assert (p + a)[|p|..] == a;
    assert (p + b)[|p|..] == b;
  }

  // ---------------------------------------------------------------------------
  // Rows prepared for insertion


  /** The nine values bound to `INSERT OR IGNORE INTO airport`. */
  datatype AirportRecord = AirportRecord(
    icaoCode: Json, iataCode: Json, name: Json, city: Json,
    country: Json, continent: Json, latitude: Json, longitude: Json, timezone: Json)

  /** Raised while building a row: `.get` called on a value that is not a dict. */
  datatype PayloadError = AttributeError

  /** A country or continent given as an object is replaced by its `name`. */
  function UnwrapName(v: Json): Json {
    if v.JObj? then Get(v.members, "name") else v
  }

  /** `insert_airport`'s values: the name falls back from `fullName` to `shortName`
      when falsy; country and continent default to `{}` and are unwrapped; a
      `location` that is not a dict raises. */
  function AirportRecordOf(airport: seq<Member>): (r: Result<AirportRecord, PayloadError>)
    ensures r.Ok? <==> GetOr(airport, "location", JObj([])).JObj?
    ensures r.Ok? ==>
      && r.value.icaoCode == Get(airport, "icao") && r.value.iataCode == Get(airport, "iata")
      && r.value.city == Get(airport, "municipalityName") && r.value.timezone == Get(airport, "timeZone")
      && r.value.name == (if Truthy(Get(airport, "fullName")) then Get(airport, "fullName") else Get(airport, "shortName"))
      && (Lookup(airport, "location").None? ==> r.value.latitude == JNull && r.value.longitude == JNull)
      && (Lookup(airport, "location").Some? ==>
            var location := Lookup(airport, "location").value.members;
            r.value.latitude == Get(location, "lat") && r.value.longitude == Get(location, "lon"))
    ensures r.Ok? ==>
      && (Lookup(airport, "country").None? ==> r.value.country == JNull)
      && (Lookup(airport, "country").Some? && Lookup(airport, "country").value.JObj? ==>
            r.value.country == Get(Lookup(airport, "country").value.members, "name"))
      && (Lookup(airport, "country").Some? && !Lookup(airport, "country").value.JObj? ==>
            r.value.country == Lookup(airport, "country").value)
    ensures r.Ok? ==>
      && (Lookup(airport, "continent").None? ==> r.value.continent == JNull)
      && (Lookup(airport, "continent").Some? && Lookup(airport, "continent").value.JObj? ==>
            r.value.continent == Get(Lookup(airport, "continent").value.members, "name"))
      && (Lookup(airport, "continent").Some? && !Lookup(airport, "continent").value.JObj? ==>
            r.value.continent == Lookup(airport, "continent").value)
  {
    var country := GetOr(airport, "country", JObj([]));
    var continent := GetOr(airport, "continent", JObj([]));
    var location := GetOr(airport, "location", JObj([]));
    if !location.JObj? then Err(AttributeError)
    else
      Ok(AirportRecord(
        Get(airport, "icao"),
        Get(airport, "iata"),
        Or(Get(airport, "fullName"), Get(airport, "shortName")),
        Get(airport, "municipalityName"),
        UnwrapName(country),
        UnwrapName(continent),
        Get(location.members, "lat"),
        Get(location.members, "lon"),
        Get(airport, "timeZone")))
  }

  /** The five values bound to `INSERT OR IGNORE INTO aircraft`. */
  datatype AircraftRecord = AircraftRecord(
    registration: Json, model: Json, manufacturer: Json, icaoTypeCode: Json, owner: Json)

  /** `insert_aircraft`: nothing for a falsy payload (`None`, `{}`, `[]`, ...);
      otherwise the registration, and the model, manufacturer, type code and owner
      defaulting to "" when absent. A truthy payload that is not a dict makes `.get`
      raise AttributeError; the `except Exception` handler calls `.get` again while
      formatting its message, so the error leaves the function. */
  function AircraftRecordOf(aircraft: Json): (r: Result<Option<AircraftRecord>, PayloadError>)
    ensures r.Err? <==> Truthy(aircraft) && !aircraft.JObj?
    ensures r == Ok(None) <==> !Truthy(aircraft)
    ensures r.Ok? && r.value.Some? <==> aircraft.JObj? && aircraft.members != []
    ensures r.Ok? && r.value.Some? ==>
      && r.value.value.registration == Get(aircraft.members, "reg")
      && r.value.value.model == GetOr(aircraft.members, "modelCode", JStr(""))
      && r.value.value.manufacturer == GetOr(aircraft.members, "typeName", JStr(""))
      && r.value.value.icaoTypeCode == GetOr(aircraft.members, "icaoCode", JStr(""))
      && r.value.value.owner == GetOr(aircraft.members, "airlineName", JStr(""))
      && (Lookup(aircraft.members, "modelCode").None? ==> r.value.value.model == JStr(""))
      && (Lookup(aircraft.members, "typeName").None? ==> r.value.value.manufacturer == JStr(""))
      && (Lookup(aircraft.members, "icaoCode").None? ==> r.value.value.icaoTypeCode == JStr(""))
      && (Lookup(aircraft.members, "airlineName").None? ==> r.value.value.owner == JStr(""))
  {
    if !Truthy(aircraft) then Ok(None)
    else if !aircraft.JObj? then Err(AttributeError)
    else
      var m := aircraft.members;
      Ok(Some(AircraftRecord(
        Get(m, "reg"),
        GetOr(m, "modelCode", JStr("")),
        GetOr(m, "typeName", JStr("")),
        GetOr(m, "icaoCode", JStr("")),
        GetOr(m, "airlineName", JStr("")))))
  }
}
