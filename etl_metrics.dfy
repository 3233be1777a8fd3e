/** etl.py, `compute_airport_delay_metrics`: the daily delay figures of one airport
    over the deduplicated flight frame. Timestamps are parsed by a parameter
    (`pd.to_datetime(..., errors="coerce")`: seconds since the epoch, or `None` for
    NaT); a delay sample is a `real` number of minutes, `None` standing for NaN. */
module EtlMetrics {
  import opened Wrappers
  import opened Payloads

  /** The row written to `airport_delay_metrics`. */
  datatype DelayMetrics = DelayMetrics(
    airportIata: string,
    delayDate: string,
    totalFlights: nat,
    delayedFlights: nat,
    avgDelayMin: int,
    medianDelayMin: int,
    canceledFlights: nat)

  /** Why `compute_airport_delay_metrics` raises:
      - `MissingColumn`: a frame built from no rows has no columns, so reading
        `df["scheduled_departure"]` raises KeyError;
      - `NoDelayValue`: `int(NaN)` raises ValueError, because the series has samples
        but none of them is a number. */
  datatype MetricsError = MissingColumn | NoDelayValue

  /** A column value parsed to seconds; a missing value is NaT. */
  function Time(parse: string -> Option<int>, v: Option<string>): Option<int> {
    if v.None? then None else parse(v.value)
  }

  /** `(actual - scheduled).total_seconds() / 60` clipped below at 0; NaN when
      either time is NaT. */
  function DelayMinutes(parse: string -> Option<int>, scheduled: Option<string>, actual: Option<string>): (d: Option<real>)
    ensures d.Some? <==> Time(parse, scheduled).Some? && Time(parse, actual).Some?
    ensures d.Some? ==> d.value >= 0.0
    ensures d.Some? && Time(parse, actual).value >= Time(parse, scheduled).value ==>
      d.value * 60.0 == (Time(parse, actual).value - Time(parse, scheduled).value) as real
    ensures d.Some? && Time(parse, actual).value < Time(parse, scheduled).value ==> d.value == 0.0
  {
    match (Time(parse, scheduled), Time(parse, actual))
    case (Some(s), Some(a)) =>
      var m := (a - s) as real / 60.0;
      Some(if m < 0.0 then 0.0 else m)
    case _ => None
  }

  /** The `dep` selection: departures from the airport with both departure times. */
  predicate IsDeparture(parse: string -> Option<int>, row: FlightRow, iata: string) {
    && row.originIata == Some(iata)
    && Time(parse, row.scheduledDeparture).Some?
    && Time(parse, row.actualDeparture).Some?
  }

  /** The `arr` selection: arrivals at the airport with both arrival times. */
  predicate IsArrival(parse: string -> Option<int>, row: FlightRow, iata: string) {
    && row.destinationIata == Some(iata)
    && Time(parse, row.scheduledArrival).Some?
    && Time(parse, row.actualArrival).Some?
  }

  function DepartureLateness(parse: string -> Option<int>, row: FlightRow): Option<real> {
    DelayMinutes(parse, row.scheduledDeparture, row.actualDeparture)
  }

  function ArrivalLateness(parse: string -> Option<int>, row: FlightRow): Option<real> {
    DelayMinutes(parse, row.scheduledArrival, row.actualArrival)
  }

  /** `dep["delay"]` as it stands when the series are concatenated: the second
      assignment replaces the departure delay by the arrival lateness of the same
      rows, NaN where their arrival times are missing. */
  function DepartureSamples(parse: string -> Option<int>, rows: seq<FlightRow>, iata: string): seq<Option<real>> {
    if rows == [] then []
    else
      var n := |rows| - 1;
      DepartureSamples(parse, rows[..n], iata)
        + (if IsDeparture(parse, rows[n], iata) then [ArrivalLateness(parse, rows[n])] else [])
  }

  /** `dep["delay"]` as first computed: the departure lateness of each selected row. */
  function DepartureSamplesIntended(parse: string -> Option<int>, rows: seq<FlightRow>, iata: string): seq<Option<real>> {
    if rows == [] then []
    else
      var n := |rows| - 1;
      DepartureSamplesIntended(parse, rows[..n], iata)
        + (if IsDeparture(parse, rows[n], iata) then [DepartureLateness(parse, rows[n])] else [])
  }

  /** `arr["delay"]`. */
  function ArrivalSamples(parse: string -> Option<int>, rows: seq<FlightRow>, iata: string): seq<Option<real>> {
    if rows == [] then []
    else
      var n := |rows| - 1;
      ArrivalSamples(parse, rows[..n], iata)
        + (if IsArrival(parse, rows[n], iata) then [ArrivalLateness(parse, rows[n])] else [])
  }

  // ---------------------------------------------------------------------------
  // Series statistics

  /** The samples that are numbers, in order (what `mean` and `median` look at). */
  function Values(samples: seq<Option<real>>): (vs: seq<real>)
    ensures |vs| <= |samples|
  {
    if samples == [] then []
    else
      var n := |samples| - 1;
      Values(samples[..n]) + (if samples[n].Some? then [samples[n].value] else [])
  }

  /** `(delays > 0).sum()`: NaN compares false. */
  function CountPositive(samples: seq<Option<real>>): (c: nat)
    ensures c <= |samples|
  {
    if samples == [] then 0
    else
      var n := |samples| - 1;
      CountPositive(samples[..n]) + (if samples[n].Some? && samples[n].value > 0.0 then 1 else 0)
  }

  function Sum(xs: seq<real>): real {
    if xs == [] then 0.0 else xs[0] + Sum(xs[1..])
  }

  function Mean(xs: seq<real>): real
    requires xs != []
  {
    Sum(xs) / (|xs| as real)
  }

  predicate SortedReals(s: seq<real>) {
    forall i, j :: 0 <= i < j < |s| ==> s[i] <= s[j]
  }

  function Insert(x: real, s: seq<real>): seq<real> {
    if s == [] || x <= s[0] then [x] + s else [s[0]] + Insert(x, s[1..])
  }

  function Sort(xs: seq<real>): seq<real> {
    if xs == [] then [] else Insert(xs[0], Sort(xs[1..]))
  }

  /** The middle value of the sorted samples, or the mean of the two middle values. */
  function Median(xs: seq<real>): real
    requires xs != []
  {
    var s := Sort(xs);
    SortIsSorted(xs);
    SortIsPermutation(xs);
    var n := |s|;
    if n % 2 == 1 then s[n / 2] else (s[n / 2 - 1] + s[n / 2]) / 2.0
  }

  /** `int(x)` of a float: truncation toward zero. */
  function Trunc(x: real): (r: int)
    ensures x >= 0.0 ==> 0 <= r && r as real <= x < r as real + 1.0
    ensures x < 0.0 ==> r <= 0 && x <= r as real < x + 1.0
  {
    if x >= 0.0 then x.Floor else -((-x).Floor)
  }

  /** `Insert` puts `x` before the first element not smaller than it. */
  lemma {:induction false} InsertSplits(x: real, s: seq<real>) returns (k: nat)
    ensures k <= |s| && Insert(x, s) == s[..k] + [x] + s[k..]
    ensures forall i :: 0 <= i < k ==> s[i] < x
    ensures k < |s| ==> x <= s[k]
  {
    if s == [] || x <= s[0] {
      k := 0;
    } else {
      var k1 := InsertSplits(x, s[1..]);
      k := k1 + 1;
      assert s[..k] == [s[0]] + s[1..][..k1];
      assert s[k..] == s[1..][k1..];
    }
  }

  lemma InsertSorted(x: real, s: seq<real>)
    requires SortedReals(s)
    ensures SortedReals(Insert(x, s))
  {
    var k := InsertSplits(x, s);
    var r := Insert(x, s);
    forall i, j | 0 <= i < j < |r| ensures r[i] <= r[j] {
      var a := if i < k then s[i] else if i == k then x else s[i - 1];
      var b := if j < k then s[j] else if j == k then x else s[j - 1];
      assert r[i] == a && r[j] == b;
    }
  }

  lemma {:induction false} InsertAdds(x: real, s: seq<real>)
    ensures multiset(Insert(x, s)) == multiset(s) + multiset{x}
    ensures |Insert(x, s)| == |s| + 1
  {
    if s != [] && x > s[0] {
      InsertAdds(x, s[1..]);
      assert s == [s[0]] + s[1..];
    }
  }

  lemma {:induction false} SortIsSorted(xs: seq<real>)
    ensures SortedReals(Sort(xs))
  {
    if xs != [] {
      SortIsSorted(xs[1..]);
      InsertSorted(xs[0], Sort(xs[1..]));
    }
  }

  lemma {:induction false} SortIsPermutation(xs: seq<real>)
    ensures multiset(Sort(xs)) == multiset(xs)
    ensures |Sort(xs)| == |xs|
  {
    if xs != [] {
      var rest := xs[1..];
      SortIsPermutation(rest);
      InsertAdds(xs[0], Sort(rest));
      assert xs == [xs[0]] + rest;
    }
  }

  // ---------------------------------------------------------------------------
  // The metrics

  /** `status.str.lower()` on ASCII letters. */
  function AsciiLower(s: string): (r: string)
    ensures |r| == |s|
    ensures forall i :: 0 <= i < |s| ==> r[i] == (if 'A' <= s[i] <= 'Z' then (s[i] as int + 32) as char else s[i])
  {
    seq(|s|, i requires 0 <= i < |s| => if 'A' <= s[i] <= 'Z' then (s[i] as int + 32) as char else s[i])
  }

  predicate IsCanceledStatus(status: Option<string>) {
    status.Some? && AsciiLower(status.value) in {"cancelled", "canceled"}
  }

  /** Rows with a canceled status that leave from or arrive at the airport. */
  function Canceled(rows: seq<FlightRow>, iata: string): (c: nat)
    ensures c <= |rows|
  {
    if rows == [] then 0
    else
      var n := |rows| - 1;
      var row := rows[n];
      Canceled(rows[..n], iata)
        + (if IsCanceledStatus(row.status) && (row.originIata == Some(iata) || row.destinationIata == Some(iata)) then 1 else 0)
  }

  /** The return value built from the concatenated delay series. */
  function Summarize(iata: string, date: string, delays: seq<Option<real>>, canceled: nat): Result<DelayMetrics, MetricsError> {
    if delays == [] then Ok(DelayMetrics(iata, date, 0, 0, 0, 0, canceled))
    else
      var vs := Values(delays);
      if vs == [] then Err(NoDelayValue)
      else
        Ok(DelayMetrics(iata, date, |delays|, CountPositive(delays), Trunc(Mean(vs)), Trunc(Median(vs)), canceled))
  }

  /** `compute_airport_delay_metrics` as written. */
  function ComputeDelayMetrics(parse: string -> Option<int>, rows: seq<FlightRow>, iata: string, date: string)
    : Result<DelayMetrics, MetricsError>
  {
    if rows == [] then Err(MissingColumn)
    else
      var delays := DepartureSamples(parse, rows, iata) + ArrivalSamples(parse, rows, iata);
      Summarize(iata, date, delays, Canceled(rows, iata))
  }

  /** `compute_airport_delay_metrics` with departure delays measured on departure times. */
  function ComputeDelayMetricsIntended(parse: string -> Option<int>, rows: seq<FlightRow>, iata: string, date: string)
    : Result<DelayMetrics, MetricsError>
  {
    if rows == [] then Err(MissingColumn)
    else
      var delays := DepartureSamplesIntended(parse, rows, iata) + ArrivalSamples(parse, rows, iata);
      Summarize(iata, date, delays, Canceled(rows, iata))
  }

  // ---------------------------------------------------------------------------
  // Properties

  predicate Nonnegative(samples: seq<Option<real>>) {
    forall i :: 0 <= i < |samples| && samples[i].Some? ==> samples[i].value >= 0.0
  }

  lemma NonnegativeAppend(a: seq<Option<real>>, b: seq<Option<real>>)
    requires Nonnegative(a) && Nonnegative(b)
    ensures Nonnegative(a + b)
  {
    forall i | 0 <= i < |a + b| && (a + b)[i].Some? ensures (a + b)[i].value >= 0.0 {
      if i < |a| { assert (a + b)[i] == a[i]; } else { assert (a + b)[i] == b[i - |a|]; }
    }
  }

  /** Every value kept by `Values` is one of the samples. */
  lemma {:induction false} ValuesAreSamples(samples: seq<Option<real>>)
    ensures forall j :: 0 <= j < |Values(samples)| ==> Some(Values(samples)[j]) in samples
  {
    if samples != [] {
      var n := |samples| - 1;
      ValuesAreSamples(samples[..n]);
      forall j | 0 <= j < |Values(samples)| ensures Some(Values(samples)[j]) in samples {
        if j < |Values(samples[..n])| {
          assert Some(Values(samples)[j]) in samples[..n];
        }
      }
    }
  }

  /** Values drawn from clipped samples are never negative. */
  lemma SamplesStayNonnegative(samples: seq<Option<real>>)
    ensures Nonnegative(samples) ==> forall j :: 0 <= j < |Values(samples)| ==> Values(samples)[j] >= 0.0
  {
    ValuesAreSamples(samples);
  }

  /** Clipped samples are never negative, in all three series. */
  lemma {:induction false} SeriesNonnegative(parse: string -> Option<int>, rows: seq<FlightRow>, iata: string)
    ensures Nonnegative(DepartureSamples(parse, rows, iata))
    ensures Nonnegative(DepartureSamplesIntended(parse, rows, iata))
    ensures Nonnegative(ArrivalSamples(parse, rows, iata))
  {
    if rows != [] {
      SeriesNonnegative(parse, rows[..|rows| - 1], iata);
    }
  }

  lemma {:induction false} SumBelow(xs: seq<real>, c: real)
    requires forall i :: 0 <= i < |xs| ==> xs[i] < c
    ensures xs != [] ==> Sum(xs) < |xs| as real * c
    ensures Sum(xs) <= |xs| as real * c
  {
    if xs != [] {
      SumBelow(xs[1..], c);
    }
  }

  lemma {:induction false} SumAbove(xs: seq<real>, c: real)
    requires forall i :: 0 <= i < |xs| ==> xs[i] > c
    ensures xs != [] ==> Sum(xs) > |xs| as real * c
    ensures Sum(xs) >= |xs| as real * c
  {
    if xs != [] {
      SumAbove(xs[1..], c);
    }
  }

  /** The mean lies between the smallest and the largest sample. */
  lemma MeanWithinSamples(xs: seq<real>)
    requires xs != []
    ensures exists i :: 0 <= i < |xs| && xs[i] <= Mean(xs)
    ensures exists i :: 0 <= i < |xs| && Mean(xs) <= xs[i]
  {
    var m, n := Mean(xs), |xs| as real;
    assert m * n == Sum(xs);
    if forall i :: 0 <= i < |xs| ==> xs[i] > m {
      SumAbove(xs, m);
    }
    if forall i :: 0 <= i < |xs| ==> xs[i] < m {
      SumBelow(xs, m);
    }
  }

  /** The median lies between the smallest and the largest sample. */
  lemma MedianWithinSamples(xs: seq<real>)
    requires xs != []
    ensures exists i :: 0 <= i < |xs| && xs[i] <= Median(xs)
    ensures exists i :: 0 <= i < |xs| && Median(xs) <= xs[i]
  {
    var s := Sort(xs);
    SortIsSorted(xs);
    SortIsPermutation(xs);
    var n := |s|;
    var lo, hi := if n % 2 == 1 then n / 2 else n / 2 - 1, n / 2;
    assert s[lo] <= Median(xs) <= s[hi];
    assert s[lo] in multiset(xs) && s[hi] in multiset(xs);
    var i :| 0 <= i < |xs| && xs[i] == s[lo];
    var j :| 0 <= j < |xs| && xs[j] == s[hi];
  }

  /** The summary fails exactly when the series is non-empty and holds no number;
      otherwise delayed flights never exceed the total, an empty series gives zero
      averages, and both averages lie between 0 and the largest sample. */
  lemma SummarizeSpec(iata: string, date: string, delays: seq<Option<real>>, canceled: nat)
    requires Nonnegative(delays)
    ensures var r := Summarize(iata, date, delays, canceled);
      && (r.Err? <==> delays != [] && Values(delays) == [])
      && (r.Ok? ==> r.value.totalFlights == |delays| && r.value.delayedFlights <= r.value.totalFlights)
      && (r.Ok? ==> r.value.canceledFlights == canceled && r.value.airportIata == iata && r.value.delayDate == date)
      && (delays == [] ==> r == Ok(DelayMetrics(iata, date, 0, 0, 0, 0, canceled)))
      && (r.Ok? && delays != [] ==>
            var vs := Values(delays);
            && 0 <= r.value.avgDelayMin && (exists i :: 0 <= i < |vs| && r.value.avgDelayMin as real <= vs[i])
            && 0 <= r.value.medianDelayMin && (exists i :: 0 <= i < |vs| && r.value.medianDelayMin as real <= vs[i]))
  {
    if delays != [] && Values(delays) != [] {
      var vs := Values(delays);
      SamplesStayNonnegative(delays);
      MeanWithinSamples(vs);
      MedianWithinSamples(vs);
      var i1 :| 0 <= i1 < |vs| && vs[i1] <= Mean(vs);
      var j1 :| 0 <= j1 < |vs| && Mean(vs) <= vs[j1];
      var i2 :| 0 <= i2 < |vs| && vs[i2] <= Median(vs);
      var j2 :| 0 <= j2 < |vs| && Median(vs) <= vs[j2];
      assert Trunc(Mean(vs)) as real <= vs[j1];
      assert Trunc(Median(vs)) as real <= vs[j2];
    }
  }

  /** As written, the departure series measures arrival lateness: a selected
      departure whose arrival times are missing contributes NaN. */
  lemma {:induction false} DepartureSamplesAsWritten(parse: string -> Option<int>, rows: seq<FlightRow>, iata: string)
    ensures |DepartureSamples(parse, rows, iata)| == |DepartureSamplesIntended(parse, rows, iata)|
    ensures forall k :: 0 <= k < |DepartureSamples(parse, rows, iata)| ==>
      exists i :: 0 <= i < |rows| && IsDeparture(parse, rows[i], iata)
        && DepartureSamples(parse, rows, iata)[k] == ArrivalLateness(parse, rows[i])
        && DepartureSamplesIntended(parse, rows, iata)[k] == DepartureLateness(parse, rows[i])
  {
    if rows != [] {
      var n := |rows| - 1;
      DepartureSamplesAsWritten(parse, rows[..n], iata);
      var a, b := DepartureSamples(parse, rows[..n], iata), DepartureSamplesIntended(parse, rows[..n], iata);
      var sel := IsDeparture(parse, rows[n], iata);
      assert DepartureSamples(parse, rows, iata) == a + (if sel then [ArrivalLateness(parse, rows[n])] else []);
      assert DepartureSamplesIntended(parse, rows, iata) == b + (if sel then [DepartureLateness(parse, rows[n])] else []);
      assert |DepartureSamples(parse, rows, iata)| == |DepartureSamplesIntended(parse, rows, iata)|;
      forall k | 0 <= k < |DepartureSamples(parse, rows, iata)|
        ensures exists i :: (0 <= i < |rows| && IsDeparture(parse, rows[i], iata)
          && DepartureSamples(parse, rows, iata)[k] == ArrivalLateness(parse, rows[i])
          && DepartureSamplesIntended(parse, rows, iata)[k] == DepartureLateness(parse, rows[i]))
      {
        if k < |a| {
          var i :| 0 <= i < n && IsDeparture(parse, rows[..n][i], iata)
            && a[k] == ArrivalLateness(parse, rows[..n][i])
            && b[k] == DepartureLateness(parse, rows[..n][i]);
          assert rows[..n][i] == rows[i];
          assert DepartureSamples(parse, rows, iata)[k] == a[k];
          assert DepartureSamplesIntended(parse, rows, iata)[k] == b[k];
        } else {
          assert sel && k == |a| == |b|;
          assert DepartureSamples(parse, rows, iata)[k] == ArrivalLateness(parse, rows[n]);
          assert DepartureSamplesIntended(parse, rows, iata)[k] == DepartureLateness(parse, rows[n]);
        }
      }
    }
  }

  /** `compute_airport_delay_metrics` as written: it raises KeyError on a frame
      without rows, and ValueError exactly when some flight was selected but no
      selected flight has a delay that is a number; otherwise the totals count the
      selected flights and the averages stay within the samples. */
  lemma ComputeDelayMetricsSpec(parse: string -> Option<int>, rows: seq<FlightRow>, iata: string, date: string)
    ensures var delays := DepartureSamples(parse, rows, iata) + ArrivalSamples(parse, rows, iata);
      var r := ComputeDelayMetrics(parse, rows, iata, date);
      && (r == Err(MissingColumn) <==> rows == [])
      && (r == Err(NoDelayValue) <==> rows != [] && delays != [] && Values(delays) == [])
      && (r.Ok? ==> r.value.totalFlights == |DepartureSamples(parse, rows, iata)| + |ArrivalSamples(parse, rows, iata)|)
      && (r.Ok? ==> r.value.delayedFlights <= r.value.totalFlights && r.value.canceledFlights == Canceled(rows, iata))
      && (r.Ok? && delays != [] ==>
            var vs := Values(delays);
            && 0 <= r.value.avgDelayMin && (exists i :: 0 <= i < |vs| && r.value.avgDelayMin as real <= vs[i])
            && 0 <= r.value.medianDelayMin && (exists i :: 0 <= i < |vs| && r.value.medianDelayMin as real <= vs[i]))
  {
    var d, a := DepartureSamples(parse, rows, iata), ArrivalSamples(parse, rows, iata);
    SeriesNonnegative(parse, rows, iata);
    NonnegativeAppend(d, a);
    SummarizeSpec(iata, date, d + a, Canceled(rows, iata));
  }

  /** Lower-casing twice is lower-casing once, so the canceled test does not depend
      on the case the status is written in. */
  lemma CanceledIgnoresCase(status: string)
    ensures AsciiLower(AsciiLower(status)) == AsciiLower(status)
    ensures IsCanceledStatus(Some(AsciiLower(status))) == IsCanceledStatus(Some(status))
  {
  }

  /** The whole lower-cased status must be one of the two words: "CANCELLED" counts,
      "CanceledUncertain" does not. */
  lemma CanceledWholeWord()
    ensures IsCanceledStatus(Some("CANCELLED"))
    ensures IsCanceledStatus(Some("Canceled"))
    ensures !IsCanceledStatus(Some("CanceledUncertain"))
    ensures !IsCanceledStatus(None)
  {
    assert AsciiLower("CANCELLED") == "cancelled";
    assert AsciiLower("Canceled") == "canceled";
    assert |AsciiLower("CanceledUncertain")| == 17;
  }

  /** With departure delays taken from departure times every sample is a number, so
      the intended computation never fails. */
  lemma {:induction false} IntendedSamplesPresent(parse: string -> Option<int>, rows: seq<FlightRow>, iata: string)
    ensures forall k :: 0 <= k < |DepartureSamplesIntended(parse, rows, iata)| ==> DepartureSamplesIntended(parse, rows, iata)[k].Some?
    ensures forall k :: 0 <= k < |ArrivalSamples(parse, rows, iata)| ==> ArrivalSamples(parse, rows, iata)[k].Some?
  {
    if rows != [] {
      IntendedSamplesPresent(parse, rows[..|rows| - 1], iata);
    }
  }

  lemma {:induction false} ValuesOfPresent(samples: seq<Option<real>>)
    requires forall k :: 0 <= k < |samples| ==> samples[k].Some?
    ensures |Values(samples)| == |samples|
  {
    if samples != [] {
      ValuesOfPresent(samples[..|samples| - 1]);
    }
  }

  lemma IntendedNeverFails(parse: string -> Option<int>, rows: seq<FlightRow>, iata: string, date: string)
    ensures ComputeDelayMetricsIntended(parse, rows, iata, date).Ok? <==> rows != []
  {
    var delays := DepartureSamplesIntended(parse, rows, iata) + ArrivalSamples(parse, rows, iata);
    IntendedSamplesPresent(parse, rows, iata);
    ValuesOfPresent(delays);
  }

  /** One departure from DEL scheduled 10:00 and gone at 10:25, whose arrival times
      are not known yet. */
  function LateDeparture(): FlightRow {
    FlightRow("AI101_2024-12-14 04:30Z", Some("AI101"), None, Some("DEL"), Some("BOM"),
              Some("2024-12-14 04:30Z"), Some("2024-12-14 04:55Z"), None, None, None, Some("AI"))
  }

  lemma LateDepartureSeries(parse: string -> Option<int>)
    requires parse("2024-12-14 04:30Z") == Some(1734150600)
    requires parse("2024-12-14 04:55Z") == Some(1734152100)
    ensures DepartureSamples(parse, [LateDeparture()], "DEL") == [None]
    ensures DepartureSamplesIntended(parse, [LateDeparture()], "DEL") == [Some(25.0)]
    ensures ArrivalSamples(parse, [LateDeparture()], "DEL") == []
    ensures Canceled([LateDeparture()], "DEL") == 0
  {
    var rows := [LateDeparture()];
    assert rows[..0] == [];
    assert IsDeparture(parse, rows[0], "DEL");
    assert DepartureLateness(parse, rows[0]) == Some(25.0);
  }

  /** As written the computation raises for it. */
  lemma LateDepartureAsWritten(parse: string -> Option<int>)
    requires parse("2024-12-14 04:30Z") == Some(1734150600)
    requires parse("2024-12-14 04:55Z") == Some(1734152100)
    ensures ComputeDelayMetrics(parse, [LateDeparture()], "DEL", "2024-12-14") == Err(NoDelayValue)
  {
    LateDepartureSeries(parse);
    var none: seq<Option<real>> := [None];
    assert none + [] == none && none[..0] == [];
  }

  /** As intended it reports one delayed flight with an average and a median delay
      of 25 minutes. */
  lemma LateDepartureIntended(parse: string -> Option<int>)
    requires parse("2024-12-14 04:30Z") == Some(1734150600)
    requires parse("2024-12-14 04:55Z") == Some(1734152100)
    ensures ComputeDelayMetricsIntended(parse, [LateDeparture()], "DEL", "2024-12-14")
         == Ok(DelayMetrics("DEL", "2024-12-14", 1, 1, 25, 25, 0))
  {
    LateDepartureSeries(parse);
    var one: seq<Option<real>> := [Some(25.0)];
    assert one + [] == one && one[..0] == [];
    assert Values(one) == [25.0];
    assert Sort([25.0]) == [25.0];
  }
}
