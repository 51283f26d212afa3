/** The whole analysis: normalise, derive dates, sort, window, summarise. */
module Analysis {
  import opened PriceData
  import opened FieldParsing
  import opened Normalize
  import opened Series
  import opened GapStats

  function Timestamps(ss: seq<Sample>): (ts: seq<real>)
    ensures |ts| == |ss| && forall i :: 0 <= i < |ss| ==> ts[i] == ss[i].timestamp
  {
    seq(|ss|, i requires 0 <= i < |ss| => ss[i].timestamp)
  }

  function Prices(ss: seq<Sample>): (ps: seq<real>)
    ensures |ps| == |ss| && forall i :: 0 <= i < |ss| ==> ps[i] == ss[i].price
  {
    seq(|ss|, i requires 0 <= i < |ss| => ss[i].price)
  }

  /** Python's `zip` of three lists: as long as the shortest of them. */
  function Zip(ts: seq<real>, ps: seq<real>, ds: seq<real>): (r: seq<Point>)
    ensures |r| <= |ts| && |r| <= |ps| && |r| <= |ds|
    ensures |r| == |ts| || |r| == |ps| || |r| == |ds|
    ensures forall i :: 0 <= i < |r| ==> r[i] == Point(ts[i], ps[i], ds[i])
  {
    var n := if |ts| <= |ps| && |ts| <= |ds| then |ts| else if |ps| <= |ds| then |ps| else |ds|;
    seq(n, i requires 0 <= i < n => Point(ts[i], ps[i], ds[i]))
  }

  // ---------------------------------------------------------------------------
  // As written: the dates are zipped with all stored timestamps and prices

  /** The series the source builds: every stored timestamp and price, zipped with the
      dates that could be formed. */
  function SeriesAsWritten(ss: seq<Sample>): (ps: seq<Point>)
    ensures |ps| == |DatesOf(Timestamps(ss))|
  {
    Zip(Timestamps(ss), Prices(ss), DatesOf(Timestamps(ss)))
  }

  /** The analysis exactly as the source computes it. */
  function AnalysisAsWritten(rs: seq<Record>, now: real): Option<Stats> {
    if |rs| < 2 || Survivors(rs) == [] then None
    else if DatesOf(Timestamps(Survivors(rs))) == [] then None
    else
      var points := SeriesAsWritten(Survivors(rs));
      var sorted := SortByDate(points);
      assert |multiset(sorted)| == |points|;
      var series := Window(sorted, Cutoff(now));
      WindowCases(sorted, Cutoff(now));
      Some(Summarize(series, GapsOf(series)))
  }

  /** The series the analysis summarises once the input gets past both early exits. */
  lemma AsWrittenOfWindow(rs: seq<Record>, now: real, series: seq<Point>)
    requires |rs| >= 2 && Survivors(rs) != [] && DatesOf(Timestamps(Survivors(rs))) != []
    requires Window(SortByDate(SeriesAsWritten(Survivors(rs))), Cutoff(now)) == series
    ensures series != []
    ensures AnalysisAsWritten(rs, now) == Some(Summarize(series, GapsOf(series)))
  {
    var sorted := SortByDate(SeriesAsWritten(Survivors(rs)));
    assert |multiset(sorted)| == |SeriesAsWritten(Survivors(rs))|;
    WindowCases(sorted, Cutoff(now));
  }

  /** When the first sample has no date and the rest do, every stored sample is paired
      with the date of the sample after it, and the last sample is dropped. */
  lemma AsWrittenShiftsDates(s0: Sample, rest: seq<Sample>)
    requires !HasDate(s0.timestamp)
    requires forall k :: 0 <= k < |rest| ==> HasDate(rest[k].timestamp)
    ensures var ss, ps := [s0] + rest, SeriesAsWritten([s0] + rest);
      |ps| == |rest| &&
      forall i :: 0 <= i < |rest| ==> ps[i] == Point(ss[i].timestamp, ss[i].price, DateOf(rest[i].timestamp))
  {
    var ss := [s0] + rest;
    var later := Timestamps(rest);
    assert Timestamps(ss) == [] + [s0.timestamp] + later;
    DatesOfSkips([], s0.timestamp, later);
    DatesOfAll(later);
  }

  /** The analysis as the source runs it: three loops around a sort and a filter. */
  method AnalyzePriceData(rs: seq<Record>, now: real) returns (r: Option<Stats>)
    ensures r == AnalysisAsWritten(rs, now)
  {
    if |rs| < 2 {
      return None;
    }
    var timestamps, prices := CollectSamples(rs);
    ghost var ss := Survivors(rs);
    if |timestamps| == 0 {
      return None;
    }
    assert timestamps == Timestamps(ss) && prices == Prices(ss);
    var dates := ToDates(timestamps);
    if |dates| == 0 {
      return None;
    }
    var dataPoints := Zip(timestamps, prices, dates);
    assert dataPoints == SeriesAsWritten(ss);
    var sorted := SortByDate(dataPoints);
    var filtered := Window(sorted, Cutoff(now));
    AsWrittenOfWindow(rs, now, filtered);
    var gaps := ComputeGaps(filtered);
    r := Some(Summarize(filtered, gaps));
  }

  /** The source fails exactly when there are fewer than two raw records or no
      surviving timestamp converts to a date. */
  lemma AsWrittenFailure(rs: seq<Record>, now: real)
    ensures AnalysisAsWritten(rs, now).None? <==>
      |rs| < 2 || forall k :: 0 <= k < |Survivors(rs)| ==> !HasDate(Survivors(rs)[k].timestamp)
  {
    var ts := Timestamps(Survivors(rs));
    DatesOfEmpty(ts);
    assert AnalysisAsWritten(rs, now).None? <==> |rs| < 2 || Survivors(rs) == [] || DatesOf(ts) == [];
  }

  /** What the source returns on success: a sorted, non-empty window of its zipped
      series, summarised consistently. */
  lemma AsWrittenStatistics(rs: seq<Record>, now: real)
    requires AnalysisAsWritten(rs, now).Some?
    ensures var st, sorted := AnalysisAsWritten(rs, now).value, SortByDate(SeriesAsWritten(Survivors(rs)));
      var s, n := st.filteredData, |st.filteredData|;
      && s == Window(sorted, Cutoff(now)) && Sorted(s) && n >= 1
      && multiset(sorted) == multiset(SeriesAsWritten(Survivors(rs)))
      && st.totalPoints == n && st.startDate == s[0].date && st.endDate == s[n - 1].date
      && (n < 2 ==> st.avgGapMinutes == st.minGapMinutes == st.maxGapMinutes == 0.0)
      && (n >= 2 ==>
            && 0.0 <= st.minGapMinutes <= st.avgGapMinutes <= st.maxGapMinutes
            && Times(st.avgGapMinutes, n - 1) == Sum(GapsOf(s)))
  {
    var sorted := SortByDate(SeriesAsWritten(Survivors(rs)));
    assert |multiset(sorted)| == |SeriesAsWritten(Survivors(rs))|;
    WindowOfSorted(sorted, Cutoff(now));
    var s := Window(sorted, Cutoff(now));
    assert AnalysisAsWritten(rs, now).value == Summarize(s, GapsOf(s));
    SummarizeConsistent(s);
  }

  // ---------------------------------------------------------------------------
  // As intended: a sample whose date cannot be formed is dropped whole

  /** The dated samples as points, in date order. */
  function SortedSeries(rs: seq<Record>): seq<Point> {
    SortByDate(DatedPoints(Survivors(rs)))
  }

  /** The result of the analysis: `None` for fewer than two raw records or when no
      record yields a dated sample, and otherwise the statistics of the windowed series. */
  function AnalysisOf(rs: seq<Record>, now: real): Option<Stats> {
    if |rs| < 2 || DatedPoints(Survivors(rs)) == [] then None
    else
      var sorted := SortedSeries(rs);
      assert |multiset(sorted)| == |DatedPoints(Survivors(rs))|;
      var series := Window(sorted, Cutoff(now));
      WindowCases(sorted, Cutoff(now));
      Some(Summarize(series, GapsOf(series)))
  }

  /** Where every surviving timestamp has a date, the two analyses coincide. */
  lemma AsWrittenAgrees(rs: seq<Record>, now: real)
    requires forall k :: 0 <= k < |Survivors(rs)| ==> HasDate(Survivors(rs)[k].timestamp)
    ensures AnalysisAsWritten(rs, now) == AnalysisOf(rs, now)
  {
    var ss := Survivors(rs);
    var ts := Timestamps(ss);
    DatesOfAll(ts);
    DatedPointsAll(ss);
    assert SeriesAsWritten(ss) == PointsOf(ss);
  }

  /** The analysis fails exactly when there are fewer than two raw records or no
      surviving record has a timestamp that converts to a date. */
  lemma AnalysisFailure(rs: seq<Record>, now: real)
    ensures AnalysisOf(rs, now).None? <==>
      |rs| < 2 || forall k :: 0 <= k < |Survivors(rs)| ==> !HasDate(Survivors(rs)[k].timestamp)
  {
    DatedPointsEmpty(Survivors(rs));
    assert AnalysisOf(rs, now).None? <==> |rs| < 2 || DatedPoints(Survivors(rs)) == [];
  }

  /** The sorted series is a stable, date-ordered permutation of the dated points. */
  lemma SortedSeriesOrder(rs: seq<Record>, d: real)
    ensures Sorted(SortedSeries(rs))
    ensures multiset(SortedSeries(rs)) == multiset(DatedPoints(Survivors(rs)))
    ensures WithDate(SortedSeries(rs), d) == WithDate(DatedPoints(Survivors(rs)), d)
  {
    SortByDateStable(DatedPoints(Survivors(rs)), d);
  }

  /** The analysed series: sorted, non-empty, and either the recent points (all on or
      after the cutoff) or, when none is recent, the whole sorted series. */
  lemma AnalysisSeries(rs: seq<Record>, now: real)
    requires AnalysisOf(rs, now).Some?
    ensures var series, sorted, cutoff := AnalysisOf(rs, now).value.filteredData, SortedSeries(rs), Cutoff(now);
      && series == Window(sorted, cutoff)
      && series != [] && Sorted(series)
      && ((exists p :: p in sorted && p.date >= cutoff) ==>
            series == KeepRecent(sorted, cutoff)
            && forall i :: 0 <= i < |series| ==> series[i].date >= cutoff)
      && ((forall p :: p in sorted ==> p.date < cutoff) ==> series == sorted)
      && Window(series, cutoff) == series
  {
    var sorted, cutoff := SortedSeries(rs), Cutoff(now);
    assert AnalysisOf(rs, now).value.filteredData == Window(sorted, cutoff);
    assert |multiset(sorted)| == |DatedPoints(Survivors(rs))|;
    WindowOfSorted(sorted, cutoff);
  }

  /** Every analysed point comes from a record that normalised to its timestamp and
      price, and its date is the one its own timestamp converts to. */
  lemma AnalysisPoints(rs: seq<Record>, now: real, i: int)
    requires AnalysisOf(rs, now).Some?
    requires 0 <= i < |AnalysisOf(rs, now).value.filteredData|
    ensures var p := AnalysisOf(rs, now).value.filteredData[i];
      && HasDate(p.timestamp) && p.date == DateOf(p.timestamp)
      && exists j :: 0 <= j < |rs| && NormalizeRecord(rs[j]) == Some(Sample(p.timestamp, p.price))
  {
    var sorted, cutoff := SortedSeries(rs), Cutoff(now);
    var series := Window(sorted, cutoff);
    var p := series[i];
    assert p in series;
    assert p in sorted by {
      if KeepRecent(sorted, cutoff) != [] {
        assert p in KeepRecent(sorted, cutoff);
      }
    }
    var ss := Survivors(rs);
    assert p in multiset(DatedPoints(ss));
    DatedPointsMembership(ss, p);
    var k :| 0 <= k < |ss| && HasDate(ss[k].timestamp) && p == ToPoint(ss[k]);
    assert ss[k] == Sample(p.timestamp, p.price);
    SurvivorsMembership(rs, ss[k]);
  }

  /** The statistics agree with the analysed series they describe. */
  lemma AnalysisStatistics(rs: seq<Record>, now: real)
    requires AnalysisOf(rs, now).Some?
    ensures var st := AnalysisOf(rs, now).value;
      var s, n := st.filteredData, |st.filteredData|;
      && st.totalPoints == n >= 1
      && st.startDate == s[0].date && st.endDate == s[n - 1].date
      && (n < 2 ==> st.avgGapMinutes == st.minGapMinutes == st.maxGapMinutes == 0.0)
      && (n >= 2 ==>
            && 0.0 <= st.minGapMinutes <= st.avgGapMinutes <= st.maxGapMinutes
            && Times(st.avgGapMinutes, n - 1) == Sum(GapsOf(s))
            && Sum(GapsOf(s)) == (st.endDate - st.startDate) / 60.0)
  {
    AnalysisSeries(rs, now);
    var series := AnalysisOf(rs, now).value.filteredData;
    SummarizeConsistent(series);
  }
}

/** Worked examples of the whole analysis. */
module AnalysisExamples {
  import opened PriceData
  import opened FieldParsing
  import opened Normalize
  import opened Series
  import opened GapStats
  import opened Analysis

  lemma CleanPlainPrice()
    ensures CleanPriceText("10.00") == "10" + "." + "00"
  {
    var whole, frac := "10", "00";
    assert AllDigits(whole) && AllDigits(frac);
    assert "10.00" == (whole + ".") + frac;
    CleanPriceAppend(whole + ".", frac);
    CleanPriceAppend(whole, ".");
    CleanPriceDigits(whole);
    CleanPriceDigits(frac);
    assert CleanPriceText(".") == ".";
  }

  lemma PlainPriceValue()
    ensures AllDigits("10") && AllDigits("00")
    ensures DecimalValue("10", "00") == 10.0
  {
    DigitsValueSnoc([], 1);
    assert [] + [DigitChar(1)] == "1";
    DigitsValueSnoc("1", 0);
    assert "1" + [DigitChar(0)] == "10";
    DigitsValueSnoc([], 0);
    assert [] + [DigitChar(0)] == "0";
    DigitsValueSnoc("0", 0);
    assert "0" + [DigitChar(0)] == "00";
    assert Pow10(2) == 100;
  }

  /** A plain decimal text is read as its value. */
  lemma PlainPriceExample()
    ensures ParsePrice(Text("10.00")) == Some(10.0)
  {
    CleanPlainPrice();
    PlainPriceValue();
    ParseDecimalParts("10", "00");
  }

  /** The instants of the examples lie well inside the range of `datetime`. */
  lemma HasDateExamples()
    ensures HasDate(1700000000.0) && HasDate(1700003600.0)
    ensures HasDate(1700000000000.0) && HasDate(1700003600000.0)
    ensures !HasDate(1000000000000000.0)
  {
  }

  lemma PairSurvivors(r0: Record, r1: Record, s0: Sample, s1: Sample)
    requires NormalizeRecord(r0) == Some(s0) && NormalizeRecord(r1) == Some(s1)
    ensures Survivors([r0, r1]) == [s0, s1]
  {
    assert [r0, r1][1..] == [r1];
    assert [r1][1..] == [];
  }

  lemma RejectedRecord()
    ensures NormalizeRecord([Text("bad"), Text("oops")]) == None
  {
    ParseStampRejectsWord();
  }

  lemma SecondSurvives(r0: Record, r1: Record, s1: Sample)
    requires NormalizeRecord(r0) == None && NormalizeRecord(r1) == Some(s1)
    ensures Survivors([r0, r1]) == [s1]
  {
    assert [r0, r1][1..] == [r1];
    assert [r1][1..] == [];
  }

  /** Two records whose dates both convert are analysed alike as written and corrected. */
  lemma PairAgrees(r0: Record, r1: Record, s0: Sample, s1: Sample, now: real)
    requires NormalizeRecord(r0) == Some(s0) && NormalizeRecord(r1) == Some(s1)
    requires HasDate(s0.timestamp) && HasDate(s1.timestamp)
    ensures AnalysisAsWritten([r0, r1], now) == AnalysisOf([r0, r1], now)
  {
    PairSurvivors(r0, r1, s0, s1);
    AsWrittenAgrees([r0, r1], now);
  }

  lemma SecondAgrees(r0: Record, r1: Record, s1: Sample, now: real)
    requires NormalizeRecord(r0) == None && NormalizeRecord(r1) == Some(s1)
    requires HasDate(s1.timestamp)
    ensures AnalysisAsWritten([r0, r1], now) == AnalysisOf([r0, r1], now)
  {
    SecondSurvives(r0, r1, s1);
    AsWrittenAgrees([r0, r1], now);
  }

  lemma PairPoints(s0: Sample, s1: Sample)
    requires HasDate(s0.timestamp) && HasDate(s1.timestamp)
    ensures DatedPoints([s0, s1]) == [ToPoint(s0), ToPoint(s1)]
  {
    assert [s0, s1][1..] == [s1];
    assert [s1][1..] == [];
  }

  /** The analysis of records whose survivors sort and window to `series`. */
  lemma AnalysisOfWindow(rs: seq<Record>, now: real, series: seq<Point>)
    requires |rs| >= 2 && DatedPoints(Survivors(rs)) != []
    requires Window(SortedSeries(rs), Cutoff(now)) == series
    ensures series != []
    ensures AnalysisOf(rs, now) == Some(Summarize(series, GapsOf(series)))
  {
    assert |multiset(SortedSeries(rs))| == |DatedPoints(Survivors(rs))|;
    WindowCases(SortedSeries(rs), Cutoff(now));
  }

  lemma HourApartSummary(a: Point, b: Point)
    requires b.date == a.date + 3600.0
    ensures Summarize([a, b], GapsOf([a, b])) == Stats(a.date, b.date, 2, 60.0, 60.0, 60.0, [a, b])
  {
    assert [a, b][1..] == [b];
    assert GapsOf([a, b]) == [60.0];
    assert [60.0][1..] == [];
    assert Sum([60.0]) == 60.0;
    assert Mean([60.0]) == 60.0;
  }

  /** Two points an hour apart, both recent or both stale, make up their own window. */
  lemma HourApartWindow(s: seq<Point>, now: real, a: Point, b: Point)
    requires s == [a, b] && b.date == a.date + 3600.0
    requires a.date >= Cutoff(now) || b.date < Cutoff(now)
    ensures Window(s, Cutoff(now)) == s
  {
    if a.date >= Cutoff(now) {
      WindowAllRecent(s, Cutoff(now));
    } else {
      assert s[1..] == [b] && [b][1..] == [];
      assert KeepRecent(s, Cutoff(now)) == [];
    }
  }

  /** Two records that both normalise and convert, in date order or the reverse. */
  lemma PairSeries(r0: Record, r1: Record, s0: Sample, s1: Sample)
    requires NormalizeRecord(r0) == Some(s0) && NormalizeRecord(r1) == Some(s1)
    requires HasDate(s0.timestamp) && HasDate(s1.timestamp)
    requires DateOf(s0.timestamp) <= DateOf(s1.timestamp)
    ensures DatedPoints(Survivors([r0, r1])) != []
    ensures SortedSeries([r0, r1]) == [ToPoint(s0), ToPoint(s1)]
  {
    PairSurvivors(r0, r1, s0, s1);
    PairPoints(s0, s1);
    InOrderPair(ToPoint(s0), ToPoint(s1));
  }

  lemma SwappedPairSeries(r0: Record, r1: Record, s0: Sample, s1: Sample)
    requires NormalizeRecord(r0) == Some(s0) && NormalizeRecord(r1) == Some(s1)
    requires HasDate(s0.timestamp) && HasDate(s1.timestamp)
    requires DateOf(s1.timestamp) < DateOf(s0.timestamp)
    ensures DatedPoints(Survivors([r0, r1])) != []
    ensures SortedSeries([r0, r1]) == [ToPoint(s1), ToPoint(s0)]
  {
    PairSurvivors(r0, r1, s0, s1);
    PairPoints(s0, s1);
    SwapSorted(ToPoint(s0), ToPoint(s1));
  }

  /** Input whose dated series is two recent points an hour apart. */
  lemma HourApartAnalysis(rs: seq<Record>, now: real, a: Point, b: Point)
    requires |rs| >= 2 && DatedPoints(Survivors(rs)) != [] && SortedSeries(rs) == [a, b]
    requires b.date == a.date + 3600.0 && (a.date >= Cutoff(now) || b.date < Cutoff(now))
    ensures AnalysisOf(rs, now) == Some(Stats(a.date, b.date, 2, 60.0, 60.0, 60.0, [a, b]))
  {
    HourApartWindow(SortedSeries(rs), now, a, b);
    AnalysisOfWindow(rs, now, [a, b]);
    HourApartSummary(a, b);
  }

  lemma HourApartAsWritten(rs: seq<Record>, now: real, a: Point, b: Point)
    requires |rs| >= 2 && Survivors(rs) != [] && DatesOf(Timestamps(Survivors(rs))) != []
    requires SortByDate(SeriesAsWritten(Survivors(rs))) == [a, b]
    requires b.date == a.date + 3600.0 && (a.date >= Cutoff(now) || b.date < Cutoff(now))
    ensures AnalysisAsWritten(rs, now) == Some(Stats(a.date, b.date, 2, 60.0, 60.0, 60.0, [a, b]))
  {
    HourApartWindow(SortByDate(SeriesAsWritten(Survivors(rs))), now, a, b);
    AsWrittenOfWindow(rs, now, [a, b]);
    HourApartSummary(a, b);
  }

  /** Two records an hour apart, one priced as a plain decimal and one with a
      currency sign and a decimal comma. */
  lemma TwoRecordsAnHourApart()
    ensures var rs := [[Num(1700000000.0), Text("10.00")], [Num(1700003600.0), Text("$12,50")]];
      AnalysisAsWritten(rs, 1700003600.0) == AnalysisOf(rs, 1700003600.0)
      == Some(Stats(1700000000.0, 1700003600.0, 2, 60.0, 60.0, 60.0,
                    [Point(1700000000.0, 10.0, 1700000000.0), Point(1700003600.0, 12.5, 1700003600.0)]))
  {
    var r0, r1 := [Num(1700000000.0), Text("10.00")], [Num(1700003600.0), Text("$12,50")];
    var s0, s1 := Sample(1700000000.0, 10.0), Sample(1700003600.0, 12.5);
    var a, b := Point(1700000000.0, 10.0, 1700000000.0), Point(1700003600.0, 12.5, 1700003600.0);
    PlainPriceExample();
    PriceExample();
    HasDateExamples();
    PairSeries(r0, r1, s0, s1);
    HourApartAnalysis([r0, r1], 1700003600.0, a, b);
    PairAgrees(r0, r1, s0, s1, 1700003600.0);
  }

  /** A record that does not parse is skipped; the one survivor is analysed alone. */
  lemma OneSurvivor()
    ensures var rs := [[Text("bad"), Text("oops")], [Num(1700000000.0), Text("10.00")]];
      AnalysisAsWritten(rs, 1700000000.0) == AnalysisOf(rs, 1700000000.0)
      == Some(Stats(1700000000.0, 1700000000.0, 1, 0.0, 0.0, 0.0, [Point(1700000000.0, 10.0, 1700000000.0)]))
  {
    var r0, r1 := [Text("bad"), Text("oops")], [Num(1700000000.0), Text("10.00")];
    var s1 := Sample(1700000000.0, 10.0);
    var a := Point(1700000000.0, 10.0, 1700000000.0);
    RejectedRecord();
    PlainPriceExample();
    SecondSurvives(r0, r1, s1);
    HasDateExamples();
    assert [s1][1..] == [];
    assert DatedPoints([s1]) == [a];
    SortByDateOfSorted([a]);
    KeepRecentAll([a], Cutoff(1700000000.0));
    AnalysisOfWindow([r0, r1], 1700000000.0, [a]);
    SecondAgrees(r0, r1, s1, 1700000000.0);
  }

  /** When every point is older than the window, the whole series is analysed. */
  lemma StaleSeriesFallsBack()
    ensures var rs := [[Num(1700000000.0), Num(10.0)], [Num(1700003600.0), Num(12.5)]];
      AnalysisAsWritten(rs, 1900000000.0) == AnalysisOf(rs, 1900000000.0)
      == Some(Stats(1700000000.0, 1700003600.0, 2, 60.0, 60.0, 60.0,
                    [Point(1700000000.0, 10.0, 1700000000.0), Point(1700003600.0, 12.5, 1700003600.0)]))
  {
    var r0, r1 := [Num(1700000000.0), Num(10.0)], [Num(1700003600.0), Num(12.5)];
    var s0, s1 := Sample(1700000000.0, 10.0), Sample(1700003600.0, 12.5);
    var a, b := Point(1700000000.0, 10.0, 1700000000.0), Point(1700003600.0, 12.5, 1700003600.0);
    HasDateExamples();
    PairSeries(r0, r1, s0, s1);
    HourApartAnalysis([r0, r1], 1900000000.0, a, b);
    PairAgrees(r0, r1, s0, s1, 1900000000.0);
  }

  /** Millisecond timestamps are stored as given, and dated in seconds. */
  lemma MillisecondRecords()
    ensures var rs := [[Num(1700003600000.0), Num(6.0)], [Num(1700000000000.0), Num(5.0)]];
      AnalysisAsWritten(rs, 1700003600.0) == AnalysisOf(rs, 1700003600.0)
      == Some(Stats(1700000000.0, 1700003600.0, 2, 60.0, 60.0, 60.0,
                    [Point(1700000000000.0, 5.0, 1700000000.0), Point(1700003600000.0, 6.0, 1700003600.0)]))
  {
    var r0, r1 := [Num(1700003600000.0), Num(6.0)], [Num(1700000000000.0), Num(5.0)];
    var s0, s1 := Sample(1700003600000.0, 6.0), Sample(1700000000000.0, 5.0);
    var a, b := Point(1700003600000.0, 6.0, 1700003600.0), Point(1700000000000.0, 5.0, 1700000000.0);
    HasDateExamples();
    SwappedPairSeries(r0, r1, s0, s1);
    HourApartAnalysis([r0, r1], 1700003600.0, b, a);
    PairAgrees(r0, r1, s0, s1, 1700003600.0);
  }

  /** Two points in date order are left as they are by the sort. */
  lemma InOrderPair(a: Point, b: Point)
    requires a.date <= b.date
    ensures SortByDate([a, b]) == [a, b]
  {
    SortByDateOfSorted([a, b]);
  }

  /** Two points out of date order are swapped by the sort. */
  lemma SwapSorted(a: Point, b: Point)
    requires b.date < a.date
    ensures SortByDate([a, b]) == [b, a]
  {
    assert [a, b][1..] == [b];
    SortByDateOfSorted([b]);
    assert [b][1..] == [];
    assert Insert(a, []) == [a];
    assert Insert(a, [b]) == [b] + Insert(a, []);
  }

  // ---------------------------------------------------------------------------
  // A timestamp without a date misaligns the zipped series

  /** The three records of the example; the first one's timestamp, read as
      milliseconds, lies in the year 33658, which `datetime` cannot hold. */
  const Misaligned: seq<Record> :=
    [[Num(1000000000000000.0), Num(1.0)], [Num(1700000000.0), Num(2.0)], [Num(1700003600.0), Num(3.0)]]

  lemma MisalignedSurvivors()
    ensures Survivors(Misaligned) ==
      [Sample(1000000000000000.0, 1.0), Sample(1700000000.0, 2.0), Sample(1700003600.0, 3.0)]
  {
    var rs := Misaligned;
    assert rs[1..][1..][1..] == [];
  }

  /** As written, the price of the record without a date is paired with the next
      record's date, and the last record's price is lost. */
  lemma MisalignedAsWritten()
    ensures AnalysisAsWritten(Misaligned, 1700003600.0) ==
      Some(Stats(1700000000.0, 1700003600.0, 2, 60.0, 60.0, 60.0,
                 [Point(1000000000000000.0, 1.0, 1700000000.0), Point(1700000000.0, 2.0, 1700003600.0)]))
    ensures var p := AnalysisAsWritten(Misaligned, 1700003600.0).value.filteredData[0];
      p.date != DateOf(p.timestamp)
  {
    var a, b := Point(1000000000000000.0, 1.0, 1700000000.0), Point(1700000000.0, 2.0, 1700003600.0);
    MisalignedWrittenSeries();
    HourApartAsWritten(Misaligned, 1700003600.0, a, b);
  }

  lemma MisalignedWrittenSeries()
    ensures |Misaligned| == 3 && Survivors(Misaligned) != []
    ensures DatesOf(Timestamps(Survivors(Misaligned))) == [1700000000.0, 1700003600.0]
    ensures SortByDate(SeriesAsWritten(Survivors(Misaligned))) ==
      [Point(1000000000000000.0, 1.0, 1700000000.0), Point(1700000000.0, 2.0, 1700003600.0)]
  {
    MisalignedSurvivors();
    HasDateExamples();
    ShiftedPair(Sample(1000000000000000.0, 1.0), Sample(1700000000.0, 2.0), Sample(1700003600.0, 3.0));
  }

  /** Three samples, the first without a date: the two remaining dates go to the first
      two samples. */
  lemma ShiftedPair(s0: Sample, s1: Sample, s2: Sample)
    requires !HasDate(s0.timestamp) && HasDate(s1.timestamp) && HasDate(s2.timestamp)
    requires DateOf(s1.timestamp) <= DateOf(s2.timestamp)
    ensures DatesOf(Timestamps([s0, s1, s2])) == [DateOf(s1.timestamp), DateOf(s2.timestamp)]
    ensures SortByDate(SeriesAsWritten([s0, s1, s2])) ==
      [Point(s0.timestamp, s0.price, DateOf(s1.timestamp)), Point(s1.timestamp, s1.price, DateOf(s2.timestamp))]
  {
    assert [s0, s1, s2] == [s0] + [s1, s2];
    AsWrittenShiftsDates(s0, [s1, s2]);
    var later := Timestamps([s1, s2]);
    assert Timestamps([s0, s1, s2]) == [] + [s0.timestamp] + later;
    DatesOfSkips([], s0.timestamp, later);
    DatesOfAll(later);
    var a := Point(s0.timestamp, s0.price, DateOf(s1.timestamp));
    var b := Point(s1.timestamp, s1.price, DateOf(s2.timestamp));
    var ps := SeriesAsWritten([s0, s1, s2]);
    assert ps[0] == a && ps[1] == b;
    assert ps == [a, b];
    InOrderPair(a, b);
  }

  lemma MisalignedDatedSeries()
    ensures |Misaligned| == 3
    ensures DatedPoints(Survivors(Misaligned)) ==
      [Point(1700000000.0, 2.0, 1700000000.0), Point(1700003600.0, 3.0, 1700003600.0)]
    ensures SortedSeries(Misaligned) ==
      [Point(1700000000.0, 2.0, 1700000000.0), Point(1700003600.0, 3.0, 1700003600.0)]
  {
    MisalignedSurvivors();
    HasDateExamples();
    var s0, s1, s2 := Sample(1000000000000000.0, 1.0), Sample(1700000000.0, 2.0), Sample(1700003600.0, 3.0);
    assert [s0, s1, s2][1..] == [s1, s2];
    assert DatedPoints([s0, s1, s2]) == DatedPoints([s1, s2]);
    PairPoints(s1, s2);
    var a, b := ToPoint(s1), ToPoint(s2);
    InOrderPair(a, b);
  }

  /** As intended, the record without a date is dropped and the other two keep their
      own dates. */
  lemma MisalignedCorrected()
    ensures AnalysisOf(Misaligned, 1700003600.0) ==
      Some(Stats(1700000000.0, 1700003600.0, 2, 60.0, 60.0, 60.0,
                 [Point(1700000000.0, 2.0, 1700000000.0), Point(1700003600.0, 3.0, 1700003600.0)]))
  {
    var a, b := Point(1700000000.0, 2.0, 1700000000.0), Point(1700003600.0, 3.0, 1700003600.0);
    MisalignedDatedSeries();
    HourApartAnalysis(Misaligned, 1700003600.0, a, b);
  }
}
