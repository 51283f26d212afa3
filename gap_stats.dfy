/** Gap statistics over the windowed series (the third loop and the result dictionary). */
module GapStats {
  import opened PriceData
  import opened Series

  /** Minutes from one point's date to the next one's. */
  function GapMinutes(a: Point, b: Point): real {
    (b.date - a.date) / 60.0
  }

  /** The gaps between neighbouring points. */
  function GapsOf(s: seq<Point>): (g: seq<real>)
    ensures |g| == if s == [] then 0 else |s| - 1
  {
    if |s| < 2 then [] else [GapMinutes(s[0], s[1])] + GapsOf(s[1..])
  }

  lemma {:induction false} GapsOfAt(s: seq<Point>, i: int)
    requires 0 <= i < |s| - 1
    ensures GapsOf(s)[i] == GapMinutes(s[i], s[i + 1])
  {
    if i > 0 {
      GapsOfAt(s[1..], i - 1);
      assert s[1..][i - 1] == s[i] && s[1..][i] == s[i + 1];
    }
  }

  /** The third loop: one gap per neighbouring pair, in order. */
  method ComputeGaps(s: seq<Point>) returns (gaps: seq<real>)
    ensures |gaps| == if s == [] then 0 else |s| - 1
    ensures forall i :: 0 <= i < |gaps| ==> gaps[i] == GapMinutes(s[i], s[i + 1])
    ensures gaps == GapsOf(s)
  {
    gaps := [];
    var i := 1;
    while i < |s|
      invariant 1 <= i <= |s| || (s == [] && i == 1)
      invariant |gaps| == i - 1
      invariant forall k :: 0 <= k < |gaps| ==> gaps[k] == GapMinutes(s[k], s[k + 1])
    {
      var current := s[i].date;
      var previous := s[i - 1].date;
      gaps := gaps + [(current - previous) / 60.0];
      i := i + 1;
    }
    forall k | 0 <= k < |gaps| ensures gaps[k] == GapsOf(s)[k] {
      GapsOfAt(s, k);
    }
  }

  /** On a sorted series no gap is negative. */
  lemma GapsNonNegative(s: seq<Point>)
    requires Sorted(s)
    ensures forall i :: 0 <= i < |GapsOf(s)| ==> GapsOf(s)[i] >= 0.0
  {
    forall i | 0 <= i < |GapsOf(s)| ensures GapsOf(s)[i] >= 0.0 {
      GapsOfAt(s, i);
    }
  }

  function Sum(g: seq<real>): real {
    if g == [] then 0.0 else g[0] + Sum(g[1..])
  }

  /** Python's `min` of a non-empty list. */
  function MinOf(g: seq<real>): (m: real)
    requires g != []
    ensures m in g
    ensures forall i :: 0 <= i < |g| ==> m <= g[i]
  {
    if |g| == 1 then g[0]
    else
      var rest := MinOf(g[1..]);
      assert forall i :: 1 <= i < |g| ==> g[i] == g[1..][i - 1];
      if g[0] <= rest then g[0] else rest
  }

  /** Python's `max` of a non-empty list. */
  function MaxOf(g: seq<real>): (m: real)
    requires g != []
    ensures m in g
    ensures forall i :: 0 <= i < |g| ==> g[i] <= m
  {
    if |g| == 1 then g[0]
    else
      var rest := MaxOf(g[1..]);
      assert forall i :: 1 <= i < |g| ==> g[i] == g[1..][i - 1];
      if g[0] >= rest then g[0] else rest
  }

  /** The gaps add up to the time from the first point to the last. */
  lemma {:induction false} GapsTelescope(s: seq<Point>)
    requires s != []
    ensures Sum(GapsOf(s)) == (s[|s| - 1].date - s[0].date) / 60.0
  {
    if |s| >= 2 {
      GapsTelescope(s[1..]);
      assert s[1..][|s| - 2] == s[|s| - 1];
    }
  }

  lemma {:induction false} SumBetween(g: seq<real>, lo: real, hi: real)
    requires forall i :: 0 <= i < |g| ==> lo <= g[i] <= hi
    ensures |g| as real * lo <= Sum(g) <= |g| as real * hi
  {
    if g != [] {
      assert forall i :: 0 <= i < |g[1..]| ==> g[1..][i] == g[i + 1];
      SumBetween(g[1..], lo, hi);
    }
  }

  /** `sum(gaps) / len(gaps)` of a non-empty list. */
  function Mean(g: seq<real>): real
    requires g != []
  {
    Sum(g) / |g| as real
  }

  /** The mean times the count is the sum. */
  lemma MeanTimesCount(g: seq<real>)
    requires g != []
    ensures Mean(g) * |g| as real == Sum(g)
  {
    var n, t := |g| as real, Sum(g);
    assert n > 0.0;
    assert (t / n) * n == t;
  }

  lemma DivBetween(t: real, n: real, lo: real, hi: real)
    requires n > 0.0 && n * lo <= t <= n * hi
    ensures lo <= t / n <= hi
  {
    assert (t / n) * n == t;
  }

  lemma MeanBounds(g: seq<real>, lo: real, hi: real)
    requires g != []
    requires forall i :: 0 <= i < |g| ==> lo <= g[i] <= hi
    ensures lo <= Mean(g) <= hi
  {
    SumBetween(g, lo, hi);
    DivBetween(Sum(g), |g| as real, lo, hi);
  }

  /** `n` copies of `x` added up. */
  function Times(x: real, n: nat): real {
    if n == 0 then 0.0 else x + Times(x, n - 1)
  }

  lemma {:induction false} TimesIsProduct(x: real, n: nat)
    ensures Times(x, n) == x * n as real
  {
    if n > 0 {
      TimesIsProduct(x, n - 1);
    }
  }

  /** The mean added up once per element gives back the sum. */
  lemma MeanTimes(g: seq<real>)
    requires g != []
    ensures Times(Mean(g), |g|) == Sum(g)
  {
    TimesIsProduct(Mean(g), |g|);
    MeanTimesCount(g);
  }

  /** The mean of a non-empty list lies between its minimum and maximum, and the mean
      times the count is the sum. */
  lemma MeanBetweenMinAndMax(g: seq<real>)
    requires g != []
    ensures MinOf(g) <= Mean(g) <= MaxOf(g)
    ensures Mean(g) * |g| as real == Sum(g)
  {
    MeanBounds(g, MinOf(g), MaxOf(g));
    MeanTimesCount(g);
  }

  /** The statistics dictionary of a non-empty series and its gaps; with no gaps the
      three gap figures are 0. */
  function Summarize(s: seq<Point>, gaps: seq<real>): Stats
    requires s != []
  {
    Stats(
      startDate := s[0].date,
      endDate := s[|s| - 1].date,
      totalPoints := |s|,
      avgGapMinutes := if gaps != [] then Mean(gaps) else 0.0,
      minGapMinutes := if gaps != [] then MinOf(gaps) else 0.0,
      maxGapMinutes := if gaps != [] then MaxOf(gaps) else 0.0,
      filteredData := s)
  }

  /** The gap figures of a sorted series with at least two points are ordered. */
  lemma SummarizeGapOrder(s: seq<Point>)
    requires |s| >= 2 && Sorted(s)
    ensures var st := Summarize(s, GapsOf(s));
      0.0 <= st.minGapMinutes <= st.avgGapMinutes <= st.maxGapMinutes
  {
    var g := GapsOf(s);
    assert g != [];
    GapsNonNegative(s);
    assert MinOf(g) in g;
    MeanBetweenMinAndMax(g);
  }

  /** The average gap times the number of gaps is the total time covered. */
  lemma SummarizeGapSum(s: seq<Point>)
    requires |s| >= 2
    ensures Times(Summarize(s, GapsOf(s)).avgGapMinutes, |s| - 1) == Sum(GapsOf(s))
    ensures Sum(GapsOf(s)) == (s[|s| - 1].date - s[0].date) / 60.0
  {
    MeanTimes(GapsOf(s));
    GapsTelescope(s);
  }

  /** What the statistics of a sorted series say about it. */
  lemma SummarizeConsistent(s: seq<Point>)
    requires s != [] && Sorted(s)
    ensures var st := Summarize(s, GapsOf(s));
      && st.totalPoints == |s| && st.filteredData == s
      && st.startDate == s[0].date && st.endDate == s[|s| - 1].date
      && (|s| < 2 ==> st.avgGapMinutes == st.minGapMinutes == st.maxGapMinutes == 0.0)
      && (|s| >= 2 ==>
            && 0.0 <= st.minGapMinutes <= st.avgGapMinutes <= st.maxGapMinutes
            && Times(st.avgGapMinutes, |s| - 1) == Sum(GapsOf(s))
            && Sum(GapsOf(s)) == (st.endDate - st.startDate) / 60.0)
  {
    if |s| >= 2 {
      SummarizeGapOrder(s);
      SummarizeGapSum(s);
    }
  }
}
