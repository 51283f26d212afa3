/** The chronological series: the stable sort by date and the trailing window. */
module Series {
  import opened PriceData

  predicate Sorted(s: seq<Point>) {
    forall i, j :: 0 <= i < j < |s| ==> s[i].date <= s[j].date
  }

  lemma ConsSorted(x: Point, t: seq<Point>)
    requires Sorted(t) && (t != [] ==> x.date <= t[0].date)
    ensures Sorted([x] + t)
  {
    var r := [x] + t;
    forall i, j | 0 <= i < j < |r| ensures r[i].date <= r[j].date {
      if i == 0 {
        assert r[j] == t[j - 1];
        assert t[0].date <= t[j - 1].date || j == 1;
      } else {
        assert r[i] == t[i - 1] && r[j] == t[j - 1];
      }
    }
  }

  /** Inserts `p` before the first point that is not earlier, so that `p` precedes every
      point of `s` with the same date. */
  function Insert(p: Point, s: seq<Point>): (r: seq<Point>)
    requires Sorted(s)
    ensures Sorted(r)
    ensures multiset(r) == multiset(s) + multiset{p}
    ensures r != [] && (r[0] == p || (s != [] && r[0] == s[0]))
  {
    if s == [] || p.date <= s[0].date then
      ConsSorted(p, s);
      [p] + s
    else
      TailSorted(s);
      var rest := Insert(p, s[1..]);
      assert s[1..] != [] ==> s[1..][0] == s[1];
      ConsSorted(s[0], rest);
      assert s == [s[0]] + s[1..];
      [s[0]] + rest
  }

  /** Python's `list.sort(key=date)`, modelled as an insertion sort that is stable
      because each point is inserted ahead of the later points with the same date.
      Being sorted, a permutation of its input and stable (`SortByDateStable`), it gives
      the list every stable sort by date gives. */
  function SortByDate(s: seq<Point>): (r: seq<Point>)
    ensures Sorted(r)
    ensures multiset(r) == multiset(s)
  {
    if s == [] then []
    else
      assert s == [s[0]] + s[1..];
      Insert(s[0], SortByDate(s[1..]))
  }

  /** The points with date `d`, in order. */
  function WithDate(s: seq<Point>, d: real): seq<Point> {
    if s == [] then []
    else (if s[0].date == d then [s[0]] else []) + WithDate(s[1..], d)
  }

  lemma {:induction false} InsertWithDate(p: Point, s: seq<Point>, d: real)
    requires Sorted(s)
    ensures WithDate(Insert(p, s), d) == (if p.date == d then [p] else []) + WithDate(s, d)
  {
    if s == [] || p.date <= s[0].date {
      assert Insert(p, s) == [p] + s;
      assert ([p] + s)[1..] == s;
    } else {
      TailSorted(s);
      var rest := Insert(p, s[1..]);
      assert Insert(p, s) == [s[0]] + rest;
      assert ([s[0]] + rest)[1..] == rest;
      InsertWithDate(p, s[1..], d);
      var head := if s[0].date == d then [s[0]] else [];
      assert WithDate([s[0]] + rest, d) == head + WithDate(rest, d);
      assert WithDate(s, d) == head + WithDate(s[1..], d);
      if p.date == d {
        assert head == [];
        assert WithDate(s, d) == WithDate(s[1..], d);
        assert WithDate(rest, d) == [p] + WithDate(s[1..], d);
        assert WithDate(Insert(p, s), d) == [p] + WithDate(s, d);
      } else {
        assert WithDate(rest, d) == WithDate(s[1..], d);
        assert WithDate(Insert(p, s), d) == WithDate(s, d);
      }
    }
  }

  /** Stability: for every date, the points with that date keep their input order. */
  lemma {:induction false} SortByDateStable(s: seq<Point>, d: real)
    ensures WithDate(SortByDate(s), d) == WithDate(s, d)
  {
    if s != [] {
      SortByDateStable(s[1..], d);
      InsertWithDate(s[0], SortByDate(s[1..]), d);
    }
  }

  /** A series already in date order is left as it is. */
  lemma {:induction false} SortByDateOfSorted(s: seq<Point>)
    requires Sorted(s)
    ensures SortByDate(s) == s
  {
    if s != [] {
      TailSorted(s);
      SortByDateOfSorted(s[1..]);
      assert s == [s[0]] + s[1..];
    }
  }

  /** The trailing window: three years of 365 days, counted back from now. */
  const TrailingWindowSeconds: real := (3 * 365 * 24 * 60 * 60) as real

  function Cutoff(now: real): real {
    now - TrailingWindowSeconds
  }

  /** The points dated at or after the cutoff, in order. */
  function KeepRecent(s: seq<Point>, cutoff: real): (r: seq<Point>)
    ensures |r| <= |s|
    ensures forall p :: p in r <==> p in s && p.date >= cutoff
  {
    if s == [] then []
    else
      var rest := KeepRecent(s[1..], cutoff);
      assert forall p :: p in s <==> p == s[0] || p in s[1..] by {
        assert s == [s[0]] + s[1..];
      }
      if s[0].date >= cutoff then [s[0]] + rest else rest
  }

  /** The window the statistics use: the recent points, or the whole series when no
      point is recent. */
  function Window(s: seq<Point>, cutoff: real): seq<Point> {
    var kept := KeepRecent(s, cutoff);
    if kept == [] then s else kept
  }

  lemma TailSorted(s: seq<Point>)
    requires Sorted(s) && s != []
    ensures Sorted(s[1..])
  {
    forall i, j | 0 <= i < j < |s[1..]| ensures s[1..][i].date <= s[1..][j].date {
      assert s[1..][i] == s[i + 1] && s[1..][j] == s[j + 1];
    }
  }

  lemma {:induction false} KeepRecentAll(s: seq<Point>, cutoff: real)
    requires forall i :: 0 <= i < |s| ==> s[i].date >= cutoff
    ensures KeepRecent(s, cutoff) == s
  {
    if s != [] {
      assert forall i :: 0 <= i < |s[1..]| ==> s[1..][i] == s[i + 1];
      KeepRecentAll(s[1..], cutoff);
      assert s == [s[0]] + s[1..];
    }
  }

  /** On a sorted series the recent points are a suffix, and every point before it is
      older than the cutoff. */
  lemma {:induction false} KeepRecentSuffix(s: seq<Point>, cutoff: real)
    requires Sorted(s)
    ensures var k := |s| - |KeepRecent(s, cutoff)|;
      KeepRecent(s, cutoff) == s[k..] && forall i :: 0 <= i < k ==> s[i].date < cutoff
  {
    if s == [] {
    } else if s[0].date >= cutoff {
      KeepRecentAll(s, cutoff);
    } else {
      TailSorted(s);
      KeepRecentSuffix(s[1..], cutoff);
      var r := KeepRecent(s, cutoff);
      assert r == KeepRecent(s[1..], cutoff);
      var k := |s| - |r|;
      assert s[k..] == s[1..][k - 1..];
      forall i | 0 <= i < k ensures s[i].date < cutoff {
        if i > 0 { assert s[i] == s[1..][i - 1]; }
      }
    }
  }

  lemma KeepRecentSorted(s: seq<Point>, cutoff: real)
    requires Sorted(s)
    ensures Sorted(KeepRecent(s, cutoff))
  {
    KeepRecentSuffix(s, cutoff);
  }

  /** Filtering again with the same cutoff removes nothing more. */
  lemma {:induction false} KeepRecentIdempotent(s: seq<Point>, cutoff: real)
    ensures KeepRecent(KeepRecent(s, cutoff), cutoff) == KeepRecent(s, cutoff)
  {
    if s != [] {
      KeepRecentIdempotent(s[1..], cutoff);
      var rest := KeepRecent(s[1..], cutoff);
      if s[0].date >= cutoff {
        assert ([s[0]] + rest)[1..] == rest;
      }
    }
  }

  /** When every point is recent, the window is the whole series. */
  lemma WindowAllRecent(s: seq<Point>, cutoff: real)
    requires forall i :: 0 <= i < |s| ==> s[i].date >= cutoff
    ensures Window(s, cutoff) == s
  {
    KeepRecentAll(s, cutoff);
  }

  lemma WindowIdempotent(s: seq<Point>, cutoff: real)
    ensures Window(Window(s, cutoff), cutoff) == Window(s, cutoff)
  {
    KeepRecentIdempotent(s, cutoff);
  }

  /** The window is the recent points when there are any, and otherwise the whole
      series; it is never empty when the series is not. */
  lemma WindowCases(s: seq<Point>, cutoff: real)
    ensures (exists p :: p in s && p.date >= cutoff) ==>
              Window(s, cutoff) == KeepRecent(s, cutoff)
              && forall i :: 0 <= i < |Window(s, cutoff)| ==> Window(s, cutoff)[i].date >= cutoff
    ensures (forall p :: p in s ==> p.date < cutoff) ==> Window(s, cutoff) == s
    ensures s != [] ==> Window(s, cutoff) != []
  {
    var kept := KeepRecent(s, cutoff);
    if exists p :: p in s && p.date >= cutoff {
      var p :| p in s && p.date >= cutoff;
      assert p in kept;
      forall i | 0 <= i < |kept| ensures kept[i].date >= cutoff {
        assert kept[i] in kept;
      }
    }
    if kept != [] {
      assert kept[0] in kept;
    }
  }

  lemma WindowSorted(s: seq<Point>, cutoff: real)
    requires Sorted(s)
    ensures Sorted(Window(s, cutoff))
  {
    KeepRecentSorted(s, cutoff);
  }

  /** Everything the analysis relies on about the window of a sorted, non-empty series. */
  lemma WindowOfSorted(s: seq<Point>, cutoff: real)
    requires Sorted(s) && s != []
    ensures var w := Window(s, cutoff);
      && w != [] && Sorted(w) && Window(w, cutoff) == w
      && ((exists p :: p in s && p.date >= cutoff) ==>
            w == KeepRecent(s, cutoff) && forall i :: 0 <= i < |w| ==> w[i].date >= cutoff)
      && ((forall p :: p in s ==> p.date < cutoff) ==> w == s)
  {
    WindowCases(s, cutoff);
    WindowSorted(s, cutoff);
    WindowIdempotent(s, cutoff);
  }
}
