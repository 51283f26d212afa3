/** Record normalisation (the first loop of the analysis) and date derivation
    (the second loop). */
module Normalize {
  import opened PriceData
  import opened FieldParsing

  /** Numeric timestamps above this are taken to be milliseconds. */
  const MillisecondThreshold: real := 10000000000.0

  /** One record: a record with fewer than two fields, an unreadable timestamp or an
      unreadable price is dropped; fields after the second are ignored. */
  function NormalizeRecord(r: Record): Option<Sample> {
    if |r| < 2 then None
    else
      match ParseTimestamp(r[0])
      case None => None
      case Some(ts) =>
        match ParsePrice(r[1])
        case None => None
        case Some(p) => Some(Sample(ts, p))
  }

  /** Numeric fields pass through unchanged, and fields after the second are ignored. */
  lemma NumericRecord(ts: real, price: real, extra: seq<Field>)
    ensures NormalizeRecord([Num(ts), Num(price)] + extra) == Some(Sample(ts, price))
  {
    var r := [Num(ts), Num(price)] + extra;
    assert r[0] == Num(ts) && r[1] == Num(price);
  }

  function Kept(o: Option<Sample>): seq<Sample> {
    match o
    case None => []
    case Some(x) => [x]
  }

  /** The samples that survive normalisation, in input order. */
  function Survivors(rs: seq<Record>): (ss: seq<Sample>)
    ensures |ss| <= |rs|
  {
    if rs == [] then [] else Kept(NormalizeRecord(rs[0])) + Survivors(rs[1..])
  }

  /** Normalisation works record by record: the survivors of a concatenation are the
      survivors of its parts. */
  lemma {:induction false} SurvivorsAppend(a: seq<Record>, b: seq<Record>)
    ensures Survivors(a + b) == Survivors(a) + Survivors(b)
  {
    if a == [] {
      assert a + b == b;
    } else {
      assert (a + b)[0] == a[0];
      assert (a + b)[1..] == a[1..] + b;
      SurvivorsAppend(a[1..], b);
    }
  }

  lemma SurvivorsSnoc(rs: seq<Record>, r: Record)
    ensures Survivors(rs + [r]) == Survivors(rs) + Kept(NormalizeRecord(r))
  {
    SurvivorsAppend(rs, [r]);
    assert [r][1..] == [];
  }

  /** A record that does not normalise (one with fewer than two fields, say) is skipped
      and the records after it are still processed. */
  lemma SkipIsLocal(a: seq<Record>, r: Record, b: seq<Record>)
    requires NormalizeRecord(r).None?
    ensures Survivors(a + [r] + b) == Survivors(a) + Survivors(b)
  {
    SurvivorsAppend(a + [r], b);
    SurvivorsAppend(a, [r]);
    assert [r][1..] == [];
    assert Survivors([r]) == [];
    assert Survivors(a + [r]) == Survivors(a);
  }

  lemma ShortRecordSkipped(a: seq<Record>, r: Record, b: seq<Record>)
    requires |r| < 2
    ensures Survivors(a + [r] + b) == Survivors(a) + Survivors(b)
  {
    SkipIsLocal(a, r, b);
  }

  /** A sample survives exactly when some record normalises to it. */
  lemma {:induction false} SurvivorsMembership(rs: seq<Record>, x: Sample)
    ensures x in Survivors(rs) <==> exists i :: 0 <= i < |rs| && NormalizeRecord(rs[i]) == Some(x)
  {
    if rs != [] {
      SurvivorsMembership(rs[1..], x);
      if x in Survivors(rs[1..]) {
        var i :| 0 <= i < |rs[1..]| && NormalizeRecord(rs[1..][i]) == Some(x);
        assert NormalizeRecord(rs[i + 1]) == Some(x);
      }
      if exists i :: 0 <= i < |rs| && NormalizeRecord(rs[i]) == Some(x) {
        var i :| 0 <= i < |rs| && NormalizeRecord(rs[i]) == Some(x);
        if i > 0 { assert rs[1..][i - 1] == rs[i]; }
      }
    }
  }

  /** The first loop: appends the timestamp and price of every surviving record. */
  method CollectSamples(rs: seq<Record>) returns (timestamps: seq<real>, prices: seq<real>)
    ensures |timestamps| == |prices| == |Survivors(rs)|
    ensures forall i :: 0 <= i < |timestamps| ==> Survivors(rs)[i] == Sample(timestamps[i], prices[i])
  {
    timestamps, prices := [], [];
    for i := 0 to |rs|
      invariant |timestamps| == |prices| == |Survivors(rs[..i])|
      invariant forall k :: 0 <= k < |timestamps| ==> Survivors(rs[..i])[k] == Sample(timestamps[k], prices[k])
    {
      var point := rs[i];
      assert rs[..i + 1] == rs[..i] + [point];
      SurvivorsSnoc(rs[..i], point);
      if |point| < 2 {
        continue;
      }
      var ts := ParseTimestamp(point[0]);
      if ts.None? {
        continue;
      }
      var price := ParsePrice(point[1]);
      if price.None? {
        continue;
      }
      assert NormalizeRecord(point) == Some(Sample(ts.value, price.value));
      timestamps := timestamps + [ts.value];
      prices := prices + [price.value];
    }
    assert rs[..|rs|] == rs;
  }

  /** The instant, in seconds, a stored timestamp stands for. */
  function DateOf(ts: real): real {
    if ts > MillisecondThreshold then ts / 1000.0 else ts
  }

  /** Values above the threshold are scaled from milliseconds; others are seconds. */
  lemma DateOfScaling(ts: real)
    ensures ts > MillisecondThreshold ==> DateOf(ts) * 1000.0 == ts
    ensures ts <= MillisecondThreshold ==> DateOf(ts) == ts
  {
  }

  lemma MillisecondExample()
    ensures DateOf(1700000000000.0) == 1700000000.0
    ensures DateOf(1700000000.0) == 1700000000.0
  {
  }

  /** Whether the date loop accepts the stored timestamp: `fromtimestamp` raises for an
      instant outside the range of `datetime`. */
  predicate HasDate(ts: real) {
    CivilTime.Representable(DateOf(ts))
  }

  /** The dates the second loop collects: one per timestamp that converts, in order;
      a timestamp that does not convert leaves no entry. */
  function DatesOf(timestamps: seq<real>): (dates: seq<real>)
    ensures |dates| <= |timestamps|
  {
    if timestamps == [] then []
    else
      var last := timestamps[|timestamps| - 1];
      DatesOf(timestamps[..|timestamps| - 1]) + (if HasDate(last) then [DateOf(last)] else [])
  }

  /** When every timestamp converts there is one date per timestamp, in step with it. */
  lemma {:induction false} DatesOfAll(timestamps: seq<real>)
    requires forall i :: 0 <= i < |timestamps| ==> HasDate(timestamps[i])
    ensures |DatesOf(timestamps)| == |timestamps|
    ensures forall i :: 0 <= i < |timestamps| ==> DatesOf(timestamps)[i] == DateOf(timestamps[i])
  {
    if timestamps != [] {
      var init := timestamps[..|timestamps| - 1];
      assert forall i :: 0 <= i < |init| ==> init[i] == timestamps[i];
      DatesOfAll(init);
    }
  }

  /** No date is collected exactly when no timestamp converts. */
  lemma {:induction false} DatesOfEmpty(timestamps: seq<real>)
    ensures DatesOf(timestamps) == [] <==> forall i :: 0 <= i < |timestamps| ==> !HasDate(timestamps[i])
  {
    if timestamps != [] {
      var init := timestamps[..|timestamps| - 1];
      assert forall i :: 0 <= i < |init| ==> init[i] == timestamps[i];
      DatesOfEmpty(init);
    }
  }

  /** A timestamp that does not convert shifts every later date one place to the front. */
  lemma DatesOfSkips(a: seq<real>, ts: real, b: seq<real>)
    requires !HasDate(ts)
    ensures DatesOf(a + [ts] + b) == DatesOf(a) + DatesOf(b)
  {
    DatesOfAppend(a + [ts], b);
    DatesOfAppend(a, [ts]);
    assert [ts][..0] == [];
    assert DatesOf([ts]) == [];
    assert DatesOf(a + [ts]) == DatesOf(a);
  }

  lemma {:induction false} DatesOfAppend(a: seq<real>, b: seq<real>)
    ensures DatesOf(a + b) == DatesOf(a) + DatesOf(b)
    decreases |b|
  {
    if b == [] {
      assert a + b == a;
    } else {
      var init := b[..|b| - 1];
      assert (a + b)[..|a + b| - 1] == a + init;
      DatesOfAppend(a, init);
    }
  }

  /** The second loop. */
  method ToDates(timestamps: seq<real>) returns (dates: seq<real>)
    ensures dates == DatesOf(timestamps)
    ensures (forall i :: 0 <= i < |timestamps| ==> HasDate(timestamps[i])) ==>
      |dates| == |timestamps| && forall i :: 0 <= i < |dates| ==> dates[i] == DateOf(timestamps[i])
  {
    dates := [];
    for i := 0 to |timestamps|
      invariant dates == DatesOf(timestamps[..i])
    {
      assert timestamps[..i + 1][..i] == timestamps[..i];
      var ts := timestamps[i];
      if ts > MillisecondThreshold {
        ts := ts / 1000.0;
      }
      if CivilTime.Representable(ts) {
        dates := dates + [ts];
      }
    }
    assert timestamps[..|timestamps|] == timestamps;
    if forall i :: 0 <= i < |timestamps| ==> HasDate(timestamps[i]) {
      DatesOfAll(timestamps);
    }
  }

  /** A stored sample with its date: the stored timestamp keeps its original scale. */
  function ToPoint(s: Sample): Point {
    Point(s.timestamp, s.price, DateOf(s.timestamp))
  }

  /** Every sample with its date. */
  function PointsOf(ss: seq<Sample>): (ps: seq<Point>)
    ensures |ps| == |ss|
  {
    seq(|ss|, i requires 0 <= i < |ss| => ToPoint(ss[i]))
  }

  /** The samples whose timestamps convert, each with its own date: a sample whose
      date cannot be formed is dropped whole. */
  function DatedPoints(ss: seq<Sample>): (ps: seq<Point>)
    ensures |ps| <= |ss|
  {
    if ss == [] then []
    else (if HasDate(ss[0].timestamp) then [ToPoint(ss[0])] else []) + DatedPoints(ss[1..])
  }

  /** A point is dated exactly when it is the point of a sample whose date converts. */
  lemma {:induction false} DatedPointsMembership(ss: seq<Sample>, p: Point)
    ensures p in DatedPoints(ss) <==>
      exists k :: 0 <= k < |ss| && HasDate(ss[k].timestamp) && p == ToPoint(ss[k])
  {
    if ss != [] {
      DatedPointsMembership(ss[1..], p);
      if exists k :: 0 <= k < |ss[1..]| && HasDate(ss[1..][k].timestamp) && p == ToPoint(ss[1..][k]) {
        var k :| 0 <= k < |ss[1..]| && HasDate(ss[1..][k].timestamp) && p == ToPoint(ss[1..][k]);
        assert ss[k + 1] == ss[1..][k];
      }
      if exists k :: 0 <= k < |ss| && HasDate(ss[k].timestamp) && p == ToPoint(ss[k]) {
        var k :| 0 <= k < |ss| && HasDate(ss[k].timestamp) && p == ToPoint(ss[k]);
        if k > 0 { assert ss[1..][k - 1] == ss[k]; }
      }
    }
  }

  /** No point is dated exactly when no sample's timestamp converts. */
  lemma {:induction false} DatedPointsEmpty(ss: seq<Sample>)
    ensures DatedPoints(ss) == [] <==> forall k :: 0 <= k < |ss| ==> !HasDate(ss[k].timestamp)
  {
    if ss != [] {
      DatedPointsEmpty(ss[1..]);
      assert forall k :: 0 <= k < |ss| - 1 ==> ss[1..][k] == ss[k + 1];
    }
  }

  /** When every date converts, no sample is dropped. */
  lemma {:induction false} DatedPointsAll(ss: seq<Sample>)
    requires forall k :: 0 <= k < |ss| ==> HasDate(ss[k].timestamp)
    ensures DatedPoints(ss) == PointsOf(ss)
  {
    if ss != [] {
      assert forall k :: 0 <= k < |ss| - 1 ==> ss[1..][k] == ss[k + 1];
      DatedPointsAll(ss[1..]);
      assert PointsOf(ss) == [ToPoint(ss[0])] + PointsOf(ss[1..]);
    }
  }
}
