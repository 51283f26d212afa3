/** Parsers for the two text fields of a raw record: the hour-granular date text
    ("Nov 14 2023 01: +0") and the currency text ("$12,50"). */
module FieldParsing {
  import opened PriceData
  import CivilTime

  // ---------------------------------------------------------------------------
  // Characters and digit strings

  predicate IsDigit(c: char) { '0' <= c <= '9' }

  /** The ASCII characters Python's `\s` matches on text: space, tab, LF, VT, FF, CR
      and the four separators FS, GS, RS and US. */
  predicate IsSpace(c: char) { c == ' ' || 9 <= c as int <= 13 || 28 <= c as int <= 31 }

  predicate AllDigits(s: string) { forall i :: 0 <= i < |s| ==> IsDigit(s[i]) }

  function DigitValue(c: char): nat
    requires IsDigit(c)
  {
    c as int - '0' as int
  }

  function DigitChar(d: int): (c: char)
    requires 0 <= d <= 9
    ensures IsDigit(c) && DigitValue(c) == d
  {
    ('0' as int + d) as char
  }

  function Pow10(n: nat): (p: nat)
    ensures p >= 1
  {
    if n == 0 then 1 else 10 * Pow10(n - 1)
  }

  /** The value of a string of decimal digits, most significant first. */
  function DigitsValue(s: string): nat
    requires AllDigits(s)
  {
    if s == [] then 0 else 10 * DigitsValue(s[..|s| - 1]) + DigitValue(s[|s| - 1])
  }

  /** Length of the longest prefix of whitespace. */
  function SpacePrefix(s: string): (n: nat)
    ensures n <= |s|
    ensures forall i :: 0 <= i < n ==> IsSpace(s[i])
    ensures n < |s| ==> !IsSpace(s[n])
  {
    if s != [] && IsSpace(s[0]) then 1 + SpacePrefix(s[1..]) else 0
  }

  /** Length of the longest prefix of digits. */
  function DigitPrefix(s: string): (n: nat)
    ensures n <= |s|
    ensures AllDigits(s[..n])
    ensures n < |s| ==> !IsDigit(s[n])
  {
    if s != [] && IsDigit(s[0]) then
      var n := 1 + DigitPrefix(s[1..]);
      assert s[..n] == [s[0]] + s[1..][..n - 1];
      n
    else 0
  }

  /** Decimal representation of a natural number, without leading zeros. */
  function Digits(n: nat): (s: string)
    ensures AllDigits(s) && |s| >= 1
  {
    if n < 10 then [DigitChar(n)] else Digits(n / 10) + [DigitChar(n % 10)]
  }

  /** Two-digit zero-padded representation, as `%d` and `%H` print them. */
  function Pad2(n: nat): (s: string)
    requires n < 100
    ensures AllDigits(s) && |s| == 2
  {
    [DigitChar(n / 10), DigitChar(n % 10)]
  }

  /** Four-digit zero-padded representation, as `%Y` prints it. */
  function Pad4(n: nat): (s: string)
    requires n < 10000
    ensures AllDigits(s) && |s| == 4
  {
    [DigitChar(n / 1000), DigitChar(n / 100 % 10), DigitChar(n / 10 % 10), DigitChar(n % 10)]
  }

  lemma {:induction false} DigitsRoundTrip(n: nat)
    ensures DigitsValue(Digits(n)) == n
  {
    if n >= 10 {
      var s := Digits(n);
      assert s[..|s| - 1] == Digits(n / 10);
      DigitsRoundTrip(n / 10);
    }
  }

  /** Appending a digit shifts the value one place and adds the digit. */
  lemma DigitsValueSnoc(s: string, d: int)
    requires AllDigits(s) && 0 <= d <= 9
    ensures AllDigits(s + [DigitChar(d)])
    ensures DigitsValue(s + [DigitChar(d)]) == 10 * DigitsValue(s) + d
  {
    assert (s + [DigitChar(d)])[..|s|] == s;
  }

  lemma Pad2RoundTrip(n: nat)
    requires n < 100
    ensures DigitsValue(Pad2(n)) == n
  {
    DigitsValueSnoc([], n / 10);
    assert [] + [DigitChar(n / 10)] == [DigitChar(n / 10)];
    DigitsValueSnoc([DigitChar(n / 10)], n % 10);
    assert Pad2(n) == [DigitChar(n / 10)] + [DigitChar(n % 10)];
  }

  lemma Pad4Places(n: nat)
    ensures 10 * (n / 1000) + n / 100 % 10 == n / 100
    ensures 10 * (n / 100) + n / 10 % 10 == n / 10
    ensures 10 * (n / 10) + n % 10 == n
  {
  }

  lemma Pad4RoundTrip(n: nat)
    requires n < 10000
    ensures DigitsValue(Pad4(n)) == n
  {
    var thousands, hundreds, tens := n / 1000, n / 100, n / 10;
    Pad4Places(n);
    var s1 := [DigitChar(thousands)];
    DigitsValueSnoc([], thousands);
    assert [] + s1 == s1;
    var s2 := s1 + [DigitChar(hundreds % 10)];
    DigitsValueSnoc(s1, hundreds % 10);
    var s3 := s2 + [DigitChar(tens % 10)];
    DigitsValueSnoc(s2, tens % 10);
    DigitsValueSnoc(s3, n % 10);
    assert Pad4(n) == s3 + [DigitChar(n % 10)];
  }

  // ---------------------------------------------------------------------------
  // Removal of the offset artifact

  /** Python's `s.replace(pat, "")`: every occurrence found scanning left to right,
      without overlaps, is dropped; text that the removal joins is not rescanned. */
  function RemoveAll(s: string, pat: string): (r: string)
    requires pat != []
    ensures |r| <= |s|
    decreases |s|
  {
    if |s| < |pat| then s
    else if s[..|pat|] == pat then RemoveAll(s[|pat|..], pat)
    else [s[0]] + RemoveAll(s[1..], pat)
  }

  /** The text timestamp with the literal ": +0" and then ": -0" artifacts removed. */
  function CleanStampText(s: string): string {
    RemoveAll(RemoveAll(s, ": +0"), ": -0")
  }

  /** A prefix without the artifact's first character is kept, and the scan goes on
      after it. */
  lemma {:induction false} RemoveAllPrefix(s: string, q: string, pat: string)
    requires pat != [] && pat[0] !in s
    ensures RemoveAll(s + q, pat) == s + RemoveAll(q, pat)
  {
    var t := s + q;
    if s == [] {
      assert t == q;
    } else if |t| < |pat| {
      assert RemoveAll(t, pat) == t;
      assert RemoveAll(q, pat) == q;
    } else {
      assert t[0] == s[0];
      assert t[..|pat|][0] == t[0];
      assert RemoveAll(t, pat) == [t[0]] + RemoveAll(t[1..], pat);
      assert t[1..] == s[1..] + q;
      assert pat[0] !in s[1..] by {
        forall i | 0 <= i < |s| - 1 ensures s[1..][i] != pat[0] {
          assert s[1..][i] == s[i + 1];
        }
      }
      RemoveAllPrefix(s[1..], q, pat);
      assert s == [s[0]] + s[1..];
    }
  }

  /** A text without the artifact's first character is left as it is. */
  lemma RemoveAllAbsent(s: string, pat: string)
    requires pat != [] && pat[0] !in s
    ensures RemoveAll(s, pat) == s
  {
    RemoveAllPrefix(s, [], pat);
    assert s + [] == s;
  }

  /** A trailing artifact is removed and nothing else. */
  lemma RemoveAllTrailing(s: string, pat: string)
    requires pat != [] && pat[0] !in s
    ensures RemoveAll(s + pat, pat) == s
  {
    RemoveAllPrefix(s, pat, pat);
    assert pat[|pat|..] == [];
    assert s + [] == s;
  }

  // ---------------------------------------------------------------------------
  // The hour-granular date text "%b %d %Y %H"

  const MonthAbbrevs: seq<string> :=
    ["Jan", "Feb", "Mar", "Apr", "May", "Jun", "Jul", "Aug", "Sep", "Oct", "Nov", "Dec"]

  function LowerChar(c: char): char {
    if 'A' <= c <= 'Z' then (c as int + 32) as char else c
  }

  function Lower(s: string): (r: string)
    ensures |r| == |s|
  {
    if s == [] then [] else [LowerChar(s[0])] + Lower(s[1..])
  }

  /** The month an abbreviation names, ignoring ASCII case; 0 when it names none. */
  function MonthNumber(name: string): (m: nat)
    ensures m <= 12
  {
    var low := Lower(name);
    if low == "jan" then 1 else if low == "feb" then 2 else if low == "mar" then 3
    else if low == "apr" then 4 else if low == "may" then 5 else if low == "jun" then 6
    else if low == "jul" then 7 else if low == "aug" then 8 else if low == "sep" then 9
    else if low == "oct" then 10 else if low == "nov" then 11 else if low == "dec" then 12
    else 0
  }

  lemma MonthNumberOfAbbrev(m: int)
    requires 1 <= m <= 12
    ensures MonthNumber(MonthAbbrevs[m - 1]) == m
  {
    var a := MonthAbbrevs[m - 1];
    assert Lower(a) == [LowerChar(a[0]), LowerChar(a[1]), LowerChar(a[2])];
  }

  /** The fields a "%b %d %Y %H" text names. */
  datatype HourStamp = HourStamp(year: int, month: int, day: int, hour: int)

  predicate ValidStamp(h: HourStamp) {
    CivilTime.ValidDate(h.year, h.month, h.day) && 0 <= h.hour <= 23
  }

  /** Seconds since the epoch of a stamp, read as UTC. */
  function StampInstant(h: HourStamp): real
    requires ValidStamp(h)
  {
    CivilTime.HourInstant(h.year, h.month, h.day, h.hour) as real
  }

  /** Scans "month-abbreviation day year hour": each separator is one or more
      whitespace characters, the day has one or two digits, the year exactly four,
      the hour one or two, and nothing may follow the hour. The date must exist. */
  function ScanHourStamp(s: string): (r: Option<HourStamp>)
    ensures r.Some? ==> ValidStamp(r.value)
  {
    if |s| < 3 then None else ScanAfterMonth(MonthNumber(s[..3]), s[3..])
  }

  function ScanAfterMonth(month: int, s: string): (r: Option<HourStamp>)
    ensures r.Some? ==> ValidStamp(r.value)
  {
    var w := SpacePrefix(s);
    var t := s[w..];
    var n := DigitPrefix(t);
    if month == 0 || w == 0 || !(1 <= n <= 2) then None
    else ScanAfterDay(month, DigitsValue(t[..n]), t[n..])
  }

  function ScanAfterDay(month: int, day: int, s: string): (r: Option<HourStamp>)
    ensures r.Some? ==> ValidStamp(r.value)
  {
    var w := SpacePrefix(s);
    var t := s[w..];
    var n := DigitPrefix(t);
    if w == 0 || n != 4 then None
    else ScanAfterYear(month, day, DigitsValue(t[..n]), t[n..])
  }

  function ScanAfterYear(month: int, day: int, year: int, s: string): (r: Option<HourStamp>)
    ensures r.Some? ==> ValidStamp(r.value)
  {
    var w := SpacePrefix(s);
    var t := s[w..];
    var n := DigitPrefix(t);
    if w == 0 || !(1 <= n <= 2) || n != |t| then None
    else
      assert t[..n] == t;
      var hour := DigitsValue(t);
      if CivilTime.ValidDate(year, month, day) && hour <= 23
      then Some(HourStamp(year, month, day, hour))
      else None
  }

  function ParseHourStamp(s: string): Option<real> {
    match ScanHourStamp(s)
    case None => None
    case Some(h) => Some(StampInstant(h))
  }

  /** The text as the market page prints it, without the offset artifact. */
  function FormatStamp(h: HourStamp): string
    requires ValidStamp(h)
  {
    MonthAbbrevs[h.month - 1] + StampTail(h)
  }

  /** What follows the month name: day, year and hour, each after one space. */
  function StampTail(h: HourStamp): string
    requires ValidStamp(h)
  {
    " " + Pad2(h.day) + " " + Pad4(h.year) + " " + Pad2(h.hour)
  }

  lemma SpacePrefixOne(b: string)
    requires b != [] && !IsSpace(b[0])
    ensures SpacePrefix(" " + b) == 1
  {
    assert (" " + b)[1..] == b;
  }

  lemma {:induction false} DigitPrefixOf(a: string, b: string)
    requires AllDigits(a) && (b == [] || !IsDigit(b[0]))
    ensures DigitPrefix(a + b) == |a|
  {
    if a != [] {
      assert (a + b)[0] == a[0];
      assert (a + b)[1..] == a[1..] + b;
      DigitPrefixOf(a[1..], b);
    } else {
      assert a + b == b;
    }
  }

  lemma ScanAfterYearOf(h: HourStamp)
    requires ValidStamp(h)
    ensures ScanAfterYear(h.month, h.day, h.year, " " + Pad2(h.hour)) == Some(h)
  {
    var hr := Pad2(h.hour);
    SpacePrefixOne(hr);
    assert (" " + hr)[1..] == hr;
    DigitPrefixOf(hr, []);
    assert hr + [] == hr;
    Pad2RoundTrip(h.hour);
  }

  lemma ScanAfterDayOf(h: HourStamp)
    requires ValidStamp(h)
    ensures ScanAfterDay(h.month, h.day, " " + Pad4(h.year) + " " + Pad2(h.hour)) == Some(h)
  {
    var y, rest := Pad4(h.year), " " + Pad2(h.hour);
    var t := y + rest;
    assert " " + Pad4(h.year) + " " + Pad2(h.hour) == " " + t;
    SpacePrefixOne(t);
    assert (" " + t)[1..] == t;
    DigitPrefixOf(y, rest);
    assert t[..4] == y && t[4..] == rest;
    Pad4RoundTrip(h.year);
    ScanAfterYearOf(h);
  }

  lemma ScanAfterMonthOf(h: HourStamp)
    requires ValidStamp(h)
    ensures ScanAfterMonth(h.month, StampTail(h)) == Some(h)
  {
    var d, rest := Pad2(h.day), " " + Pad4(h.year) + " " + Pad2(h.hour);
    var t := d + rest;
    assert StampTail(h) == " " + t;
    SpacePrefixOne(t);
    assert (" " + t)[1..] == t;
    DigitPrefixOf(d, rest);
    assert t[..2] == d && t[2..] == rest;
    Pad2RoundTrip(h.day);
    ScanAfterDayOf(h);
  }

  /** Every date the page can print scans back to the same fields. */
  lemma ScanFormatStamp(h: HourStamp)
    requires ValidStamp(h)
    ensures ScanHourStamp(FormatStamp(h)) == Some(h)
  {
    var m, rest := MonthAbbrevs[h.month - 1], StampTail(h);
    var s := FormatStamp(h);
    assert s == m + rest;
    assert |m| == 3;
    assert s[..3] == m && s[3..] == rest;
    MonthNumberOfAbbrev(h.month);
    ScanAfterMonthOf(h);
  }

  lemma NoColonInStamp(h: HourStamp)
    requires ValidStamp(h)
    ensures ':' !in FormatStamp(h)
  {
    var m := MonthAbbrevs[h.month - 1];
    assert ':' !in m;
    var s := FormatStamp(h);
    forall i | 0 <= i < |s| ensures s[i] != ':' {
      var d, y, hr := Pad2(h.day), Pad4(h.year), Pad2(h.hour);
      assert s == m + " " + d + " " + y + " " + hr;
      if i >= 3 && i < 4 + |d| + 1 + |y| + 1 + |hr| {
        assert i < 3 + 1 + 2 ==> i == 3 || s[i] == d[i - 4];
      }
    }
  }

  lemma ParseFormatStamp(h: HourStamp)
    requires ValidStamp(h)
    ensures ParseHourStamp(FormatStamp(h)) == Some(StampInstant(h))
  {
    ScanFormatStamp(h);
  }

  lemma CleanStampPlain(s: string)
    requires ':' !in s
    ensures CleanStampText(s) == s
  {
    RemoveAllAbsent(s, ": +0");
    RemoveAllAbsent(s, ": -0");
  }

  lemma CleanStampPlus(s: string)
    requires ':' !in s
    ensures CleanStampText(s + ": +0") == s
  {
    RemoveAllTrailing(s, ": +0");
    RemoveAllAbsent(s, ": -0");
  }

  lemma CleanStampMinus(s: string)
    requires ':' !in s
    ensures CleanStampText(s + ": -0") == s
  {
    var q := ": -0";
    RemoveAllPrefix(s, q, ": +0");
    assert q[..4] == q;
    assert q[2] != ": +0"[2];
    assert RemoveAll(q, ": +0") == [q[0]] + RemoveAll(q[1..], ": +0");
    assert RemoveAll(s + q, ": +0") == s + q;
    RemoveAllTrailing(s, ": -0");
  }

  /** A date text is read the same with or without either offset artifact. */
  lemma ParseStampWithArtifact(h: HourStamp)
    requires ValidStamp(h)
    ensures ParseTimestamp(Text(FormatStamp(h))) == Some(StampInstant(h))
    ensures ParseTimestamp(Text(FormatStamp(h) + ": +0")) == Some(StampInstant(h))
    ensures ParseTimestamp(Text(FormatStamp(h) + ": -0")) == Some(StampInstant(h))
  {
    var s := FormatStamp(h);
    NoColonInStamp(h);
    ParseFormatStamp(h);
    CleanStampPlain(s);
    CleanStampPlus(s);
    CleanStampMinus(s);
  }

  /** A stamp in the page's format: 14 November 2023, 22:00 UTC. */
  lemma ParseStampExample()
    ensures ParseTimestamp(Text("Nov 14 2023 22: +0")) == Some(1699999200.0)
  {
    var h := HourStamp(2023, 11, 14, 22);
    assert Pad2(14) == "14";
    assert Pad4(2023) == "2023";
    assert Pad2(22) == "22";
    assert StampTail(h) == " 14 2023 22";
    assert MonthAbbrevs[10] == "Nov";
    assert FormatStamp(h) == "Nov 14 2023 22";
    assert FormatStamp(h) + ": +0" == "Nov 14 2023 22: +0";
    ExampleInstant();
    ParseStampWithArtifact(h);
  }

  lemma ExampleInstant()
    ensures ValidStamp(HourStamp(2023, 11, 14, 22))
    ensures StampInstant(HourStamp(2023, 11, 14, 22)) == 1699999200.0
  {
  }

  /** A non-empty run of whitespace. */
  predicate IsSpaces(w: string) {
    w != [] && forall i :: 0 <= i < |w| ==> IsSpace(w[i])
  }

  /** What follows the month name in an accepted text: whitespace, one or two day
      digits, whitespace, four year digits, whitespace, one or two hour digits. */
  predicate StampLayout(t: string, w1: string, d: string, w2: string, y: string, w3: string, hr: string) {
    t == w1 + d + w2 + y + w3 + hr
    && IsSpaces(w1) && IsSpaces(w2) && IsSpaces(w3)
    && AllDigits(d) && AllDigits(y) && AllDigits(hr)
    && 1 <= |d| <= 2 && |y| == 4 && 1 <= |hr| <= 2
  }

  /** The fields a month name and the three digit runs name. */
  function LayoutStamp(m: string, d: string, y: string, hr: string): HourStamp
    requires AllDigits(d) && AllDigits(y) && AllDigits(hr)
  {
    HourStamp(DigitsValue(y), MonthNumber(m), DigitsValue(d), DigitsValue(hr))
  }

  lemma {:induction false} SpacePrefixOf(a: string, b: string)
    requires forall i :: 0 <= i < |a| ==> IsSpace(a[i])
    requires b == [] || !IsSpace(b[0])
    ensures SpacePrefix(a + b) == |a|
  {
    if a != [] {
      assert (a + b)[0] == a[0];
      assert (a + b)[1..] == a[1..] + b;
      assert forall i :: 0 <= i < |a| - 1 ==> a[1..][i] == a[i + 1];
      SpacePrefixOf(a[1..], b);
    } else {
      assert a + b == b;
    }
  }

  /** Whitespace, digits and a rest that does not start with a digit are split back
      into those three parts by the scanner's two prefix lengths. */
  lemma RunOf(w: string, d: string, r: string)
    requires IsSpaces(w) && AllDigits(d) && d != [] && (r == [] || !IsDigit(r[0]))
    ensures SpacePrefix(w + d + r) == |w| && (w + d + r)[|w|..] == d + r
    ensures DigitPrefix(d + r) == |d| && (d + r)[..|d|] == d && (d + r)[|d|..] == r
  {
    assert w + d + r == w + (d + r);
    assert (d + r)[0] == d[0];
    SpacePrefixOf(w, d + r);
    DigitPrefixOf(d, r);
  }

  /** The scanner's whitespace run, digit run and rest of a text. */
  lemma SplitRun(s: string) returns (w: string, d: string, r: string)
    ensures s == w + d + r && |w| == SpacePrefix(s)
    ensures forall i :: 0 <= i < |w| ==> IsSpace(w[i])
    ensures AllDigits(d) && |d| == DigitPrefix(s[|w|..])
    ensures d == s[|w|..][..|d|] && r == s[|w|..][|d|..]
    ensures r == [] || !IsDigit(r[0])
  {
    var k := SpacePrefix(s);
    var t := s[k..];
    var n := DigitPrefix(t);
    w, d, r := s[..k], t[..n], t[n..];
    var u := w + d + r;
    assert |u| == |s|;
    forall i | 0 <= i < |s| ensures u[i] == s[i] {
      if i < k {
      } else if i < k + n {
        assert u[i] == d[i - k] == t[i - k];
      } else {
        assert u[i] == r[i - k - n] == t[i - k];
      }
    }
  }

  lemma ScanAfterYearLayout(month: int, day: int, year: int, w3: string, hr: string)
    requires IsSpaces(w3) && AllDigits(hr) && 1 <= |hr| <= 2
    ensures ScanAfterYear(month, day, year, w3 + hr) ==
      if CivilTime.ValidDate(year, month, day) && DigitsValue(hr) <= 23
      then Some(HourStamp(year, month, day, DigitsValue(hr))) else None
  {
    RunOf(w3, hr, []);
    assert w3 + hr + [] == w3 + hr && hr + [] == hr;
  }

  lemma ScanAfterDayLayout(month: int, day: int, w2: string, y: string, w3: string, hr: string)
    requires IsSpaces(w2) && AllDigits(y) && |y| == 4
    requires IsSpaces(w3) && AllDigits(hr) && 1 <= |hr| <= 2
    ensures ScanAfterDay(month, day, w2 + y + w3 + hr) ==
      ScanAfterYear(month, day, DigitsValue(y), w3 + hr)
  {
    var r := w3 + hr;
    assert r[0] == w3[0];
    RunOf(w2, y, r);
    assert w2 + y + w3 + hr == w2 + y + r;
  }

  lemma ScanAfterMonthLayout(month: int, w1: string, d: string, rest: string)
    requires month != 0 && IsSpaces(w1) && AllDigits(d) && 1 <= |d| <= 2
    requires rest != [] && IsSpace(rest[0])
    ensures ScanAfterMonth(month, w1 + d + rest) == ScanAfterDay(month, DigitsValue(d), rest)
  {
    RunOf(w1, d, rest);
  }

  /** A month name followed by the layout scans to the fields it names exactly when
      those fields form a real date and hour. */
  lemma ScanStampLayout(m: string, t: string, w1: string, d: string, w2: string, y: string, w3: string, hr: string)
    requires |m| == 3 && StampLayout(t, w1, d, w2, y, w3, hr)
    ensures ScanHourStamp(m + t) ==
      if ValidStamp(LayoutStamp(m, d, y, hr)) then Some(LayoutStamp(m, d, y, hr)) else None
  {
    var s := m + t;
    assert s[..3] == m && s[3..] == t;
    var month := MonthNumber(m);
    if month != 0 {
      var rest := w2 + y + w3 + hr;
      assert t == w1 + d + rest;
      assert rest[0] == w2[0];
      ScanAfterMonthLayout(month, w1, d, rest);
      ScanAfterDayLayout(month, DigitsValue(d), w2, y, w3, hr);
      ScanAfterYearLayout(month, DigitsValue(d), DigitsValue(y), w3, hr);
    }
  }

  lemma MonthStep(month: int, t: string) returns (w1: string, d: string, rest: string)
    requires ScanAfterMonth(month, t).Some?
    ensures t == w1 + d + rest && IsSpaces(w1) && AllDigits(d) && 1 <= |d| <= 2
    ensures ScanAfterMonth(month, t) == ScanAfterDay(month, DigitsValue(d), rest)
  {
    w1, d, rest := SplitRun(t);
  }

  lemma DayStep(month: int, day: int, t: string) returns (w2: string, y: string, rest: string)
    requires ScanAfterDay(month, day, t).Some?
    ensures t == w2 + y + rest && IsSpaces(w2) && AllDigits(y) && |y| == 4
    ensures ScanAfterDay(month, day, t) == ScanAfterYear(month, day, DigitsValue(y), rest)
  {
    w2, y, rest := SplitRun(t);
  }

  lemma YearStep(month: int, day: int, year: int, t: string) returns (w3: string, hr: string)
    requires ScanAfterYear(month, day, year, t).Some?
    ensures t == w3 + hr && IsSpaces(w3) && AllDigits(hr) && 1 <= |hr| <= 2
  {
    var r;
    w3, hr, r := SplitRun(t);
    assert r == [];
    assert t == w3 + hr;
  }

  lemma Regroup(t: string, w1: string, d: string, r1: string, w2: string, y: string, r2: string, w3: string, hr: string)
    requires t == w1 + d + r1 && r1 == w2 + y + r2 && r2 == w3 + hr
    ensures t == w1 + d + w2 + y + w3 + hr
  {
    assert w1 + d + w2 + y + w3 + hr == (w1 + d) + (w2 + y + w3 + hr);
    assert w2 + y + w3 + hr == (w2 + y) + (w3 + hr);
  }

  /** The layout the scanner found after the month name of an accepted text. */
  lemma LayoutAfter(month: int, t: string) returns (w1: string, d: string, w2: string, y: string, w3: string, hr: string)
    requires ScanAfterMonth(month, t).Some?
    ensures StampLayout(t, w1, d, w2, y, w3, hr)
  {
    var r1, r2;
    w1, d, r1 := MonthStep(month, t);
    w2, y, r2 := DayStep(month, DigitsValue(d), r1);
    w3, hr := YearStep(month, DigitsValue(d), DigitsValue(y), r2);
    Regroup(t, w1, d, r1, w2, y, r2, w3, hr);
  }

  lemma LayoutOf(m: string, t: string, h: HourStamp) returns (w1: string, d: string, w2: string, y: string, w3: string, hr: string)
    requires |m| == 3 && ScanHourStamp(m + t) == Some(h)
    ensures StampLayout(t, w1, d, w2, y, w3, hr) && h == LayoutStamp(m, d, y, hr)
  {
    assert (m + t)[..3] == m && (m + t)[3..] == t;
    w1, d, w2, y, w3, hr := LayoutAfter(MonthNumber(m), t);
    ScanStampLayout(m, t, w1, d, w2, y, w3, hr);
  }

  lemma SplitMonth(s: string)
    requires ScanHourStamp(s).Some?
    ensures |s| >= 3 && s[..3] + s[3..] == s
  {
  }

  /** Every accepted text is a month name followed by the layout, and the stamp holds
      the month it names and the values of its three digit runs. */
  lemma ScanHourStampShape(s: string, h: HourStamp)
    requires ScanHourStamp(s) == Some(h)
    ensures |s| >= 3 && exists w1, d, w2, y, w3, hr ::
      StampLayout(s[3..], w1, d, w2, y, w3, hr) && h == LayoutStamp(s[..3], d, y, hr)
  {
    SplitMonth(s);
    var w1, d, w2, y, w3, hr := LayoutOf(s[..3], s[3..], h);
    assert StampLayout(s[3..], w1, d, w2, y, w3, hr) && h == LayoutStamp(s[..3], d, y, hr);
  }

  /** Text that is not a month abbreviation is never a timestamp. */
  lemma ParseStampRejectsWord()
    ensures ParseTimestamp(Text("bad")) == None
  {
    assert "bad"[..3] == "bad";
    var t := "bad";
    assert t[0] !in ": +0" && t[1] !in ": +0" && t[2] !in ": +0";
    CleanStampPlain(t);
    assert Lower(t) == "bad";
  }

  // ---------------------------------------------------------------------------
  // The currency text

  /** Drops '$', '€' and '£' and turns every ',' into '.'. */
  function CleanPriceText(s: string): (r: string)
    ensures |r| <= |s|
    ensures forall i :: 0 <= i < |r| ==> r[i] != '$' && r[i] != '€' && r[i] != '£' && r[i] != ','
  {
    if s == [] then []
    else
      var rest := CleanPriceText(s[1..]);
      if s[0] == '$' || s[0] == '€' || s[0] == '£' then rest
      else if s[0] == ',' then ['.'] + rest
      else [s[0]] + rest
  }

  /** One character at a time: a currency sign is dropped, a comma becomes a point and
      every other character is kept. With `CleanPriceAppend` this fixes the whole text. */
  lemma CleanPriceChar(c: char)
    ensures CleanPriceText([c]) ==
      if c == '$' || c == '€' || c == '£' then [] else if c == ',' then "." else [c]
  {
    assert [c][1..] == [];
  }

  /** Index of the first '.', or the length when there is none. */
  function PointIndex(s: string): (k: nat)
    ensures k <= |s|
    ensures k < |s| ==> s[k] == '.'
    ensures forall i :: 0 <= i < k ==> s[i] != '.'
  {
    if s == [] || s[0] == '.' then 0 else 1 + PointIndex(s[1..])
  }

  /** A decimal number: an optional sign, then an unsigned decimal. */
  function ParseDecimal(s: string): Option<real> {
    if s != [] && (s[0] == '+' || s[0] == '-') then
      match ParseUnsigned(s[1..])
      case None => None
      case Some(v) => Some(if s[0] == '-' then -v else v)
    else ParseUnsigned(s)
  }

  /** Digits with at most one '.', and at least one digit. */
  function ParseUnsigned(s: string): Option<real> {
    var k := PointIndex(s);
    var whole := s[..k];
    var frac := if k < |s| then s[k + 1..] else [];
    if AllDigits(whole) && AllDigits(frac) && |whole| + |frac| > 0 then Some(DecimalValue(whole, frac))
    else None
  }

  /** The value of "whole.frac". */
  function DecimalValue(whole: string, frac: string): real
    requires AllDigits(whole) && AllDigits(frac)
  {
    DigitsValue(whole) as real + DigitsValue(frac) as real / Pow10(|frac|) as real
  }

  lemma {:induction false} CleanPriceAppend(a: string, b: string)
    ensures CleanPriceText(a + b) == CleanPriceText(a) + CleanPriceText(b)
  {
    if a == [] {
      assert a + b == b;
    } else {
      assert (a + b)[0] == a[0];
      assert (a + b)[1..] == a[1..] + b;
      CleanPriceAppend(a[1..], b);
    }
  }

  lemma {:induction false} CleanPriceDigits(a: string)
    requires AllDigits(a)
    ensures CleanPriceText(a) == a
  {
    if a != [] {
      CleanPriceDigits(a[1..]);
      assert a == [a[0]] + a[1..];
    }
  }

  lemma {:induction false} PointIndexOf(a: string, b: string)
    requires '.' !in a && b != [] && b[0] == '.'
    ensures PointIndex(a + b) == |a|
  {
    if a == [] {
      assert a + b == b;
    } else {
      assert (a + b)[0] == a[0];
      assert (a + b)[1..] == a[1..] + b;
      assert '.' !in a[1..] by {
        forall i | 0 <= i < |a| - 1 ensures a[1..][i] != '.' { assert a[1..][i] == a[i + 1]; }
      }
      PointIndexOf(a[1..], b);
    }
  }

  lemma ParseUnsignedParts(a: string, b: string)
    requires AllDigits(a) && a != [] && AllDigits(b)
    ensures ParseUnsigned(a + "." + b) == Some(DecimalValue(a, b))
  {
    var s := a + "." + b;
    var tail := "." + b;
    assert s == a + tail;
    assert '.' !in a by {
      forall i | 0 <= i < |a| ensures a[i] != '.' { assert IsDigit(a[i]); }
    }
    PointIndexOf(a, tail);
    var k := PointIndex(s);
    assert k == |a| < |s|;
    var whole, frac := s[..k], s[k + 1..];
    assert whole == a;
    assert frac == b;
    assert AllDigits(whole) && AllDigits(frac) && |whole| + |frac| > 0;
  }

  /** "digits.digits" reads as the whole part plus the fraction. */
  lemma ParseDecimalParts(a: string, b: string)
    requires AllDigits(a) && a != [] && AllDigits(b)
    ensures ParseDecimal(a + "." + b) == Some(DecimalValue(a, b))
  {
    var s := a + "." + b;
    assert s[0] == a[0];
    assert IsDigit(a[0]);
    ParseUnsignedParts(a, b);
  }

  /** The page's price text: a dollar sign, the whole dollars, a comma and two cent digits. */
  function FormatPrice(cents: nat): string {
    "$" + Digits(cents / 100) + "," + Pad2(cents % 100)
  }

  lemma CleanFormatPrice(cents: nat)
    ensures CleanPriceText(FormatPrice(cents)) == Digits(cents / 100) + "." + Pad2(cents % 100)
  {
    var w, f := Digits(cents / 100), Pad2(cents % 100);
    CleanPriceAppend("$" + w + ",", f);
    CleanPriceAppend("$" + w, ",");
    CleanPriceAppend("$", w);
    CleanPriceDigits(w);
    CleanPriceDigits(f);
    assert CleanPriceText("$") == [];
    assert CleanPriceText(",") == ".";
    assert [] + w == w;
  }

  /** Whole dollars and two cent digits, read as a decimal, are the price in dollars. */
  lemma CentsValue(dollars: nat, cents: nat)
    requires cents < 100
    ensures dollars as real + cents as real / 100.0 == (100 * dollars + cents) as real / 100.0
  {
  }

  /** The printed dollars and cents, read as a decimal, are the price in dollars. */
  lemma FormattedPriceValue(cents: nat)
    ensures DecimalValue(Digits(cents / 100), Pad2(cents % 100)) == cents as real / 100.0
  {
    var dollars, rest := cents / 100, cents % 100;
    DigitsRoundTrip(dollars);
    Pad2RoundTrip(rest);
    assert Pow10(2) == 100;
    assert DecimalValue(Digits(dollars), Pad2(rest)) == dollars as real + rest as real / 100.0;
    CentsValue(dollars, rest);
    assert 100 * dollars + rest == cents;
  }

  /** Every price the page prints reads back as its value in dollars. */
  lemma PriceRoundTrip(cents: nat)
    ensures ParsePrice(Text(FormatPrice(cents))) == Some(cents as real / 100.0)
  {
    CleanFormatPrice(cents);
    ParseDecimalParts(Digits(cents / 100), Pad2(cents % 100));
    FormattedPriceValue(cents);
  }

  lemma PriceExample()
    ensures ParsePrice(Text("$12,50")) == Some(12.5)
  {
    assert Digits(12) == "12";
    assert Pad2(50) == "50";
    assert FormatPrice(1250) == "$12,50";
    PriceRoundTrip(1250);
  }

  lemma ParseUnsignedTwoPoints(s: string, i: int, j: int)
    requires 0 <= i < j < |s| && s[i] == '.' && s[j] == '.'
    ensures ParseUnsigned(s) == None
  {
    var k := PointIndex(s);
    assert k <= i;
    assert s[k + 1..][j - k - 1] == '.';
  }

  /** A text with two decimal points is never a number. */
  lemma ParseDecimalTwoPoints(s: string, i: int, j: int)
    requires 0 <= i < j < |s| && s[i] == '.' && s[j] == '.'
    ensures ParseDecimal(s) == None
  {
    if s[0] == '+' || s[0] == '-' {
      assert s[1..][i - 1] == '.' && s[1..][j - 1] == '.';
      ParseUnsignedTwoPoints(s[1..], i - 1, j - 1);
    } else {
      ParseUnsignedTwoPoints(s, i, j);
    }
  }

  /** A text holding a comma and a point (a thousands separator, say) is never a price. */
  lemma ParsePriceCommaAndPoint(t: string, i: int, j: int)
    requires 0 <= i < |t| && 0 <= j < |t| && i != j
    requires t[i] == ',' && (t[j] == '.' || t[j] == ',')
    ensures ParsePrice(Text(t)) == None
  {
    var m, n := if i < j then i else j, if i < j then j else i;
    var p, q, r := t[..m], t[m + 1..n], t[n + 1..];
    assert t == p + [t[m]] + q + [t[n]] + r;
    CleanPriceAppend(p + [t[m]] + q + [t[n]], r);
    CleanPriceAppend(p + [t[m]] + q, [t[n]]);
    CleanPriceAppend(p + [t[m]], q);
    CleanPriceAppend(p, [t[m]]);
    assert CleanPriceText([t[m]]) == ".";
    assert CleanPriceText([t[n]]) == ".";
    var c := CleanPriceText(t);
    assert c == CleanPriceText(p) + "." + CleanPriceText(q) + "." + CleanPriceText(r);
    ParseDecimalTwoPoints(c, |CleanPriceText(p)|, |CleanPriceText(p)| + 1 + |CleanPriceText(q)|);
  }

  lemma ThousandsSeparatorExample()
    ensures ParsePrice(Text("1,234.56")) == None
  {
    ParsePriceCommaAndPoint("1,234.56", 1, 5);
  }

  // ---------------------------------------------------------------------------
  // Field dispatch

  /** The timestamp field: a number is kept as it is, a text is cleaned and scanned. */
  function ParseTimestamp(f: Field): Option<real> {
    match f
    case Num(x) => Some(x)
    case Text(t) => ParseHourStamp(CleanStampText(t))
  }

  /** The price field: a number is kept as it is, a text is cleaned and read as a decimal. */
  function ParsePrice(f: Field): Option<real> {
    match f
    case Num(x) => Some(x)
    case Text(t) => ParseDecimal(CleanPriceText(t))
  }
}
