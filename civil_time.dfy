/** Proleptic Gregorian calendar arithmetic, as Python's `datetime` performs it,
    with instants counted in UTC. */
module CivilTime {

  /** Days from 0001-01-01 (ordinal 1) to 1970-01-01 (the ordinal of the epoch). */
  const EpochOrdinal: int := 719163

  const SecondsPerDay: int := 86400
  const SecondsPerHour: int := 3600

  predicate IsLeap(year: int) {
    year % 4 == 0 && (year % 100 != 0 || year % 400 == 0)
  }

  function DaysInMonth(year: int, month: int): (n: int)
    requires 1 <= month <= 12
    ensures 28 <= n <= 31
    ensures n == 29 <==> month == 2 && IsLeap(year)
  {
    if month == 2 then (if IsLeap(year) then 29 else 28)
    else if month == 4 || month == 6 || month == 9 || month == 11 then 30
    else 31
  }

  /** A date `datetime` accepts: year 1..9999, a month, a day of that month. */
  predicate ValidDate(year: int, month: int, day: int) {
    1 <= year <= 9999 && 1 <= month <= 12 && 1 <= day <= DaysInMonth(year, month)
  }

  /** Days in all years before `year`. */
  function DaysBeforeYear(year: int): int
    requires year >= 1
  {
    var p := year - 1;
    365 * p + p / 4 - p / 100 + p / 400
  }

  /** Days in the months of `year` before `month`. */
  function DaysBeforeMonth(year: int, month: int): int
    requires 1 <= month <= 12
  {
    [0, 31, 59, 90, 120, 151, 181, 212, 243, 273, 304, 334][month - 1]
      + (if month > 2 && IsLeap(year) then 1 else 0)
  }

  /** Days from 1970-01-01 to the given date (negative before the epoch). */
  function DaysFromEpoch(year: int, month: int, day: int): int
    requires ValidDate(year, month, day)
  {
    DaysBeforeYear(year) + DaysBeforeMonth(year, month) + day - EpochOrdinal
  }

  /** Seconds from the epoch to the given date at the given full hour. */
  function HourInstant(year: int, month: int, day: int, hour: int): int
    requires ValidDate(year, month, day) && 0 <= hour <= 23
  {
    DaysFromEpoch(year, month, day) * SecondsPerDay + hour * SecondsPerHour
  }

  /** The first second `datetime` can hold, 0001-01-01 00:00, and the first it cannot,
      10000-01-01 00:00, both counted from the epoch. */
  const FirstInstant: int := -62135596800
  const EndInstant: int := 253402300800

  /** An instant `fromtimestamp` turns into a date; outside this range it raises. */
  predicate Representable(t: real) {
    FirstInstant as real <= t < EndInstant as real
  }

  /** The range runs from the first day of the calendar to the end of its last day. */
  lemma InstantRange()
    ensures FirstInstant == DaysFromEpoch(1, 1, 1) * SecondsPerDay
    ensures EndInstant == (DaysFromEpoch(9999, 12, 31) + 1) * SecondsPerDay
  {
  }

  lemma EpochIsDayZero()
    ensures DaysFromEpoch(1970, 1, 1) == 0
  {
  }

  /** The day count has no gaps or overlaps: the next calendar day is the next count. */
  lemma NextDayInMonth(year: int, month: int, day: int)
    requires ValidDate(year, month, day) && day < DaysInMonth(year, month)
    ensures ValidDate(year, month, day + 1)
    ensures DaysFromEpoch(year, month, day + 1) == DaysFromEpoch(year, month, day) + 1
  {
  }

  lemma NextMonth(year: int, month: int)
    requires 1 <= year <= 9999 && 1 <= month < 12
    ensures ValidDate(year, month, DaysInMonth(year, month)) && ValidDate(year, month + 1, 1)
    ensures DaysFromEpoch(year, month + 1, 1) == DaysFromEpoch(year, month, DaysInMonth(year, month)) + 1
  {
  }

  lemma NextYear(year: int)
    requires 1 <= year < 9999
    ensures ValidDate(year, 12, 31) && ValidDate(year + 1, 1, 1)
    ensures DaysFromEpoch(year + 1, 1, 1) == DaysFromEpoch(year, 12, 31) + 1
  {
    var p := year - 1;
    assert year == p + 1;
    assert (p + 1) / 4 - p / 4 == (if year % 4 == 0 then 1 else 0);
    assert (p + 1) / 100 - p / 100 == (if year % 100 == 0 then 1 else 0);
    assert (p + 1) / 400 - p / 400 == (if year % 400 == 0 then 1 else 0);
  }

  /** Within one day, later hours are later instants, one hour apart. */
  lemma NextHour(year: int, month: int, day: int, hour: int)
    requires ValidDate(year, month, day) && 0 <= hour < 23
    ensures HourInstant(year, month, day, hour + 1) == HourInstant(year, month, day, hour) + SecondsPerHour
  {
  }
}
