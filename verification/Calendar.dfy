/** Naive UTC date-times as the dashboard uses them: the proleptic Gregorian calendar from year 1
    on, compared field by field, and shifted by an exact number of microseconds. */
module Calendar {
  import opened Wrappers

  const HOUR: int := 3600000000
  const DAY: int := 86400000000
  const WEEK: int := 604800000000

  datatype DateTime = DateTime(year: int, month: int, day: int, hour: int, minute: int, second: int, micro: int)

  type Instant = d: DateTime | Valid(d) witness DateTime(1, 1, 1, 0, 0, 0, 0)

  predicate Leap(year: int) {
    year % 4 == 0 && (year % 100 != 0 || year % 400 == 0)
  }

  function DaysInMonth(year: int, month: int): int {
    if month == 2 then (if Leap(year) then 29 else 28)
    else if month == 4 || month == 6 || month == 9 || month == 11 then 30
    else 31
  }

  predicate Valid(d: DateTime) {
    && d.year >= 1 && 1 <= d.month <= 12 && 1 <= d.day <= DaysInMonth(d.year, d.month)
    && 0 <= d.hour < 24 && 0 <= d.minute < 60 && 0 <= d.second < 60 && 0 <= d.micro < 1000000
  }

  function DaysBeforeYear(year: int): int {
    var y := year - 1;
    365 * y + y / 4 - y / 100 + y / 400
  }

  function DaysBeforeMonth(year: int, month: int): int
    decreases month
  {
    if month <= 1 then 0 else DaysBeforeMonth(year, month - 1) + DaysInMonth(year, month - 1)
  }

  function Ordinal(d: DateTime): int {
    DaysBeforeYear(d.year) + DaysBeforeMonth(d.year, d.month) + d.day
  }

  function Weekday(d: DateTime): int {
    (Ordinal(d) + 6) % 7
  }

  function TimeOfDay(d: DateTime): int {
    HOUR * d.hour + 60000000 * d.minute + 1000000 * d.second + d.micro
  }

  /** Microseconds since the start of year 1, a Monday. */
  function Stamp(d: DateTime): int {
    DAY * (Ordinal(d) - 1) + TimeOfDay(d)
  }

  predicate Before(a: DateTime, b: DateTime) {
    a.year < b.year || (a.year == b.year && (a.month < b.month || (a.month == b.month && (a.day < b.day
    || (a.day == b.day && (a.hour < b.hour || (a.hour == b.hour && (a.minute < b.minute
    || (a.minute == b.minute && (a.second < b.second || (a.second == b.second && a.micro < b.micro)))))))))))
  }

  // ---- months in one row, numbered from January of year 1 ----

  function Month(d: DateTime): int {
    12 * (d.year - 1) + d.month - 1
  }

  function MonthLength(k: int): int {
    DaysInMonth(k / 12 + 1, k % 12 + 1)
  }

  /** Days before month number `k`. */
  function MonthStart(k: int): int {
    DaysBeforeYear(k / 12 + 1) + DaysBeforeMonth(k / 12 + 1, k % 12 + 1)
  }

  /** A multiple of `n` is passed at `y` or not. */
  function Passed(y: int, n: int): int
    requires n > 0
  {
    if y % n == 0 then 1 else 0
  }

  lemma QuotientSteps(y: int)
    ensures y / 4 == (y - 1) / 4 + Passed(y, 4)
    ensures y / 100 == (y - 1) / 100 + Passed(y, 100)
    ensures y / 400 == (y - 1) / 400 + Passed(y, 400)
  {
  }

  lemma LeapByMultiples(y: int)
    ensures Passed(y, 4) - Passed(y, 100) + Passed(y, 400) == if Leap(y) then 1 else 0
  {
    if y % 100 == 0 {
      assert y == 4 * (25 * (y / 100));
    }
    if y % 400 == 0 {
      assert y == 100 * (4 * (y / 400));
    }
  }

  lemma YearLength(year: int)
    ensures DaysBeforeYear(year + 1) - DaysBeforeYear(year) == if Leap(year) then 366 else 365
  {
    QuotientSteps(year);
    LeapByMultiples(year);
  }

  lemma MonthsFillYear(year: int)
    ensures DaysBeforeMonth(year, 12) + DaysInMonth(year, 12) == if Leap(year) then 366 else 365
  {
    assert DaysBeforeMonth(year, 4) == 31 + DaysInMonth(year, 2) + 31;
    assert DaysBeforeMonth(year, 8) == DaysBeforeMonth(year, 4) + 122;
    assert DaysBeforeMonth(year, 12) == DaysBeforeMonth(year, 8) + 122;
  }

  lemma MonthNumbers(k: int)
    ensures if k % 12 == 11 then (k + 1) / 12 == k / 12 + 1 && (k + 1) % 12 == 0
            else (k + 1) / 12 == k / 12 && (k + 1) % 12 == k % 12 + 1
  {
  }

  lemma DecemberEndsYear(year: int)
    ensures DaysBeforeYear(year) + DaysBeforeMonth(year, 12) + DaysInMonth(year, 12) == DaysBeforeYear(year + 1)
  {
    YearLength(year);
    MonthsFillYear(year);
  }

  lemma MonthsFollow(k: int)
    requires k >= 0
    ensures MonthStart(k + 1) == MonthStart(k) + MonthLength(k)
  {
    MonthNumbers(k);
    if k % 12 == 11 {
      DecemberEndsYear(k / 12 + 1);
    }
  }

  lemma {:induction false} MonthsDoNotOverlap(a: int, b: int)
    requires 0 <= a < b
    ensures MonthStart(a) + MonthLength(a) <= MonthStart(b)
    decreases b
  {
    MonthsFollow(b - 1);
    if a < b - 1 {
      MonthsDoNotOverlap(a, b - 1);
    }
  }

  lemma OrdinalByMonth(d: Instant)
    ensures Month(d) >= 0 && Ordinal(d) == MonthStart(Month(d)) + d.day && d.day <= MonthLength(Month(d))
    ensures d.year == Month(d) / 12 + 1 && d.month == Month(d) % 12 + 1
  {
    assert Month(d) == 12 * (d.year - 1) + (d.month - 1);
  }

  lemma {:induction false} MonthStartAtLeast(k: int)
    requires k >= 0
    ensures MonthStart(k) >= k
  {
    if k > 0 {
      MonthsFollow(k - 1);
      MonthStartAtLeast(k - 1);
    }
  }

  /** The month, at or after `k`, in which day `ordinal` falls. */
  function MonthOf(ordinal: int, k: int): (m: int)
    requires k >= 0 && MonthStart(k) < ordinal
    ensures m >= k && MonthStart(m) < ordinal <= MonthStart(m) + MonthLength(m)
    decreases ordinal - MonthStart(k)
  {
    if ordinal <= MonthStart(k) + MonthLength(k) then k
    else
      MonthsFollow(k);
      MonthOf(ordinal, k + 1)
  }

  // ---- from a count of microseconds back to fields ----

  function DateAt(m: int, day: int, time: int): (d: Instant)
    requires m >= 0 && 1 <= day <= MonthLength(m) && 0 <= time < DAY
    ensures Month(d) == m && d.day == day && TimeOfDay(d) == time
  {
    TimeSplits(time);
    DateTime(m / 12 + 1, m % 12 + 1, day,
             time / HOUR, time % HOUR / 60000000, time % 60000000 / 1000000, time % 1000000)
  }

  function FromStamp(t: int): (d: Instant)
    requires t >= 0
  {
    var ordinal := t / DAY + 1;
    var m := MonthOf(ordinal, 0);
    DateAt(m, ordinal - MonthStart(m), t % DAY)
  }

  lemma TimeInDay(d: Instant)
    ensures 0 <= TimeOfDay(d) < DAY
  {
  }

  lemma StampParts(d: Instant)
    ensures Stamp(d) / DAY == Ordinal(d) - 1 >= 0 && Stamp(d) % DAY == TimeOfDay(d) && Stamp(d) >= 0
  {
    OrdinalByMonth(d);
    MonthStartAtLeast(Month(d));
    TimeInDay(d);
  }

  lemma TimeSplits(time: int)
    requires 0 <= time < DAY
    ensures HOUR * (time / HOUR) + 60000000 * (time % HOUR / 60000000)
            + 1000000 * (time % 60000000 / 1000000) + time % 1000000 == time
    ensures 0 <= time / HOUR < 24 && 0 <= time % HOUR / 60000000 < 60 && 0 <= time % 60000000 / 1000000 < 60
  {
  }

  /** Reading the fields of a count of microseconds and counting them again gives it back. */
  lemma StampOfFromStamp(t: int)
    requires t >= 0
    ensures Stamp(FromStamp(t)) == t
  {
    OrdinalByMonth(FromStamp(t));
  }

  lemma EarlierMonthEarlierDay(a: Instant, b: Instant)
    requires Month(a) < Month(b)
    ensures Ordinal(a) < Ordinal(b)
  {
    OrdinalByMonth(a);
    OrdinalByMonth(b);
    MonthsDoNotOverlap(Month(a), Month(b));
  }

  lemma BeforeRaisesStamp(a: Instant, b: Instant)
    requires Before(a, b)
    ensures Stamp(a) < Stamp(b)
  {
    TimeInDay(a);
    TimeInDay(b);
    if a.year < b.year || (a.year == b.year && a.month < b.month) {
      EarlierMonthEarlierDay(a, b);
    }
  }

  /** Comparing two date-times field by field compares the time elapsed since year 1. */
  lemma BeforeIsElapsed(a: Instant, b: Instant)
    ensures Before(a, b) <==> Stamp(a) < Stamp(b)
    ensures a == b <==> Stamp(a) == Stamp(b)
  {
    if Before(a, b) {
      BeforeRaisesStamp(a, b);
    } else if a != b {
      BeforeRaisesStamp(b, a);
    }
  }

  lemma SameStampSameInstant(a: Instant, b: Instant)
    requires Stamp(a) == Stamp(b)
    ensures a == b
  {
    BeforeIsElapsed(a, b);
  }

  /** Every date-time is read back from its own count: no two count the same. */
  lemma FromStampOfStamp(d: Instant)
    ensures Stamp(d) >= 0 && FromStamp(Stamp(d)) == d
  {
    StampParts(d);
    StampOfFromStamp(Stamp(d));
    BeforeIsElapsed(FromStamp(Stamp(d)), d);
  }

  /** `value + timedelta`: nothing when the result would lie before year 1. */
  function Shift(d: Instant, micros: int): (r: Option<Instant>)
    ensures r.Some? <==> Stamp(d) + micros >= 0
    ensures r.Some? ==> Stamp(r.value) == Stamp(d) + micros
  {
    var t := Stamp(d) + micros;
    if t < 0 then None else
      StampOfFromStamp(t);
      Some(FromStamp(t))
  }
}
