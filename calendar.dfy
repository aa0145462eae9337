/**
  Naive datetimes of the proleptic Gregorian calendar, Python's ordering of them,
  day numbers (`date.toordinal()`) and the retention cutoff `now - timedelta(days=90)`.
*/
module Calendar {
  import opened Wrappers

  /** A naive (wall-clock) datetime, field by field. */
  datatype DateTime = DateTime(year: int, month: int, day: int, hour: int, minute: int, second: int, microsecond: int)

  /** What `parsedate_to_datetime` returns: the wall-clock time and, unless the zone was `-0000`, its UTC offset in minutes. */
  datatype Stamp = Stamp(local: DateTime, offset: Option<int>)

  predicate IsLeap(y: int) {
    y % 4 == 0 && (y % 100 != 0 || y % 400 == 0)
  }

  function DaysInYear(y: int): int {
    if IsLeap(y) then 366 else 365
  }

  function DaysInMonth(y: int, m: int): int
    requires 1 <= m <= 12
  {
    if m == 2 then (if IsLeap(y) then 29 else 28)
    else if m == 4 || m == 6 || m == 9 || m == 11 then 30
    else 31
  }

  predicate ValidDate(y: int, m: int, d: int) {
    1 <= y <= 9999 && 1 <= m <= 12 && 1 <= d <= DaysInMonth(y, m)
  }

  /** The ranges Python's `datetime` constructor accepts. */
  predicate Valid(dt: DateTime) {
    && ValidDate(dt.year, dt.month, dt.day)
    && 0 <= dt.hour < 24 && 0 <= dt.minute < 60 && 0 <= dt.second < 60
    && 0 <= dt.microsecond < 1000000
  }

  /** A UTC offset is strictly between -24h and +24h. */
  predicate WellFormed(st: Stamp) {
    Valid(st.local) && (st.offset.Some? ==> -1440 < st.offset.value < 1440)
  }

  type ValidStamp = st: Stamp | WellFormed(st) witness Stamp(DateTime(1, 1, 1, 0, 0, 0, 0), None)

  /** Python's `a < b` on naive datetimes: the fields compared in order. */
  predicate Before(a: DateTime, b: DateTime) {
    if a.year != b.year then a.year < b.year
    else if a.month != b.month then a.month < b.month
    else if a.day != b.day then a.day < b.day
    else if a.hour != b.hour then a.hour < b.hour
    else if a.minute != b.minute then a.minute < b.minute
    else if a.second != b.second then a.second < b.second
    else a.microsecond < b.microsecond
  }

  /** `<` on naive datetimes is a strict total order. */
  lemma BeforeIsStrictOrder(a: DateTime, b: DateTime, c: DateTime)
    ensures !Before(a, a)
    ensures Before(a, b) ==> !Before(b, a)
    ensures Before(a, b) && Before(b, c) ==> Before(a, c)
    ensures a != b ==> Before(a, b) || Before(b, a)
  {
  }

  /** The calendar day of `dt` at 00:00:00. */
  function Midnight(dt: DateTime): DateTime {
    DateTime(dt.year, dt.month, dt.day, 0, 0, 0, 0)
  }

  predicate SameTimeOfDay(a: DateTime, b: DateTime) {
    a.hour == b.hour && a.minute == b.minute && a.second == b.second && a.microsecond == b.microsecond
  }

  function DaysBeforeYear(y: int): nat
    requires y >= 1
  {
    if y == 1 then 0 else DaysBeforeYear(y - 1) + DaysInYear(y - 1)
  }

  function DaysBeforeMonth(y: int, m: int): nat
    requires 1 <= m <= 12
  {
    var common := [0, 31, 59, 90, 120, 151, 181, 212, 243, 273, 304, 334][m - 1];
    if m > 2 && IsLeap(y) then common + 1 else common
  }

  /** Python's `date.toordinal()`: 0001-01-01 is day 1. */
  function Ordinal(dt: DateTime): (n: int)
    requires ValidDate(dt.year, dt.month, dt.day)
    ensures DaysBeforeYear(dt.year) < n <= DaysBeforeYear(dt.year) + DaysInYear(dt.year)
    ensures dt.year == 1 && dt.month == 1 && dt.day == 1 ==> n == 1
  {
    DateWithinYear(dt.year, dt.month, dt.day);
    DaysBeforeYear(dt.year) + DaysBeforeMonth(dt.year, dt.month) + dt.day
  }

  lemma MonthStep(y: int, m: int)
    requires 1 < m <= 12
    ensures DaysBeforeMonth(y, m) == DaysBeforeMonth(y, m - 1) + DaysInMonth(y, m - 1)
  {
  }

  lemma DaysInYearIsLastMonth(y: int)
    ensures DaysBeforeMonth(y, 12) + 31 == DaysInYear(y)
  {
  }

  lemma DateWithinYear(y: int, m: int, d: int)
    requires 1 <= m <= 12 && 1 <= d <= DaysInMonth(y, m)
    ensures DaysBeforeMonth(y, m) + d <= DaysInYear(y)
  {
  }

  /** The previous calendar day at the same time of day. */
  function PrevDay(dt: DateTime): (r: DateTime)
    requires Valid(dt) && Ordinal(dt) > 1
    ensures Valid(r) && SameTimeOfDay(r, dt)
    ensures Ordinal(r) == Ordinal(dt) - 1
  {
    if dt.day > 1 then dt.(day := dt.day - 1)
    else if dt.month > 1 then
      MonthStep(dt.year, dt.month);
      dt.(month := dt.month - 1, day := DaysInMonth(dt.year, dt.month - 1))
    else
      DaysInYearIsLastMonth(dt.year - 1);
      dt.(year := dt.year - 1, month := 12, day := 31)
  }

  /** `dt - timedelta(days=n)`; Python raises OverflowError before 0001-01-01. */
  function MinusDays(dt: DateTime, n: nat): (r: DateTime)
    requires Valid(dt) && Ordinal(dt) > n
    ensures Valid(r) && SameTimeOfDay(r, dt)
    ensures Ordinal(r) == Ordinal(dt) - n
    decreases n
  {
    if n == 0 then dt else MinusDays(PrevDay(dt), n - 1)
  }

  /** Articles are kept for 90 days (`RETENTION_DAYS`). */
  const RetentionDays: nat := 90

  /**
    `(now - timedelta(days=RETENTION_DAYS)).replace(tzinfo=None)` for the local time `now`:
    the same time of day, exactly 90 calendar days earlier.
  */
  function Cutoff(now: DateTime): (cutoff: DateTime)
    requires Valid(now) && Ordinal(now) > RetentionDays
    ensures Valid(cutoff) && SameTimeOfDay(cutoff, now)
    ensures Ordinal(cutoff) == Ordinal(now) - RetentionDays
  {
    MinusDays(now, RetentionDays)
  }

  lemma {:induction false} YearsAdvance(y1: int, y2: int)
    requires 1 <= y1 < y2
    ensures DaysBeforeYear(y2) >= DaysBeforeYear(y1) + DaysInYear(y1)
    decreases y2 - y1
  {
    if y2 > y1 + 1 {
      YearsAdvance(y1, y2 - 1);
    }
  }

  lemma {:induction false} MonthsAdvance(y: int, m1: int, m2: int)
    requires 1 <= m1 < m2 <= 12
    ensures DaysBeforeMonth(y, m2) >= DaysBeforeMonth(y, m1) + DaysInMonth(y, m1)
    decreases m2 - m1
  {
    MonthStep(y, m2);
    if m2 > m1 + 1 {
      MonthsAdvance(y, m1, m2 - 1);
    }
  }

  /** Comparing dates field by field is comparing their day numbers. */
  lemma DateOrderIsDayOrder(a: DateTime, b: DateTime)
    requires ValidDate(a.year, a.month, a.day) && ValidDate(b.year, b.month, b.day)
    ensures Before(Midnight(a), Midnight(b)) <==> Ordinal(a) < Ordinal(b)
    ensures Midnight(a) == Midnight(b) <==> Ordinal(a) == Ordinal(b)
  {
    if a.year < b.year {
      YearsAdvance(a.year, b.year);
      DateWithinYear(a.year, a.month, a.day);
    } else if b.year < a.year {
      YearsAdvance(b.year, a.year);
      DateWithinYear(b.year, b.month, b.day);
    } else if a.month < b.month {
      MonthsAdvance(a.year, a.month, b.month);
    } else if b.month < a.month {
      MonthsAdvance(a.year, b.month, a.month);
    }
  }
}
