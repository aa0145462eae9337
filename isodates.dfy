/**
  The two text forms of dates the collector handles itself: `datetime.isoformat()`
  and `datetime.strptime(s, "%Y-%m-%d")`.
*/
module IsoDates {
  import opened Wrappers
  import opened Text
  import opened Calendar

  predicate IsDigit(c: char) {
    '0' <= c <= '9'
  }

  predicate AllDigits(s: string) {
    forall k :: 0 <= k < |s| ==> IsDigit(s[k])
  }

  function DigitChar(d: int): (c: char)
    requires 0 <= d <= 9
    ensures IsDigit(c)
  {
    ('0' as int + d) as char
  }

  function DigitValue(c: char): (d: int)
    requires IsDigit(c)
    ensures 0 <= d <= 9 && DigitChar(d) == c
  {
    c as int - '0' as int
  }

  /** The number written by a string of decimal digits. */
  function Value(s: string): nat
    requires AllDigits(s)
  {
    if s == [] then 0 else 10 * Value(s[..|s| - 1]) + DigitValue(s[|s| - 1])
  }

  function Pow10(n: nat): nat {
    if n == 0 then 1 else 10 * Pow10(n - 1)
  }

  /** Python's `f"{n:0{width}d}"` for a number that fits in `width` digits. */
  function Pad(n: nat, width: nat): (r: string)
    requires n < Pow10(width)
    ensures |r| == width && AllDigits(r) && Value(r) == n
  {
    if width == 0 then ""
    else
      var r := Pad(n / 10, width - 1) + [DigitChar(n % 10)];
      assert r[..|r| - 1] == Pad(n / 10, width - 1);
      r
  }

  /** The date part `YYYY-MM-DD` of `isoformat()`. */
  function FormatDate(dt: DateTime): (r: string)
    requires Valid(dt)
    ensures |r| == 10 && 'T' !in r
  {
    Pad(dt.year, 4) + "-" + Pad(dt.month, 2) + "-" + Pad(dt.day, 2)
  }

  /** `HH:MM:SS`, then `.ffffff` only when the microseconds are not zero. */
  function FormatTime(dt: DateTime): string
    requires Valid(dt)
  {
    Pad(dt.hour, 2) + ":" + Pad(dt.minute, 2) + ":" + Pad(dt.second, 2)
    + (if dt.microsecond != 0 then "." + Pad(dt.microsecond, 6) else "")
  }

  /** The `+HH:MM` / `-HH:MM` suffix of an aware datetime; nothing for a naive one. */
  function FormatOffset(offset: Option<int>): string
    requires offset.Some? ==> -1440 < offset.value < 1440
  {
    match offset
    case None => ""
    case Some(m) =>
      var a := if m < 0 then -m else m;
      (if m < 0 then "-" else "+") + Pad(a / 60, 2) + ":" + Pad(a % 60, 2)
  }

  /** `datetime.isoformat()` of what `parsedate_to_datetime` returned. */
  function IsoFormat(st: ValidStamp): (r: string)
    ensures 'T' in r && BeforeFirst(r, 'T') == FormatDate(st.local)
  {
    var d := FormatDate(st.local);
    var rest := FormatTime(st.local) + FormatOffset(st.offset);
    BeforeFirstAt(d, 'T', rest);
    assert d + "T" + rest == d + ['T'] + rest;
    d + "T" + rest
  }

  /** The `%m` field: `1[0-2]`, `0[1-9]` or `[1-9]`. */
  function ParseMonth(f: string): (m: Option<int>)
    ensures m.Some? ==> 1 <= m.value <= 12
  {
    if |f| == 2 && f[0] == '1' && '0' <= f[1] <= '2' then Some(10 + DigitValue(f[1]))
    else if |f| == 2 && f[0] == '0' && '1' <= f[1] <= '9' then Some(DigitValue(f[1]))
    else if |f| == 1 && '1' <= f[0] <= '9' then Some(DigitValue(f[0]))
    else None
  }

  /**
    The `%d` field: `3[01]`, `[12]\d`, `0[1-9]`, `[1-9]` or ` [1-9]`, which must also end
    the string ("unconverted data remains" otherwise).
  */
  function ParseDay(f: string): (d: Option<int>)
    ensures d.Some? ==> 1 <= d.value <= 31
  {
    if |f| == 2 && f[0] == '3' && '0' <= f[1] <= '1' then Some(30 + DigitValue(f[1]))
    else if |f| == 2 && '1' <= f[0] <= '2' && IsDigit(f[1]) then Some(10 * DigitValue(f[0]) + DigitValue(f[1]))
    else if |f| == 2 && (f[0] == '0' || f[0] == ' ') && '1' <= f[1] <= '9' then Some(DigitValue(f[1]))
    else if |f| == 1 && '1' <= f[0] <= '9' then Some(DigitValue(f[0]))
    else None
  }

  /**
    `datetime.strptime(s, "%Y-%m-%d")`: four digits, `-`, the month field, `-`, the day
    field and nothing more; the date must exist (year 1 to 9999, day within the month).
    The result is that day at midnight; `None` stands for the `ValueError`.
  */
  function ParseIsoDate(s: string): (r: Option<DateTime>)
    ensures r.Some? ==> Valid(r.value) && r.value == Midnight(r.value)
  {
    if |s| < 7 || !AllDigits(s[..4]) || s[4] != '-' then None
    else
      var rest := s[5..];
      var k := if rest[1] == '-' then 1 else if |rest| >= 3 && rest[2] == '-' then 2 else 0;
      if k == 0 then None
      else
        match (ParseMonth(rest[..k]), ParseDay(rest[k + 1..]))
        case (Some(m), Some(d)) =>
          var y := Value(s[..4]);
          if ValidDate(y, m, d) then Some(DateTime(y, m, d, 0, 0, 0, 0)) else None
        case _ => None
  }

  lemma PadTwo(n: nat)
    requires n < 100
    ensures Pad(n, 2) == [DigitChar(n / 10), DigitChar(n % 10)]
  {
  }

  lemma ParseMonthPadded(m: int)
    requires 1 <= m <= 12
    ensures ParseMonth(Pad(m, 2)) == Some(m)
  {
    PadTwo(m);
    if m >= 10 {
      assert m / 10 == 1 && m % 10 == m - 10;
    } else {
      assert m / 10 == 0 && m % 10 == m;
    }
  }

  lemma ParseDayPadded(d: int)
    requires 1 <= d <= 31
    ensures ParseDay(Pad(d, 2)) == Some(d)
  {
    PadTwo(d);
    if d >= 30 {
      assert d / 10 == 3 && d % 10 == d - 30;
    } else if d >= 20 {
      assert d / 10 == 2 && d % 10 == d - 20;
    } else if d >= 10 {
      assert d / 10 == 1 && d % 10 == d - 10;
    } else {
      assert d / 10 == 0 && d % 10 == d;
    }
  }

  /** The month and day fields `isoformat()` writes, as `strptime` reads them. */
  lemma ParseFormattedFields(m: int, d: int)
    requires 1 <= m <= 12 && 1 <= d <= 31
    ensures var r := Pad(m, 2) + "-" + Pad(d, 2);
      |r| == 5 && r[1] != '-' && r[2] == '-' && ParseMonth(r[..2]) == Some(m) && ParseDay(r[3..]) == Some(d)
  {
    PadTwo(m);
    var r := Pad(m, 2) + "-" + Pad(d, 2);
    assert r[..2] == Pad(m, 2);
    assert r[3..] == Pad(d, 2);
    ParseMonthPadded(m);
    ParseDayPadded(d);
  }

  /** `strptime("%Y-%m-%d")` reads back the date part `isoformat()` writes. */
  lemma ParseFormattedDate(dt: DateTime)
    requires Valid(dt)
    ensures ParseIsoDate(FormatDate(dt)) == Some(Midnight(dt))
  {
    var s := FormatDate(dt);
    assert s[..4] == Pad(dt.year, 4);
    assert s[4] == '-';
    assert s[5..] == Pad(dt.month, 2) + "-" + Pad(dt.day, 2);
    ParseFormattedFields(dt.month, dt.day);
  }
}
