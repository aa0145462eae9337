/**
  `parse_date` and `is_within_retention`: how an article's publication date is stored,
  and whether a stored date keeps the article in the 90-day window.
*/
module Retention {
  import opened Wrappers
  import opened Text
  import opened Calendar
  import opened IsoDates

  /**
    `email.utils.parsedate_to_datetime` (the date format of section 3.3 of RFC 2822),
    left abstract: `None` stands for the exception it raises on text it cannot read.
  */
  type RfcParser = string -> Option<ValidStamp>

  /**
    `parse_date(date_str)`: `None` for a missing date; the `isoformat()` text when the
    RFC 2822 parser reads it; the input itself otherwise.
  */
  function ParseDate(raw: string, rfc: RfcParser): (r: Option<string>)
    ensures r.None? <==> raw == ""
    ensures raw != "" && rfc(raw).None? ==> r == Some(raw)
  {
    if raw == "" then None
    else
      match rfc(raw)
      case Some(st) => Some(IsoFormat(st))
      case None => Some(raw)
  }

  /**
    `is_within_retention(date_str, cutoff_date)`. A text containing `T` is read as a
    `%Y-%m-%d` date (at midnight) from the part before its first `T`; any other text
    with the RFC 2822 parser, dropping the zone. A date at or after the cutoff keeps
    the article, and so does a missing date or any parse failure.
  */
  function IsWithinRetention(date: Option<string>, cutoff: DateTime, rfc: RfcParser): (r: bool)
    ensures date.None? || date == Some("") ==> r
    ensures date.Some? && 'T' in date.value && ParseIsoDate(BeforeFirst(date.value, 'T')).None? ==> r
    ensures date.Some? && 'T' !in date.value && rfc(date.value).None? ==> r
  {
    match date
    case None => true
    case Some(s) =>
      if s == "" then true
      else if 'T' in s then
        match ParseIsoDate(BeforeFirst(s, 'T'))
        case Some(dt) => !Before(dt, cutoff)
        case None => true
      else
        match rfc(s)
        case Some(st) => !Before(st.local, cutoff)
        case None => true
  }

  /**
    A date `parse_date` produced from a readable RFC 2822 date is later judged by its
    calendar day alone, at midnight, whatever its time of day and zone were.
  */
  lemma RetentionOfParsedDate(raw: string, cutoff: DateTime, rfc: RfcParser)
    requires raw != "" && rfc(raw).Some?
    ensures IsWithinRetention(ParseDate(raw, rfc), cutoff, rfc) <==> !Before(Midnight(rfc(raw).value.local), cutoff)
  {
    var st := rfc(raw).value;
    ParseFormattedDate(st.local);
  }

  /** Field-wise comparison is decided by the dates when they differ. */
  lemma BeforeAcrossDays(a: DateTime, b: DateTime)
    requires Midnight(a) != Midnight(b)
    ensures Before(a, b) <==> Before(Midnight(a), Midnight(b))
  {
  }

  /**
    An ISO-dated article is kept exactly when its day is after the cutoff's day, or is
    the cutoff's own day and the cutoff is at 00:00:00; on the cutoff's day at any
    later time of day it is dropped.
  */
  lemma IsoDayBoundary(d: DateTime, rest: string, cutoff: DateTime, rfc: RfcParser)
    requires Valid(d) && Valid(cutoff)
    ensures IsWithinRetention(Some(FormatDate(d) + "T" + rest), cutoff, rfc)
        <==> Ordinal(d) > Ordinal(cutoff) || (Ordinal(d) == Ordinal(cutoff) && cutoff == Midnight(cutoff))
  {
    var s := FormatDate(d) + "T" + rest;
    assert s == FormatDate(d) + ['T'] + rest;
    BeforeFirstAt(FormatDate(d), 'T', rest);
    ParseFormattedDate(d);
    DateOrderIsDayOrder(d, cutoff);
    if Midnight(d) != Midnight(cutoff) {
      BeforeAcrossDays(Midnight(d), cutoff);
    }
  }

  /**
    With the cutoff of a run at local time `now`, an ISO-dated article is kept exactly
    when it is dated fewer than 90 days before today, or exactly 90 days before today
    and the run happens at midnight.
  */
  lemma NinetyDayWindow(d: DateTime, rest: string, now: DateTime, rfc: RfcParser)
    requires Valid(d) && Valid(now) && Ordinal(now) > RetentionDays
    ensures IsWithinRetention(Some(FormatDate(d) + "T" + rest), Cutoff(now), rfc)
        <==> Ordinal(d) > Ordinal(now) - 90 || (Ordinal(d) == Ordinal(now) - 90 && now == Midnight(now))
  {
    IsoDayBoundary(d, rest, Cutoff(now), rfc);
  }
}
