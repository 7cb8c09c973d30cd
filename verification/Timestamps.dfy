/** Local timestamp strings of the form `YYYY-MM-DDTHH:MM:SS`, the shape of
    every `appointmentTime` in the appointment store, and the hour a
    JavaScript `Date` reads from one. */
module Timestamps {
  import opened Wrappers
  import opened Decimal
  import opened Calendar

  datatype LocalDateTime = LocalDateTime(date: Date, hour: int, minute: int, second: int)

  predicate ValidDateTime(t: LocalDateTime) {
    && ValidDate(t.date) && 0 <= t.date.year <= 9999
    && 0 <= t.hour <= 23 && 0 <= t.minute <= 59 && 0 <= t.second <= 59
  }

  /** The timestamp string of a local date-time, e.g. "2024-11-16T11:00:00". */
  function FormatTimestamp(t: LocalDateTime): (s: string)
    requires ValidDateTime(t)
    ensures |s| == 19
  {
    FormatDate(t.date) + "T" + FixedDigits(t.hour, 2) + ":" + FixedDigits(t.minute, 2)
    + ":" + FixedDigits(t.second, 2)
  }

  /** Reads a `YYYY-MM-DDTHH:MM:SS` string; `None` for anything else and for
      fields out of range (no such day, hour above 23, ...). */
  function ParseTimestamp(s: string): (r: Option<LocalDateTime>)
    ensures r.Some? ==> ValidDateTime(r.value)
  {
    if |s| == 19 && s[10] == 'T' && s[13] == ':' && s[16] == ':'
       && AllDigits(s[11..13]) && AllDigits(s[14..16]) && AllDigits(s[17..])
    then
      match ParseDateKey(s[..10])
      case None => None
      case Some(d) =>
        var t := LocalDateTime(d, DigitsValue(s[11..13]), DigitsValue(s[14..16]), DigitsValue(s[17..]));
        if ValidDateTime(t) then Some(t) else None
    else None
  }

  /** The hour of a local timestamp, as a JavaScript `Date` reads it, or `None`
      standing for the `NaN` that an unparsable string (or `undefined`) gives. */
  function HourOf(s: string): (h: Option<int>)
    ensures h.Some? <==> ParseTimestamp(s).Some?
    ensures h.Some? ==> 0 <= h.value <= 23
  {
    match ParseTimestamp(s)
    case Some(t) => Some(t.hour)
    case None => None
  }

  /** Whether `s` begins with `prefix`, the string prefix test the service filters by. */
  predicate StartsWith(s: string, prefix: string) {
    |prefix| <= |s| && s[..|prefix|] == prefix
  }

  lemma FormatTimestampParses(t: LocalDateTime)
    requires ValidDateTime(t)
    ensures ParseTimestamp(FormatTimestamp(t)) == Some(t)
    ensures HourOf(FormatTimestamp(t)) == Some(t.hour)
  {
    var s := FormatTimestamp(t);
    assert s[..10] == FormatDate(t.date);
    assert s[11..13] == FixedDigits(t.hour, 2);
    assert s[14..16] == FixedDigits(t.minute, 2);
    assert s[17..] == FixedDigits(t.second, 2);
    FormatDateParses(t.date);
    FixedDigitsRoundTrip(t.hour, 2);
    FixedDigitsRoundTrip(t.minute, 2);
    FixedDigitsRoundTrip(t.second, 2);
  }

  /** The timestamp string character by character. */
  lemma FormatTimestampChars(t: LocalDateTime)
    requires ValidDateTime(t)
    ensures FormatTimestamp(t)
            == DateKeyChars(t.date) + ['T',
                DigitChar(t.hour / 10), DigitChar(t.hour % 10), ':',
                DigitChar(t.minute / 10), DigitChar(t.minute % 10), ':',
                DigitChar(t.second / 10), DigitChar(t.second % 10)]
  {
    FormatDateChars(t.date);
    FixedDigitsTwo(t.hour);
    FixedDigitsTwo(t.minute);
    FixedDigitsTwo(t.second);
  }

  /** A timestamp string begins with the date key of its own day. */
  lemma FormatTimestampStartsWithKey(t: LocalDateTime)
    requires ValidDateTime(t)
    ensures StartsWith(FormatTimestamp(t), FormatDate(t.date))
  {
    assert FormatTimestamp(t)[..10] == FormatDate(t.date);
  }

  lemma ParsedTimestampFormats(s: string)
    requires ParseTimestamp(s).Some?
    ensures FormatTimestamp(ParseTimestamp(s).value) == s
  {
    ParsedDateKeyFormats(s[..10]);
    DigitsRoundTrip(s[11..13]);
    DigitsRoundTrip(s[14..16]);
    DigitsRoundTrip(s[17..]);
    assert s == s[..10] + "T" + s[11..13] + ":" + s[14..16] + ":" + s[17..];
  }

  /** A timestamp string starts with the date key of a day exactly when it
      denotes a moment of that day. */
  lemma StartsWithKeyIffOnDay(s: string, d: Date)
    requires ParseTimestamp(s).Some?
    requires ValidDate(d) && 0 <= d.year <= 9999
    ensures StartsWith(s, FormatDate(d)) <==> ParseTimestamp(s).value.date == d
  {
    var t := ParseTimestamp(s).value;
    ParsedTimestampFormats(s);
    assert s[..10] == FormatDate(t.date);
    if StartsWith(s, FormatDate(d)) {
      FormatDateInjective(d, t.date);
    }
  }
}
