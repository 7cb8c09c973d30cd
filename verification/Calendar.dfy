/** Calendar days as a JavaScript `Date` sees them once the time of day is
    ignored: the proleptic Gregorian calendar with astronomical year
    numbering (year 0 is 1 BC). Covers the day arithmetic the page
    performs when it pages by a number of days, and the `YYYY-MM-DD` key:
    the date part of the ISO 8601 string of a day. */
module Calendar {
  import opened Wrappers
  import opened Decimal

  datatype Date = Date(year: int, month: int, day: int)

  predicate IsLeapYear(y: int) {
    (y % 4 == 0 && y % 100 != 0) || y % 400 == 0
  }

  function DaysInMonth(y: int, m: int): (n: int)
    requires 1 <= m <= 12
    ensures 28 <= n <= 31
    ensures m == 2 ==> (n == 29 <==> IsLeapYear(y))
  {
    if m == 2 then (if IsLeapYear(y) then 29 else 28)
    else if m == 4 || m == 6 || m == 9 || m == 11 then 30
    else 31
  }

  predicate ValidDate(d: Date) {
    1 <= d.month <= 12 && 1 <= d.day <= DaysInMonth(d.year, d.month)
  }

  /** Strict chronological order of days. */
  predicate Before(a: Date, b: Date) {
    || a.year < b.year
    || (a.year == b.year && a.month < b.month)
    || (a.year == b.year && a.month == b.month && a.day < b.day)
  }

  /** The following day, rolling over month and year ends. */
  function NextDay(d: Date): (r: Date)
    requires ValidDate(d)
    ensures ValidDate(r) && Before(d, r)
  {
    if d.day < DaysInMonth(d.year, d.month) then d.(day := d.day + 1)
    else if d.month < 12 then Date(d.year, d.month + 1, 1)
    else Date(d.year + 1, 1, 1)
  }

  /** No valid day lies strictly between a day and its successor. */
  lemma NextDayIsImmediate(d: Date, e: Date)
    requires ValidDate(d) && ValidDate(e) && Before(d, e)
    ensures e == NextDay(d) || Before(NextDay(d), e)
  {
  }

  /** The preceding day, rolling back over month and year starts. */
  function PrevDay(d: Date): (r: Date)
    requires ValidDate(d)
    ensures ValidDate(r) && Before(r, d)
  {
    if d.day > 1 then d.(day := d.day - 1)
    else if d.month > 1 then Date(d.year, d.month - 1, DaysInMonth(d.year, d.month - 1))
    else Date(d.year - 1, 12, 31)
  }

  /** No valid day lies strictly between a day's predecessor and the day. */
  lemma PrevDayIsImmediate(d: Date, e: Date)
    requires ValidDate(d) && ValidDate(e) && Before(e, d)
    ensures e == PrevDay(d) || Before(e, PrevDay(d))
  {
  }

  lemma PrevDayOfNextDay(d: Date)
    requires ValidDate(d)
    ensures PrevDay(NextDay(d)) == d
  {
  }

  lemma NextDayOfPrevDay(d: Date)
    requires ValidDate(d)
    ensures NextDay(PrevDay(d)) == d
  {
  }

  /** `d` shifted by `k` whole days, forwards for positive `k` and backwards
      for negative `k`, crossing month and year boundaries as needed. */
  function AddDays(d: Date, k: int): (r: Date)
    requires ValidDate(d)
    ensures ValidDate(r)
    ensures k > 0 ==> Before(d, r)
    ensures k < 0 ==> Before(r, d)
    ensures k == 0 ==> r == d
    ensures k == 1 ==> r == NextDay(d)
    ensures k == -1 ==> r == PrevDay(d)
    decreases if k >= 0 then k else -k
  {
    if k == 0 then d
    else if k > 0 then AddDays(NextDay(d), k - 1)
    else AddDays(PrevDay(d), k + 1)
  }

  /** Moving one day forward first and then `k` days is moving `k + 1` days,
      whatever the sign of `k`. */
  lemma AddDaysAfterNextDay(d: Date, k: int)
    requires ValidDate(d)
    ensures AddDays(NextDay(d), k) == AddDays(d, k + 1)
  {
    if k < 0 {
      PrevDayOfNextDay(d);
    }
  }

  lemma AddDaysAfterPrevDay(d: Date, k: int)
    requires ValidDate(d)
    ensures AddDays(PrevDay(d), k) == AddDays(d, k - 1)
  {
    if k > 0 {
      NextDayOfPrevDay(d);
    }
  }

  /** Shifting by `k` and then by `j` days is shifting by `k + j` days. */
  lemma {:induction false} AddDaysAdditive(d: Date, k: int, j: int)
    requires ValidDate(d)
    ensures AddDays(AddDays(d, k), j) == AddDays(d, k + j)
    decreases if k >= 0 then k else -k
  {
    if k > 0 {
      assert AddDays(d, k) == AddDays(NextDay(d), k - 1);
      AddDaysAdditive(NextDay(d), k - 1, j);
      AddDaysAfterNextDay(d, k - 1 + j);
    } else if k < 0 {
      assert AddDays(d, k) == AddDays(PrevDay(d), k + 1);
      AddDaysAdditive(PrevDay(d), k + 1, j);
      AddDaysAfterPrevDay(d, k + 1 + j);
    }
  }

  /** Paging forward by `k` days and back by `k` days returns to the start. */
  lemma AddDaysInverse(d: Date, k: int)
    requires ValidDate(d)
    ensures AddDays(AddDays(d, k), -k) == d
  {
    AddDaysAdditive(d, k, -k);
  }

  /** The year field of an ISO 8601 date string: four digits for years
      0..9999, otherwise a sign and six digits (the expanded form). */
  function YearString(y: int): (s: string)
    ensures 0 <= y <= 9999 ==> |s| == 4 && AllDigits(s) && DigitsValue(s) == y
    ensures !(0 <= y <= 9999) ==> |s| == 7 && s[0] == (if y < 0 then '-' else '+') && AllDigits(s[1..])
    ensures !(0 <= y <= 9999) && -1000000 < y < 1000000 ==> DigitsValue(s[1..]) == (if y < 0 then -y else y)
  {
    if 0 <= y <= 9999 then
      FixedDigitsRoundTrip(y, 4);
      FixedDigits(y, 4)
    else
      var a := if y < 0 then -y else y;
      var t := (if y < 0 then "-" else "+") + FixedDigits(a, 6);
      assert t[1..] == FixedDigits(a, 6);
      FixedDigitsSix(a);
      t
  }

  /** The key of a day: the date part of its ISO 8601 string. That part
      contains no `T`, so cutting the string at its first `T` keeps all of it. */
  function FormatDate(d: Date): (key: string)
    requires ValidDate(d)
    ensures 'T' !in key
    ensures 0 <= d.year <= 9999 ==> |key| == 10 && key[4] == '-' && key[7] == '-'
  {
    YearString(d.year) + "-" + FixedDigits(d.month, 2) + "-" + FixedDigits(d.day, 2)
  }

  /** The ten characters of the key of a day in years 0..9999. */
  function DateKeyChars(d: Date): seq<char>
    requires 0 <= d.year <= 9999 && 1 <= d.month <= 12 && 1 <= d.day <= 31
  {
    var y := d.year;
    [DigitChar(y / 1000), DigitChar(y / 100 % 10), DigitChar(y / 10 % 10), DigitChar(y % 10), '-',
     DigitChar(d.month / 10), DigitChar(d.month % 10), '-',
     DigitChar(d.day / 10), DigitChar(d.day % 10)]
  }

  lemma FormatDateChars(d: Date)
    requires ValidDate(d) && 0 <= d.year <= 9999
    ensures FormatDate(d) == DateKeyChars(d)
  {
    FixedDigitsFour(d.year);
    FixedDigitsTwo(d.month);
    FixedDigitsTwo(d.day);
  }

  /** Reads a `YYYY-MM-DD` key back into the day it names; `None` for any
      string that is not the key of an existing day. */
  function ParseDateKey(s: string): (r: Option<Date>)
    ensures r.Some? ==> ValidDate(r.value) && 0 <= r.value.year <= 9999
  {
    if |s| == 10 && s[4] == '-' && s[7] == '-'
       && AllDigits(s[..4]) && AllDigits(s[5..7]) && AllDigits(s[8..])
    then
      var d := Date(DigitsValue(s[..4]), DigitsValue(s[5..7]), DigitsValue(s[8..]));
      if ValidDate(d) then Some(d) else None
    else None
  }

  /** The date key of a day names that day. */
  lemma FormatDateParses(d: Date)
    requires ValidDate(d) && 0 <= d.year <= 9999
    ensures ParseDateKey(FormatDate(d)) == Some(d)
  {
    var key := FormatDate(d);
    assert key[..4] == YearString(d.year);
    assert key[5..7] == FixedDigits(d.month, 2);
    assert key[8..] == FixedDigits(d.day, 2);
    FixedDigitsRoundTrip(d.month, 2);
    FixedDigitsRoundTrip(d.day, 2);
  }

  /** Every well-formed key is the key of the day it names. */
  lemma ParsedDateKeyFormats(s: string)
    requires ParseDateKey(s).Some?
    ensures FormatDate(ParseDateKey(s).value) == s
  {
    var d := ParseDateKey(s).value;
    DigitsRoundTrip(s[..4]);
    DigitsRoundTrip(s[5..7]);
    DigitsRoundTrip(s[8..]);
    assert s == s[..4] + "-" + s[5..7] + "-" + s[8..];
  }

  /** Distinct days of years 0..9999 get distinct keys. */
  lemma FormatDateInjective(d1: Date, d2: Date)
    requires ValidDate(d1) && 0 <= d1.year <= 9999
    requires ValidDate(d2) && 0 <= d2.year <= 9999
    requires FormatDate(d1) == FormatDate(d2)
    ensures d1 == d2
  {
    FormatDateParses(d1);
    FormatDateParses(d2);
  }
}
