/** Time as the reminder engine sees it: instants are integer milliseconds,
    a schedule entry's `HH:MM` string becomes a minute of the day, and the
    JavaScript weekday (`getDay`, Sunday = 0) becomes a schedule key "1".."7"
    with Monday = "1" (functions/src/index.ts:281, :625, :862). */
module Clock {
  import opened Wrappers
  import Text

  const MINUTE_MS: int := 60 * 1000
  const MINUTES_PER_DAY: int := 24 * 60
  const DAY_MS: int := MINUTES_PER_DAY * MINUTE_MS

  /** A value of JavaScript's `Date.prototype.getDay`: 0 is Sunday. */
  type JsWeekday = d: int | 0 <= d <= 6

  /** The calendar day a pass runs on: local midnight as an instant, the
      `YYYY-MM-DD` key used in habit occurrence keys, and the weekday. */
  datatype Day = Day(start: int, key: string, weekday: JsWeekday)

  predicate IsDigit(c: char) {
    '0' <= c <= '9'
  }

  predicate AllDigits(s: string) {
    forall i :: 0 <= i < |s| ==> IsDigit(s[i])
  }

  /** The value of a decimal numeral. */
  function DigitsValue(s: string): nat
    requires AllDigits(s)
  {
    if |s| == 0 then 0
    else DigitsValue(s[..|s| - 1]) * 10 + (s[|s| - 1] as int - '0' as int)
  }

  /** The longest prefix of `s` made of decimal digits. */
  function LeadingDigits(s: string): (r: string)
    ensures |r| <= |s| && r == s[..|r|]
    ensures AllDigits(r)
    ensures |r| < |s| ==> !IsDigit(s[|r|])
  {
    if |s| > 0 && IsDigit(s[0]) then
      var r := LeadingDigits(s[1..]);
      assert [s[0]] + r == s[..|r| + 1];
      [s[0]] + r
    else ""
  }

  /** JavaScript's `parseInt(s, 10)`: leading white space is skipped, one
      optional sign is read, then the longest run of decimal digits; with no
      digits the result is `NaN`, here `None`. (`-0` becomes 0: the source
      only compares the result with 0, 23 and 59, where the two agree.) */
  function ParseInt(s: string): (r: Option<int>)
  {
    var t := Text.TrimStart(s);
    var negative := |t| > 0 && t[0] == '-';
    var body := if |t| > 0 && (t[0] == '-' || t[0] == '+') then t[1..] else t;
    var digits := LeadingDigits(body);
    if |digits| == 0 then None
    else
      var v: int := DigitsValue(digits);
      Some(if negative then -v else v)
  }

  /** An hour and a minute as `parseInt` read them. */
  datatype TimeOfDay = TimeOfDay(hour: int, minute: int) {
    predicate Valid() {
      0 <= hour <= 23 && 0 <= minute <= 59
    }

    function MinuteOfDay(): int {
      hour * 60 + minute
    }
  }

  /** `parseTimeStringToDate` without the date: the hour and minute an
      `HH:MM` schedule entry names, or `None` (the source's `null`) unless the
      string splits on ':' into exactly two parts whose `parseInt` values are
      an hour in 0..23 and a minute in 0..59. */
  function ParseTime(s: string): (r: Option<TimeOfDay>)
    ensures r.Some? ==> r.value.Valid() && 0 <= r.value.MinuteOfDay() < MINUTES_PER_DAY
    ensures r.Some? ==> Text.Count(s, ':') == 1 && |Text.Split(s, ':')| == 2
    ensures r.Some? ==>
      && ParseInt(Text.Split(s, ':')[0]) == Some(r.value.hour)
      && ParseInt(Text.Split(s, ':')[1]) == Some(r.value.minute)
  {
    var parts := Text.Split(s, ':');
    Text.SplitLength(s, ':');
    if |parts| != 2 then None
    else
      var hour := ParseInt(parts[0]);
      var minute := ParseInt(parts[1]);
      if hour.None? || minute.None? then None
      else
        var t := TimeOfDay(hour.value, minute.value);
        if t.Valid() then Some(t) else None
  }

  /** The instant a schedule entry falls due on `day`: that day's midnight
      plus the parsed hour and minute, seconds and milliseconds zero
      (`date.setHours(hour, minute, 0, 0)`). */
  function DueInstant(day: Day, minuteOfDay: int): int {
    day.start + minuteOfDay * MINUTE_MS
  }

  /** A parsed entry falls due within its own day. */
  lemma DueInstantWithinDay(day: Day, t: TimeOfDay)
    requires t.Valid()
    ensures day.start <= DueInstant(day, t.MinuteOfDay()) < day.start + DAY_MS
  {
  }



  /** The two-digit rendering of 0..99. */
  function TwoDigits(n: int): (r: string)
    requires 0 <= n < 100
    ensures |r| == 2 && AllDigits(r) && DigitsValue(r) == n
  {
    var r := [('0' as int + n / 10) as char, ('0' as int + n % 10) as char];
    assert r[..1] == [r[0]] && [r[0]][..0] == [];
    assert DigitsValue(r[..1]) == n / 10;
    r
  }

  /** The zero-padded `HH:MM` rendering of a time of day. */
  function FormatTime(t: TimeOfDay): string
    requires t.Valid()
  {
    TwoDigits(t.hour) + ":" + TwoDigits(t.minute)
  }

  /** A numeral with nothing around it parses to its value. */
  lemma ParseIntOfDigits(s: string)
    requires |s| > 0 && AllDigits(s)
    ensures ParseInt(s) == Some(DigitsValue(s))
  {
    DigitNotSpace(s[0]);
    Text.TrimStartNoSpace(s);
    LeadingDigitsOfDigits(s);
  }

  lemma DigitNotSpace(c: char)
    requires IsDigit(c)
    ensures !Text.IsSpace(c) && c != '-' && c != '+'
  {
  }

  lemma LeadingDigitsOfDigits(s: string)
    requires AllDigits(s)
    ensures LeadingDigits(s) == s
  {
  }

  /** A rendered time splits on ':' into its two two-digit fields. */
  lemma FormatTimeParts(t: TimeOfDay)
    requires t.Valid()
    ensures Text.Split(FormatTime(t), ':') == [TwoDigits(t.hour), TwoDigits(t.minute)]
  {
    var hh := TwoDigits(t.hour);
    var mm := TwoDigits(t.minute);
    assert ':' !in hh by { assert !IsDigit(':'); }
    assert ':' !in mm by { assert !IsDigit(':'); }
    Text.SplitNoSeparator(hh, ':');
    Text.SplitNoSeparator(mm, ':');
    Text.SplitAround(hh, mm, ':');
    assert FormatTime(t) == hh + [':'] + mm;
  }

  /** A string made of two fields around one ':' parses to the time its
      fields' `parseInt` values name, when that time is valid. */
  lemma ParseTimeOfFields(s: string, hh: string, mm: string, t: TimeOfDay)
    requires Text.Split(s, ':') == [hh, mm]
    requires ParseInt(hh) == Some(t.hour) && ParseInt(mm) == Some(t.minute)
    requires t.Valid()
    ensures ParseTime(s) == Some(t)
  {
  }

  /** Every well-formed `HH:MM` string parses back to the hour and minute it
      renders: the round trip of `FormatTime` and `ParseTime`. */
  lemma ParseFormatTime(t: TimeOfDay)
    requires t.Valid()
    ensures ParseTime(FormatTime(t)) == Some(t)
  {
    var hh, mm := TwoDigits(t.hour), TwoDigits(t.minute);
    FormatTimeParts(t);
    ParseIntOfDigits(hh);
    ParseIntOfDigits(mm);
    ParseTimeOfFields(FormatTime(t), hh, mm, t);
  }

  /** A string with no ':' or with two or more is never a time of day. */
  lemma ParseTimeNeedsOneColon(s: string)
    requires Text.Count(s, ':') != 1
    ensures ParseTime(s) == None
  {
  }

  /** The schedule key for a JavaScript weekday: Monday (1) is "1" and
      Sunday (0) is "7" (`(getDay() === 0 ? 7 : getDay()).toString()`). */
  function ScheduleKey(d: JsWeekday): (k: string)
    ensures |k| == 1 && '1' <= k[0] <= '7'
    ensures d == 0 <==> k == "7"
  {
    var n := if d == 0 then 7 else d;
    [('0' as int + n) as char]
  }

  /** The weekday a schedule key stands for; the inverse of `ScheduleKey`. */
  function WeekdayOfKey(k: string): (r: Option<JsWeekday>)
  {
    if |k| == 1 && '1' <= k[0] <= '7' then
      var n := k[0] as int - '0' as int;
      Some(if n == 7 then 0 else n)
    else None
  }

  /** Distinct weekdays read distinct schedule entries, and every schedule
      key "1".."7" is read on exactly one weekday. */
  lemma ScheduleKeyRoundTrip(d: JsWeekday, k: string)
    ensures WeekdayOfKey(ScheduleKey(d)) == Some(d)
    ensures WeekdayOfKey(k).Some? ==> ScheduleKey(WeekdayOfKey(k).value) == k
  {
  }
}
