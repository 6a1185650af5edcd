/** Date-times with a UTC offset, as `OffsetDateTime.parse(text,
    DateTimeFormatter.ISO_DATE_TIME)` reads them on the feed's timestamps
    (the RFC 3339 section 5.6 profile), and the whole-minute difference
    `Duration.between(planned, estimated).toMinutes()`. */
module Timestamps {
  import opened Wrappers
  import opened Text

  /** A local date and time and the offset from UTC it was written in. */
  datatype DateTime = DateTime(
    year: int, month: int, day: int,
    hour: int, minute: int, second: int, nano: int,
    offsetSeconds: int)

  /** The largest offset a `java.time.ZoneOffset` admits: 18 hours. */
  const MaxOffsetSeconds: int := 18 * 3600

  const NanosPerSecond: int := 1_000_000_000

  predicate IsLeapYear(y: int) {
    y % 4 == 0 && (y % 100 != 0 || y % 400 == 0)
  }

  function DaysInMonth(y: int, m: int): int
    requires 1 <= m <= 12
  {
    if m == 2 then (if IsLeapYear(y) then 29 else 28)
    else if m == 4 || m == 6 || m == 9 || m == 11 then 30
    else 31
  }

  /** A calendar-correct date-time whose offset is whole minutes within
      the range Java admits. */
  predicate Valid(t: DateTime) {
    && 0 <= t.year <= 9999
    && 1 <= t.month <= 12
    && 1 <= t.day <= DaysInMonth(t.year, t.month)
    && 0 <= t.hour <= 23 && 0 <= t.minute <= 59 && 0 <= t.second <= 59
    && 0 <= t.nano < NanosPerSecond
    && -MaxOffsetSeconds <= t.offsetSeconds <= MaxOffsetSeconds
    && t.offsetSeconds % 60 == 0
  }

  /** Days from 0000-01-01 to the first day of year `y` (proleptic Gregorian). */
  function DaysBeforeYear(y: nat): int {
    365 * y + (y + 3) / 4 - (y + 99) / 100 + (y + 399) / 400
  }

  function DaysBeforeMonth(y: int, m: int): int
    requires 1 <= m <= 12
  {
    [0, 31, 59, 90, 120, 151, 181, 212, 243, 273, 304, 334][m - 1]
    + (if m > 2 && IsLeapYear(y) then 1 else 0)
  }

  /** Days from 0000-01-01 to 1970-01-01. */
  const UnixEpochDay: int := 719528

  function EpochDay(t: DateTime): int
    requires Valid(t)
  {
    DaysBeforeYear(t.year) + DaysBeforeMonth(t.year, t.month) + t.day - 1 - UnixEpochDay
  }

  /** The instant `t` denotes, in nanoseconds since 1970-01-01T00:00:00Z. */
  function EpochNano(t: DateTime): int
    requires Valid(t)
  {
    var seconds := EpochDay(t) * 86400 + t.hour * 3600 + t.minute * 60 + t.second - t.offsetSeconds;
    seconds * NanosPerSecond + t.nano
  }

  /** `seconds / 60` in Java's `long` arithmetic, which truncates toward zero
      (Dafny's `/` is Euclidean and would round a negative quotient down). */
  function TruncMinutes(seconds: int): (m: int)
    ensures seconds >= 0 ==> 0 <= m && 60 * m <= seconds < 60 * m + 60
    ensures seconds <= 0 ==> m <= 0 && seconds <= 60 * m < seconds + 60
  {
    if seconds >= 0 then seconds / 60 else -((-seconds) / 60)
  }

  /** The whole seconds of a `java.time.Duration`: it keeps a non-negative
      nanosecond part, so its seconds are the nanoseconds rounded down. */
  function DurationSeconds(nanos: int): (s: int)
    ensures s * NanosPerSecond <= nanos < s * NanosPerSecond + NanosPerSecond
  {
    nanos / NanosPerSecond
  }

  /** `Duration.between(planned, estimated).toMinutes()`. */
  function DelayMinutes(planned: DateTime, estimated: DateTime): (m: int)
    requires Valid(planned) && Valid(estimated)
    ensures var gap := EpochNano(estimated) - EpochNano(planned);
      gap >= 0 ==> 0 <= m && m * 60 * NanosPerSecond <= gap < (m * 60 + 60) * NanosPerSecond
    ensures var gap := EpochNano(estimated) - EpochNano(planned);
      gap < 0 ==> m <= 0 && (m * 60 - 59) * NanosPerSecond <= gap < (m * 60 + 1) * NanosPerSecond
  {
    TruncMinutes(DurationSeconds(EpochNano(estimated) - EpochNano(planned)))
  }

  /** The delay is positive exactly when the estimate is a full minute or more
      after the plan, and negative exactly when it is more than 59 seconds
      before it: running early, a fraction of a second already counts
      toward the next whole second. */
  lemma DelaySign(planned: DateTime, estimated: DateTime)
    requires Valid(planned) && Valid(estimated)
    ensures DelayMinutes(planned, estimated) > 0
            <==> EpochNano(estimated) - EpochNano(planned) >= 60 * NanosPerSecond
    ensures DelayMinutes(planned, estimated) < 0
            <==> EpochNano(estimated) - EpochNano(planned) < -59 * NanosPerSecond
  {
    var d := EpochNano(estimated) - EpochNano(planned);
    var s := DurationSeconds(d);
    assert s >= 60 <==> d >= 60 * NanosPerSecond;
    assert s <= -60 <==> d < -59 * NanosPerSecond;
  }

  /** Number of leading digits of `s`, at most `max`. */
  function LeadingDigits(s: string, max: nat): (n: nat)
    ensures n <= max && n <= |s|
    ensures AllDigits(s[..n])
    ensures n < max && n < |s| ==> !IsDigit(s[n])
  {
    if max == 0 || s == [] || !IsDigit(s[0]) then 0
    else
      var n := 1 + LeadingDigits(s[1..], max - 1);
      assert s[..n] == [s[0]] + s[1..][..n - 1];
      n
  }

  /** The number two decimal digits denote. */
  function TwoDigitValue(hi: char, lo: char): nat
    requires IsDigit(hi) && IsDigit(lo)
  {
    DigitValue(hi) * 10 + DigitValue(lo)
  }

  /** `n` written with two digits, padded with a leading zero. */
  function TwoDigits(n: nat): (s: string)
    requires n < 100
    ensures |s| == 2 && IsDigit(s[0]) && IsDigit(s[1]) && TwoDigitValue(s[0], s[1]) == n
  {
    [DigitChar(n / 10), DigitChar(n % 10)]
  }

  /** `n` written with four digits, padded with leading zeros. */
  function FourDigits(n: nat): (s: string)
    requires n < 10000
    ensures |s| == 4 && IsDigit(s[0]) && IsDigit(s[1]) && IsDigit(s[2]) && IsDigit(s[3])
    ensures TwoDigitValue(s[0], s[1]) * 100 + TwoDigitValue(s[2], s[3]) == n
  {
    TwoDigits(n / 100) + TwoDigits(n % 100)
  }

  /** The offset: `Z`, or a sign with two-digit hours and minutes. */
  function ParseOffset(s: string): (r: Option<int>)
    ensures r.Some? ==> -MaxOffsetSeconds <= r.value <= MaxOffsetSeconds && r.value % 60 == 0
  {
    if s == "Z" then Some(0)
    else if |s| == 6 && (s[0] == '+' || s[0] == '-') && IsDigit(s[1]) && IsDigit(s[2]) && s[3] == ':'
            && IsDigit(s[4]) && IsDigit(s[5]) then
      var hours, minutes := TwoDigitValue(s[1], s[2]), TwoDigitValue(s[4], s[5]);
      var total := hours * 3600 + minutes * 60;
      if minutes > 59 || total > MaxOffsetSeconds then None
      else Some(if s[0] == '+' then total else -total)
    else None
  }

  /** `yyyy-MM-ddTHH:mm` at the start of the text. */
  predicate HeadShape(s: string) {
    && |s| >= 16
    && IsDigit(s[0]) && IsDigit(s[1]) && IsDigit(s[2]) && IsDigit(s[3]) && s[4] == '-'
    && IsDigit(s[5]) && IsDigit(s[6]) && s[7] == '-' && IsDigit(s[8]) && IsDigit(s[9])
    && (s[10] == 'T' || s[10] == 't')
    && IsDigit(s[11]) && IsDigit(s[12]) && s[13] == ':' && IsDigit(s[14]) && IsDigit(s[15])
  }

  /** What follows the minutes: optional `:ss`, then, only after seconds, an
      optional `.` with one to nine digits. Gives the second, the
      nanosecond and the text that remains for the offset. */
  function ParseSeconds(rest: string): Option<(int, int, string)> {
    if !(|rest| >= 3 && rest[0] == ':' && IsDigit(rest[1]) && IsDigit(rest[2])) then Some((0, 0, rest))
    else
      var second := TwoDigitValue(rest[1], rest[2]);
      var after := rest[3..];
      if !(|after| >= 1 && after[0] == '.') then Some((second, 0, after))
      else
        var digits := after[1..];
        var n := LeadingDigits(digits, 9);
        if n == 0 then None
        else Some((second, DigitsValue(digits[..n]) * Pow10(9 - n), digits[n..]))
  }

  /** A timestamp `yyyy-MM-ddTHH:mm[:ss[.fraction]]` followed by `Z` or
      `+HH:MM`/`-HH:MM`; `None` where Java's formatter would throw,
      including an impossible calendar date. */
  function Parse(s: string): (r: Option<DateTime>)
    ensures r.Some? ==> Valid(r.value)
  {
    if !HeadShape(s) then None
    else
      match ParseSeconds(s[16..])
      case None => None
      case Some((second, nano, rest)) =>
        match ParseOffset(rest)
        case None => None
        case Some(offset) =>
          var t := DateTime(TwoDigitValue(s[0], s[1]) * 100 + TwoDigitValue(s[2], s[3]),
                            TwoDigitValue(s[5], s[6]), TwoDigitValue(s[8], s[9]),
                            TwoDigitValue(s[11], s[12]), TwoDigitValue(s[14], s[15]),
                            second, nano, offset);
          if Valid(t) then Some(t) else None
  }

  /** `yyyy-MM-ddTHH:mm` of a date-time. */
  function HeadText(t: DateTime): (s: string)
    requires Valid(t)
    ensures |s| == 16
  {
    FourDigits(t.year) + "-" + TwoDigits(t.month) + "-" + TwoDigits(t.day)
    + "T" + TwoDigits(t.hour) + ":" + TwoDigits(t.minute)
  }

  /** `:ss`, and a nine-digit fraction when the nanoseconds are not zero. */
  function SecondsText(t: DateTime): string
    requires Valid(t)
  {
    ":" + TwoDigits(t.second) + (if t.nano == 0 then "" else "." + PadDigits(t.nano, 9))
  }

  function OffsetText(offset: int): string
    requires -MaxOffsetSeconds <= offset <= MaxOffsetSeconds
  {
    if offset == 0 then "Z"
    else
      var a := if offset < 0 then -offset else offset;
      [if offset < 0 then '-' else '+'] + TwoDigits(a / 3600) + ":" + TwoDigits(a % 3600 / 60)
  }

  /** The canonical RFC 3339 text of a date-time: seconds always written, a
      nine-digit fraction when there is one, `Z` for a zero offset. */
  function Format(t: DateTime): string
    requires Valid(t)
  {
    HeadText(t) + SecondsText(t) + OffsetText(t.offsetSeconds)
  }

  lemma OffsetArithmetic(a: int)
    requires 0 < a <= MaxOffsetSeconds && a % 60 == 0
    ensures a / 3600 <= 18 && a % 3600 / 60 <= 59
    ensures (a / 3600) * 3600 + (a % 3600 / 60) * 60 == a
  {
  }

  /** The offset text reads back as the offset. */
  lemma OffsetRoundTrip(offset: int)
    requires -MaxOffsetSeconds <= offset <= MaxOffsetSeconds && offset % 60 == 0
    ensures ParseOffset(OffsetText(offset)) == Some(offset)
  {
    if offset != 0 {
      var a := if offset < 0 then -offset else offset;
      OffsetArithmetic(a);
      OffsetFieldsRoundTrip(if offset < 0 then '-' else '+', a / 3600, a % 3600 / 60);
    }
  }

  /** A sign, two-digit hours and two-digit minutes read back as the signed
      number of seconds they denote. */
  lemma OffsetFieldsRoundTrip(sign: char, hours: nat, minutes: nat)
    requires sign == '+' || sign == '-'
    requires hours <= 18 && minutes <= 59 && hours * 3600 + minutes * 60 <= MaxOffsetSeconds
    ensures var total := hours * 3600 + minutes * 60;
      ParseOffset([sign] + TwoDigits(hours) + ":" + TwoDigits(minutes))
      == Some(if sign == '-' then -total else total)
  {
    var s := [sign] + TwoDigits(hours) + ":" + TwoDigits(minutes);
    assert s[1..3] == TwoDigits(hours) && s[4..6] == TwoDigits(minutes);
  }

  /** The head text reads back as its five fields. */
  lemma HeadRoundTrip(t: DateTime, rest: string)
    requires Valid(t)
    ensures var s := HeadText(t) + rest;
      && HeadShape(s) && s[16..] == rest
      && TwoDigitValue(s[0], s[1]) * 100 + TwoDigitValue(s[2], s[3]) == t.year
      && TwoDigitValue(s[5], s[6]) == t.month && TwoDigitValue(s[8], s[9]) == t.day
      && TwoDigitValue(s[11], s[12]) == t.hour && TwoDigitValue(s[14], s[15]) == t.minute
  {
    var s := HeadText(t) + rest;
    assert s[0..4] == FourDigits(t.year);
    assert s[5..7] == TwoDigits(t.month);
    assert s[8..10] == TwoDigits(t.day);
    assert s[11..13] == TwoDigits(t.hour);
    assert s[14..16] == TwoDigits(t.minute);
  }

  /** A run of exactly `max` digits is read whole, whatever follows it. */
  lemma {:induction false} LeadingDigitsOfDigits(d: string, rest: string, max: nat)
    requires AllDigits(d) && |d| == max
    ensures LeadingDigits(d + rest, max) == max
  {
    if max > 0 {
      assert (d + rest)[1..] == d[1..] + rest;
      LeadingDigitsOfDigits(d[1..], rest, max - 1);
    }
  }

  /** The seconds text reads back as the second and the nanosecond, leaving
      the offset text that follows it. */
  lemma SecondsRoundTrip(t: DateTime)
    requires Valid(t)
    ensures ParseSeconds(SecondsText(t) + OffsetText(t.offsetSeconds))
            == Some((t.second, t.nano, OffsetText(t.offsetSeconds)))
  {
    var off := OffsetText(t.offsetSeconds);
    var rest := SecondsText(t) + off;
    assert off[0] == 'Z' || off[0] == '+' || off[0] == '-';
    assert rest[1..3] == TwoDigits(t.second);
    if t.nano == 0 {
      assert rest[3..] == off;
    } else {
      FractionRoundTrip(t.nano, off);
      assert rest[3..] == "." + PadDigits(t.nano, 9) + off;
    }
  }

  /** A nine-digit fraction reads back as its nanoseconds. */
  lemma FractionRoundTrip(nano: int, off: string)
    requires 0 < nano < NanosPerSecond
    requires off != [] && !IsDigit(off[0])
    ensures var after := "." + PadDigits(nano, 9) + off;
      && after[1..][..LeadingDigits(after[1..], 9)] == PadDigits(nano, 9)
      && after[1..][LeadingDigits(after[1..], 9)..] == off
      && LeadingDigits(after[1..], 9) == 9
      && AllDigits(PadDigits(nano, 9)) && DigitsValue(PadDigits(nano, 9)) == nano
  {
    var digits := PadDigits(nano, 9);
    var after := "." + digits + off;
    assert after[1..] == digits + off;
    assert Pow10(9) == NanosPerSecond;
    PadDigitsValue(nano, 9);
    LeadingDigitsOfDigits(digits, off, 9);
  }

  /** Parsing the canonical text of a valid date-time gives it back. */
  lemma ParseFormat(t: DateTime)
    requires Valid(t)
    ensures Parse(Format(t)) == Some(t)
  {
    var tail := SecondsText(t) + OffsetText(t.offsetSeconds);
    var s := HeadText(t) + tail;
    assert Format(t) == s;
    HeadRoundTrip(t, tail);
    SecondsRoundTrip(t);
    OffsetRoundTrip(t.offsetSeconds);
    ParseFields(s, (t.second, t.nano, OffsetText(t.offsetSeconds)), t);
  }

  /** `Parse` in terms of what its three stages read. */
  lemma ParseFields(s: string, seconds: (int, int, string), t: DateTime)
    requires HeadShape(s) && ParseSeconds(s[16..]) == Some(seconds)
    requires ParseOffset(seconds.2) == Some(t.offsetSeconds)
    requires t == DateTime(TwoDigitValue(s[0], s[1]) * 100 + TwoDigitValue(s[2], s[3]),
                           TwoDigitValue(s[5], s[6]), TwoDigitValue(s[8], s[9]),
                           TwoDigitValue(s[11], s[12]), TwoDigitValue(s[14], s[15]),
                           seconds.0, seconds.1, t.offsetSeconds)
    requires Valid(t)
    ensures Parse(s) == Some(t)
  {
  }
}

/** Worked examples of the timestamp arithmetic on concrete feed values. */
module TimestampExamples {
  import opened Wrappers
  import opened Text
  import opened Timestamps

  /** 10:00 planned and 10:07 estimated, both at UTC+11, are seven
      minutes apart. */
  lemma SevenMinutesLate()
    ensures DelayMinutes(DateTime(2024, 1, 1, 10, 0, 0, 0, 11 * 3600),
                         DateTime(2024, 1, 1, 10, 7, 0, 0, 11 * 3600)) == 7
  {
  }

  /** 10:00:30 planned and 10:00:00 estimated: half a minute early is no
      whole minute, because the minutes are truncated toward zero. */
  lemma HalfMinuteEarlyIsOnTime()
    ensures DelayMinutes(DateTime(2024, 1, 1, 10, 0, 30, 0, 0),
                         DateTime(2024, 1, 1, 10, 0, 0, 0, 0)) == 0
  {
  }

  /** The Unix epoch is instant zero. */
  lemma UnixEpochIsZero()
    ensures EpochNano(DateTime(1970, 1, 1, 0, 0, 0, 0, 0)) == 0
  {
  }
}
