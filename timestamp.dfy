/** `timestamp(seconds)`: the instant `datetime(1970, 1, 1) + timedelta(...)`
    written as `strftime('%Y-%m-%dT%H:%M:%S.%f')[:-3] + 'Z'`, which is the
    date-time format of section 5.6 of RFC 3339 with three fractional digits.

    The offset is a whole number of microseconds, which is what a
    `timedelta` holds; cutting the last three of the six `%f` digits keeps
    the milliseconds rounded toward the past (floor), never to nearest. */
module Timestamps {

  import opened Results
  import opened Digits
  import opened Calendar

  const MicrosPerMilli: int := 1000
  const MillisPerDay: int := 86_400_000

  /** The offsets, in microseconds, whose instant falls in the years 1 to 9999. */
  const MinOffset: int := MinDays * MillisPerDay * MicrosPerMilli
  const MaxOffset: int := (MaxDays + 1) * MillisPerDay * MicrosPerMilli - 1

  /** Digit i of n counted from the right (i < 4): the fixed-width,
      zero-padded numeric fields of `strftime`. */
  function DigitOf(n: nat, i: nat): char
  {
    DigitChar(if i == 0 then n % 10 else if i == 1 then n / 10 % 10 else if i == 2 then n / 100 % 10 else n / 1000 % 10)
  }

  /** A date and a millisecond of that day as "YYYY-MM-DDTHH:MM:SS.mmmZ":
      `%Y-%m-%dT%H:%M:%S.%f` with the last three `%f` digits cut and 'Z'
      appended. */
  function Format(date: Date, ms: nat): (r: string)
    requires ValidDate(date) && 1 <= date.year
    ensures IsTimestampShape(r)
  {
    seq(24, k requires 0 <= k < 24 => FormatChar(date, ms, k))
  }

  /** Character k of a formatted instant: a separator, or a digit of the
      field that covers position k (a field ending just before position e
      holds at k its digit e - 1 - k from the right). */
  function FormatChar(date: Date, ms: nat, k: nat): char
    requires ValidDate(date) && 1 <= date.year && k < 24
  {
    if k == 4 || k == 7 then '-'
    else if k == 10 then 'T'
    else if k == 13 || k == 16 then ':'
    else if k == 19 then '.'
    else if k == 23 then 'Z'
    else if k < 4 then DigitOf(date.year, 3 - k)
    else if k < 7 then DigitOf(date.month, 6 - k)
    else if k < 10 then DigitOf(date.day, 9 - k)
    else if k < 13 then DigitOf(ms / 3_600_000, 12 - k)
    else if k < 16 then DigitOf(ms / 60_000 % 60, 15 - k)
    else if k < 19 then DigitOf(ms / 1000 % 60, 18 - k)
    else DigitOf(ms % 1000, 22 - k)
  }

  /** Positions of the separators in "YYYY-MM-DDTHH:MM:SS.mmmZ". */
  predicate IsSeparatorPosition(k: int)
  {
    k == 4 || k == 7 || k == 10 || k == 13 || k == 16 || k == 19 || k == 23
  }

  /** The shape "DDDD-DD-DDTDD:DD:DD.DDDZ", D a decimal digit. */
  predicate IsTimestampShape(s: string)
  {
    |s| == 24 && s[4] == '-' && s[7] == '-' && s[10] == 'T' && s[13] == ':' && s[16] == ':'
    && s[19] == '.' && s[23] == 'Z'
    && forall k :: 0 <= k < 24 && !IsSeparatorPosition(k) ==> IsDigit(s[k])
  }

  /** The number written by the w digits of s from position i on (w <= 4). */
  function FieldAt(s: string, i: nat, w: nat): nat
    requires IsTimestampShape(s) && 1 <= w <= 4 && i + w <= 24
    requires forall k :: i <= k < i + w ==> !IsSeparatorPosition(k)
  {
    var d0 := DigitVal(s[i + w - 1]);
    var d1 := if w > 1 then DigitVal(s[i + w - 2]) else 0;
    var d2 := if w > 2 then DigitVal(s[i + w - 3]) else 0;
    var d3 := if w > 3 then DigitVal(s[i + w - 4]) else 0;
    1000 * d3 + 100 * d2 + 10 * d1 + d0
  }

  /** Every field of a formatted instant reads back as the number it was
      written from. */
  lemma FormatFields(date: Date, ms: nat)
    requires ValidDate(date) && 1 <= date.year <= 9999 && ms < MillisPerDay
    ensures var r := Format(date, ms);
      IsTimestampShape(r)
      && FieldAt(r, 0, 4) == date.year && FieldAt(r, 5, 2) == date.month && FieldAt(r, 8, 2) == date.day
      && FieldAt(r, 11, 2) == ms / 3_600_000 && FieldAt(r, 14, 2) == ms / 60_000 % 60
      && FieldAt(r, 17, 2) == ms / 1000 % 60 && FieldAt(r, 20, 3) == ms % 1000
  {
    var r := Format(date, ms);
    assert FieldAt(r, 0, 4) == date.year by {
      FieldOf(r, 0, 4, date.year);
    }
    assert FieldAt(r, 5, 2) == date.month by {
      FieldOf(r, 5, 2, date.month);
    }
    assert FieldAt(r, 8, 2) == date.day by {
      FieldOf(r, 8, 2, date.day);
    }
    assert FieldAt(r, 11, 2) == ms / 3_600_000 by {
      FieldOf(r, 11, 2, ms / 3_600_000);
    }
    assert FieldAt(r, 14, 2) == ms / 60_000 % 60 by {
      FieldOf(r, 14, 2, ms / 60_000 % 60);
    }
    assert FieldAt(r, 17, 2) == ms / 1000 % 60 by {
      FieldOf(r, 17, 2, ms / 1000 % 60);
    }
    assert FieldAt(r, 20, 3) == ms % 1000 by {
      FieldOf(r, 20, 3, ms % 1000);
    }
  }

  /** A field of w digits holding the last w place digits of n, for n
      below 10^w, reads back as n. */
  lemma FieldOf(s: string, i: nat, w: nat, n: nat)
    requires IsTimestampShape(s) && 1 <= w <= 4 && i + w <= 24
    requires forall k :: i <= k < i + w ==> !IsSeparatorPosition(k)
    requires n < Pow10(w)
    requires s[i + w - 1] == DigitOf(n, 0)
    requires w > 1 ==> s[i + w - 2] == DigitOf(n, 1)
    requires w > 2 ==> s[i + w - 3] == DigitOf(n, 2)
    requires w > 3 ==> s[i + w - 4] == DigitOf(n, 3)
    ensures FieldAt(s, i, w) == n
  {
    assert Pow10(4) == 10000;
    PlaceValues(n);
  }

  /** A number below 10000 is the sum of its four place digits. */
  lemma PlaceValues(n: nat)
    requires n < 10000
    ensures 1000 * (n / 1000 % 10) + 100 * (n / 100 % 10) + 10 * (n / 10 % 10) + n % 10 == n
    ensures n < 1000 ==> 100 * (n / 100 % 10) + 10 * (n / 10 % 10) + n % 10 == n
    ensures n < 100 ==> 10 * (n / 10 % 10) + n % 10 == n
  {
    var q1 := n / 10;
    var q2 := q1 / 10;
    var q3 := q2 / 10;
    assert n == 10 * q1 + n % 10;
    assert q1 == 10 * q2 + q1 % 10;
    assert q2 == 10 * q3 + q2 % 10;
    assert n / 100 == q2 by {
      assert n == 100 * q2 + (10 * (q1 % 10) + n % 10);
    }
    assert n / 1000 == q3 by {
      assert n == 1000 * q3 + (100 * (q2 % 10) + 10 * (q1 % 10) + n % 10);
    }
  }

  /** The instant `millis` milliseconds after 1970-01-01T00:00:00. */
  function FormatMillis(millis: int): (r: Result<string>)
    ensures r.Ok? <==> MinDays <= millis / MillisPerDay <= MaxDays
  {
    var date := CivilFromDays(millis / MillisPerDay);
    YearWindow(millis / MillisPerDay);
    if 1 <= date.year <= 9999 then
      Ok(Format(date, millis % MillisPerDay))
    else
      Err(DateOutOfRange)
  }

  /** `timestamp`: fails exactly when the instant leaves the years 1..9999,
      as adding the `timedelta` raises OverflowError there. */
  function Timestamp(micros: int): (r: Result<string>)
    ensures r.Ok? <==> MinOffset <= micros <= MaxOffset
  {
    FormatMillis(micros / MicrosPerMilli)
  }

  /** Reads a timestamp back as milliseconds after 1970-01-01T00:00:00.000. */
  function ParseTimestamp(s: string): (r: Option<int>)
  {
    if !IsTimestampShape(s) then None
    else
      var date := Date(FieldAt(s, 0, 4), FieldAt(s, 5, 2), FieldAt(s, 8, 2));
      var h, m, sec := FieldAt(s, 11, 2), FieldAt(s, 14, 2), FieldAt(s, 17, 2);
      if ValidDate(date) && h < 24 && m < 60 && sec < 60 then
        Some(DaysFromCivil(date) * MillisPerDay + ((h * 60 + m) * 60 + sec) * 1000 + FieldAt(s, 20, 3))
      else None
  }

  /** Every timestamp has the RFC 3339 shape with three fractional digits. */
  lemma TimestampShape(micros: int)
    requires Timestamp(micros).Ok?
    ensures IsTimestampShape(Timestamp(micros).value)
  {
    var millis := micros / MicrosPerMilli;
    FormatFields(CivilFromDays(millis / MillisPerDay), millis % MillisPerDay);
  }

  /** Splitting a millisecond of the day into hours, minutes, seconds and
      milliseconds loses nothing. */
  lemma ClockArithmetic(ms: nat)
    requires ms < MillisPerDay
    ensures ((ms / 3_600_000 * 60 + ms / 60_000 % 60) * 60 + ms / 1000 % 60) * 1000 + ms % 1000 == ms
    ensures ms / 3_600_000 < 24
  {
  }

  /** A well-shaped string whose fields name a valid date and a time of
      day reads back as that instant. */
  lemma ParseFields(s: string, date: Date, ms: nat)
    requires IsTimestampShape(s) && ValidDate(date) && ms < MillisPerDay
    requires FieldAt(s, 0, 4) == date.year && FieldAt(s, 5, 2) == date.month && FieldAt(s, 8, 2) == date.day
    requires FieldAt(s, 11, 2) == ms / 3_600_000 && FieldAt(s, 14, 2) == ms / 60_000 % 60
    requires FieldAt(s, 17, 2) == ms / 1000 % 60 && FieldAt(s, 20, 3) == ms % 1000
    ensures ParseTimestamp(s) == Some(DaysFromCivil(date) * MillisPerDay + ms)
  {
    ClockArithmetic(ms);
  }

  /** Reading a formatted date and millisecond of the day back gives their
      offset from 1970-01-01T00:00:00.000 in milliseconds. */
  lemma FormatRoundTrip(date: Date, ms: nat)
    requires ValidDate(date) && 1 <= date.year <= 9999 && ms < MillisPerDay
    ensures ParseTimestamp(Format(date, ms)) == Some(DaysFromCivil(date) * MillisPerDay + ms)
  {
    FormatFields(date, ms);
    ParseFields(Format(date, ms), date, ms);
  }

  /** Reading a timestamp back gives the offset in whole milliseconds,
      rounded toward the past: the sub-millisecond part is truncated. */
  lemma TimestampRoundTrip(micros: int)
    requires Timestamp(micros).Ok?
    ensures ParseTimestamp(Timestamp(micros).value) == Some(micros / MicrosPerMilli)
  {
    var millis := micros / MicrosPerMilli;
    var date := CivilFromDays(millis / MillisPerDay);
    var ms := millis % MillisPerDay;
    assert Timestamp(micros).value == Format(date, ms);
    FormatRoundTrip(date, ms);
  }

  /** The epoch itself, and the two offsets of the sample stream (0 s and
      2.23 s); the microseconds below a millisecond are dropped. */
  lemma TimestampExamples()
    ensures Timestamp(0) == Ok("1970-01-01T00:00:00.000Z")
    ensures Timestamp(2_230_000) == Ok("1970-01-01T00:00:02.230Z")
    ensures Timestamp(2_230_999) == Ok("1970-01-01T00:00:02.230Z")
  {
    var epoch := Date(1970, 1, 1);
    EpochIsDayZero();
    CivilFromCivil(epoch);
    EpochStart();
    SampleSecondTwo();
  }

  /** The epoch as text. */
  lemma EpochStart()
    ensures Format(Date(1970, 1, 1), 0) == "1970-01-01T00:00:00.000Z"
  {
    var r, text := Format(Date(1970, 1, 1), 0), "1970-01-01T00:00:00.000Z";
    forall k | 0 <= k < 24 ensures r[k] == text[k] {
    }
  }

  /** 2.23 seconds after the epoch as text. */
  lemma SampleSecondTwo()
    ensures Format(Date(1970, 1, 1), 2230) == "1970-01-01T00:00:02.230Z"
  {
    var r, text := Format(Date(1970, 1, 1), 2230), "1970-01-01T00:00:02.230Z";
    forall k | 0 <= k < 24 ensures r[k] == text[k] {
    }
  }
}
