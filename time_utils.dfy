/**
 * Clock times and their storage form. The database keeps a `datetime.time` as the whole number
 * of minutes since midnight (`time_to_minutes` is registered as the adapter, `minutes_to_time`
 * as the converter), so the round trip between the two decides what a stored time slot reads
 * back as. Durations are formatted as "HH:MM:SS".
 */
module TimeUtils {
  import opened Wrappers
  import Strings

  const HOURS_PER_DAY: int := 24
  const MINUTES_PER_HOUR: int := 60
  const SECONDS_PER_HOUR: int := 3600
  const SECONDS_PER_MINUTE: int := 60
  const MAX_MINUTES_PER_DAY: int := (HOURS_PER_DAY - 1) * MINUTES_PER_HOUR + (MINUTES_PER_HOUR - 1)

  /** `MAX_MINUTES_PER_DAY` is the last minute of a day. */
  lemma MaxMinutesPerDay()
    ensures MAX_MINUTES_PER_DAY == 23 * 60 + 59 == 1439
  {
  }

  /** A `datetime.time` without time zone. */
  datatype Time = Time(hour: int, minute: int, second: int, microsecond: int)
  {
    /** The ranges `datetime.time` enforces on construction. */
    predicate Valid()
    {
      0 <= hour < 24 && 0 <= minute < 60 && 0 <= second < 60 && 0 <= microsecond < 1000000
    }
  }

  /** `time(hour, minute)`: seconds and microseconds default to zero. */
  function HourMinute(hour: int, minute: int): Time
  {
    Time(hour, minute, 0, 0)
  }

  /** `a < b` on `time` objects: field by field, hour first. */
  predicate TimeLess(a: Time, b: Time)
  {
    a.hour < b.hour ||
    (a.hour == b.hour && (a.minute < b.minute ||
    (a.minute == b.minute && (a.second < b.second ||
    (a.second == b.second && a.microsecond < b.microsecond)))))
  }

  /** `time_to_minutes`: minutes since midnight, from the hour and minute alone. */
  function TimeToMinutes(t: Time): (r: int)
    ensures t.Valid() ==> 0 <= r <= MAX_MINUTES_PER_DAY
    ensures r % MINUTES_PER_HOUR == t.minute % MINUTES_PER_HOUR
  {
    t.hour * MINUTES_PER_HOUR + t.minute
  }

  /** Seconds and microseconds do not reach the stored value. */
  lemma TimeToMinutesIgnoresSeconds(t: Time, second: int, microsecond: int)
    ensures TimeToMinutes(t.(second := second, microsecond := microsecond)) == TimeToMinutes(t)
  {
  }

  /** Why `minutes_to_time` raises `ValueError`: the offending number of minutes. */
  datatype TimeError = MinutesOutOfRange(minutes: int)

  /**
   * `minutes_to_time`: the time that lies `m` minutes after midnight; `ValueError` exactly when
   * `m` is negative or past the last minute of the day.
   */
  function MinutesToTime(m: int): (r: Result<Time, TimeError>)
    ensures r.Err? <==> m < 0 || m > MAX_MINUTES_PER_DAY
    ensures r.Err? ==> r.error == MinutesOutOfRange(m)
    ensures r.Ok? ==> r.value.Valid() && r.value.second == 0 && r.value.microsecond == 0
    ensures r.Ok? ==> TimeToMinutes(r.value) == m
  {
    if m < 0 || m > MAX_MINUTES_PER_DAY then Err(MinutesOutOfRange(m))
    else HourMinuteOfDay(m)
  }

  /** `divmod` by 60 of a minute of the day, packed as a time. */
  function HourMinuteOfDay(m: int): (r: Result<Time, TimeError>)
    requires 0 <= m <= MAX_MINUTES_PER_DAY
    ensures r.Ok? && r.value.Valid() && r.value.second == 0 && r.value.microsecond == 0
    ensures r.value.hour * MINUTES_PER_HOUR + r.value.minute == m
  {
    var hour := m / MINUTES_PER_HOUR;
    var minute := m % MINUTES_PER_HOUR;
    Ok(HourMinute(hour, minute))
  }

  /** Storing a minute of the day and reading it back gives the same number. */
  lemma MinutesRoundTrip(m: int)
    requires 0 <= m <= MAX_MINUTES_PER_DAY
    ensures MinutesToTime(m).Ok? && TimeToMinutes(MinutesToTime(m).value) == m
  {
  }

  /**
   * Reading back a stored time keeps its hour and minute and drops the seconds and
   * microseconds.
   */
  lemma {:induction false} TimeRoundTrip(t: Time)
    requires t.Valid()
    ensures MinutesToTime(TimeToMinutes(t)) == Ok(HourMinute(t.hour, t.minute))
  {
    var m := TimeToMinutes(t);
    var r := MinutesToTime(m).value;
    DivModUnique(m, t.hour, t.minute, r.hour, r.minute);
  }

  lemma DivModUnique(m: int, h1: int, m1: int, h2: int, m2: int)
    requires 0 <= m1 < 60 && 0 <= m2 < 60
    requires h1 * 60 + m1 == m && h2 * 60 + m2 == m
    ensures h1 == h2 && m1 == m2
  {
    assert (h1 - h2) * 60 == m2 - m1;
  }

  /**
   * For the whole-minute times the database hands back, the `time` order agrees with the order of
   * the stored minute counts.
   */
  lemma {:induction false} TimeLessMinutes(a: Time, b: Time)
    requires a.Valid() && b.Valid()
    requires a.second == 0 && a.microsecond == 0 && b.second == 0 && b.microsecond == 0
    ensures TimeLess(a, b) <==> TimeToMinutes(a) < TimeToMinutes(b)
  {
    if a.hour < b.hour {
      assert a.hour * 60 + 60 <= b.hour * 60;
    } else if b.hour < a.hour {
      assert b.hour * 60 + 60 <= a.hour * 60;
    }
  }

  // ---------------------------------------------------------------------------------------------
  // durations

  /** The three fields of `seconds_to_formatted_duration`: the two `divmod` steps. */
  datatype Duration = Duration(hours: nat, minutes: nat, seconds: nat)

  function DurationOf(s: nat): (d: Duration)
    ensures d.hours * SECONDS_PER_HOUR + d.minutes * SECONDS_PER_MINUTE + d.seconds == s
    ensures d.minutes < 60 && d.seconds < 60
  {
    var hours := s / SECONDS_PER_HOUR;
    var remainder := s % SECONDS_PER_HOUR;
    Duration(hours, remainder / SECONDS_PER_MINUTE, remainder % SECONDS_PER_MINUTE)
  }

  /** `seconds_to_formatted_duration` on a whole number of seconds. */
  function FormattedDuration(s: nat): string
  {
    var d := DurationOf(s);
    Strings.PadTwo(d.hours) + ":" + Strings.PadTwo(d.minutes) + ":" + Strings.PadTwo(d.seconds)
  }

  /**
   * The formatted duration is three colon-separated fields of at least two digits; the first
   * is the number of whole hours, the second and third exactly two digits each, and together
   * they spell out `s`.
   */
  lemma FormattedDurationFields(s: nat)
    ensures var pieces := Strings.Split(FormattedDuration(s), ':');
      |pieces| == 3 &&
      (forall i :: 0 <= i < 3 ==> |pieces[i]| >= 2 && Strings.AllDigits(pieces[i])) &&
      |pieces[1]| == 2 && |pieces[2]| == 2 &&
      Strings.DecimalValue(pieces[0]) * 3600 + Strings.DecimalValue(pieces[1]) * 60
        + Strings.DecimalValue(pieces[2]) == s
  {
    var d := DurationOf(s);
    var h, m, c := Strings.PadTwo(d.hours), Strings.PadTwo(d.minutes), Strings.PadTwo(d.seconds);
    DigitsHaveNoColon(h);
    DigitsHaveNoColon(m);
    DigitsHaveNoColon(c);
    Strings.SplitJoin([h, m, c], ':');
    assert Strings.Join([h, m, c], ':') == FormattedDuration(s) by {
      assert [h, m, c][1..] == [m, c];
      assert [m, c][1..] == [c];
      assert Strings.Join([c], ':') == c;
      assert Strings.Join([m, c], ':') == m + [':'] + c;
      assert Strings.Join([h, m, c], ':') == h + [':'] + (m + [':'] + c);
    }
  }

  lemma DigitsHaveNoColon(s: string)
    requires Strings.AllDigits(s)
    ensures ':' !in s
  {
    forall i | 0 <= i < |s| ensures s[i] != ':' {
      assert Strings.IsDigit(s[i]);
    }
  }
}
