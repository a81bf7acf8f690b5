/**
 * Model of `format_duration` in src/utils.py: a number of seconds shown as
 * `XhYmZs`, with the hours and minutes fields present only when needed.
 */
module Utils {
  import opened Strings

  /** `divmod(seconds, 3600)` and then `divmod(remainder, 60)`. */
  datatype Clock = Clock(hours: nat, minutes: nat, seconds: nat)

  function ToClock(total: nat): (c: Clock)
    ensures c.hours * 3600 + c.minutes * 60 + c.seconds == total
    ensures c.minutes < 60 && c.seconds < 60
  {
    var hours := total / 3600;
    var remainder := total % 3600;
    Clock(hours, remainder / 60, remainder % 60)
  }

  /**
   * `format_duration` applied to a whole number of seconds (the value after
   * `round`): the `h` field when there are hours, the `m` field when there
   * are minutes or hours, and always the `s` field.
   */
  function FormatDuration(total: nat): string {
    FormatClock(ToClock(total))
  }

  /** The `parts` list of `format_duration`, joined. */
  function FormatClock(c: Clock): string {
    (if c.hours > 0 then NatToString(c.hours) + "h" else "")
    + ((if c.minutes > 0 || c.hours > 0 then NatToString(c.minutes) + "m" else "")
       + (NatToString(c.seconds) + "s"))
  }

  /**
   * Reads back a string of `<digits><unit>` fields, the last of which is an
   * `s` field, adding up the fields weighted by 3600, 60 and 1.
   */
  function ParseDuration(s: string): Option<nat>
    decreases |s|
  {
    match ReadField(s)
    case None => None
    case Some((v, u, rest)) =>
      if u == 's' then (if rest == [] then Some(v) else None)
      else if u == 'h' || u == 'm' then
        match ParseDuration(rest)
        case None => None
        case Some(w) => Some((if u == 'h' then v * 3600 else v * 60) + w)
      else None
  }

  /** A field whose letter is `h` or `m`, read from the front of `s`, adds its weighted value to the rest. */
  lemma ParseWeightedField(s: string, v: nat, u: char, rest: string, w: nat)
    requires u == 'h' || u == 'm'
    requires ReadField(s) == Some((v, u, rest))
    requires ParseDuration(rest) == Some(w)
    ensures ParseDuration(s) == Some((if u == 'h' then v * 3600 else v * 60) + w)
  {
  }

  /** The closing `s` field on its own. */
  lemma ParseSecondsField(ds: string)
    requires ds != [] && AllDigits(ds)
    ensures ParseDuration(ds + "s") == Some(ParseDigits(ds))
  {
    ReadFieldOf(ds, 's', []);
    assert ds + ['s'] + [] == ds + "s";
  }

  /** An `m` field in front of a well-formed rest adds that many minutes. */
  lemma ParseMinutesField(dm: string, rest: string, w: nat)
    requires dm != [] && AllDigits(dm)
    requires ParseDuration(rest) == Some(w)
    ensures ParseDuration(dm + "m" + rest) == Some(ParseDigits(dm) * 60 + w)
  {
    ReadFieldOf(dm, 'm', rest);
    ParseWeightedField(dm + "m" + rest, ParseDigits(dm), 'm', rest, w);
  }

  /** An `h` field in front of a well-formed rest adds that many hours. */
  lemma ParseHoursField(dh: string, rest: string, w: nat)
    requires dh != [] && AllDigits(dh)
    requires ParseDuration(rest) == Some(w)
    ensures ParseDuration(dh + "h" + rest) == Some(ParseDigits(dh) * 3600 + w)
  {
    ReadFieldOf(dh, 'h', rest);
    ParseWeightedField(dh + "h" + rest, ParseDigits(dh), 'h', rest, w);
  }

  lemma RoundTripWithHours(c: Clock)
    requires c.hours > 0
    ensures ParseDuration(FormatClock(c)) == Some(c.hours * 3600 + c.minutes * 60 + c.seconds)
  {
    var ds := NatToString(c.seconds);
    var dm := NatToString(c.minutes);
    NatToStringParses(c.hours);
    NatToStringParses(c.minutes);
    NatToStringParses(c.seconds);
    var mField := dm + "m" + (ds + "s");
    assert FormatClock(c) == NatToString(c.hours) + "h" + mField;
    ParseSecondsField(ds);
    ParseMinutesField(dm, ds + "s", c.seconds);
    ParseHoursField(NatToString(c.hours), mField, c.minutes * 60 + c.seconds);
  }

  lemma RoundTripWithMinutes(c: Clock)
    requires c.hours == 0 && c.minutes > 0
    ensures ParseDuration(FormatClock(c)) == Some(c.minutes * 60 + c.seconds)
  {
    var ds := NatToString(c.seconds);
    NatToStringParses(c.minutes);
    NatToStringParses(c.seconds);
    assert FormatClock(c) == NatToString(c.minutes) + "m" + (ds + "s");
    ParseSecondsField(ds);
    ParseMinutesField(NatToString(c.minutes), ds + "s", c.seconds);
  }

  lemma RoundTripSecondsOnly(c: Clock)
    requires c.hours == 0 && c.minutes == 0
    ensures ParseDuration(FormatClock(c)) == Some(c.seconds)
  {
    assert FormatClock(c) == NatToString(c.seconds) + "s";
    NatToStringParses(c.seconds);
    ParseSecondsField(NatToString(c.seconds));
  }

  lemma FormatClockRoundTrip(c: Clock)
    ensures ParseDuration(FormatClock(c)) == Some(c.hours * 3600 + c.minutes * 60 + c.seconds)
  {
    if c.hours > 0 {
      RoundTripWithHours(c);
    } else if c.minutes > 0 {
      RoundTripWithMinutes(c);
    } else {
      RoundTripSecondsOnly(c);
    }
  }

  /** The text `format_duration` produces reads back as the number of seconds it was given. */
  lemma FormatDurationRoundTrip(total: nat)
    ensures ParseDuration(FormatDuration(total)) == Some(total)
  {
    FormatClockRoundTrip(ToClock(total));
  }

  /** The string always ends with the seconds field, whose value is below 60. */
  lemma FormatDurationEndsWithSeconds(total: nat)
    ensures var r := FormatDuration(total);
      var sField := NatToString(total % 60) + "s";
      |sField| <= |r| && r[|r| - |sField|..] == sField
  {
    var c := ToClock(total);
    assert c.seconds == total % 60;
    var r := FormatClock(c);
    var sField := NatToString(c.seconds) + "s";
    var head := (if c.hours > 0 then NatToString(c.hours) + "h" else "")
      + (if c.minutes > 0 || c.hours > 0 then NatToString(c.minutes) + "m" else "");
    assert r == head + sField;
    assert r[|head|..] == sField;
  }

  /** `h` appears exactly when there is at least one whole hour. */
  lemma HoursShownIff(total: nat)
    ensures 'h' in FormatDuration(total) <==> total >= 3600
  {
    var c := ToClock(total);
    var r := FormatDuration(total);
    NotInDigits(NatToString(c.minutes), 'h');
    NotInDigits(NatToString(c.seconds), 'h');
    if c.hours > 0 {
      assert r[|NatToString(c.hours)|] == 'h';
    } else {
      var tail := (if c.minutes > 0 then NatToString(c.minutes) + "m" else "") + NatToString(c.seconds) + "s";
      assert r == tail;
      assert 'h' !in tail;
    }
  }

  /** `m` appears exactly when there is at least one whole minute. */
  lemma MinutesShownIff(total: nat)
    ensures 'm' in FormatDuration(total) <==> total >= 60
  {
    var c := ToClock(total);
    var r := FormatDuration(total);
    NotInDigits(NatToString(c.hours), 'm');
    NotInDigits(NatToString(c.seconds), 'm');
    if c.minutes > 0 || c.hours > 0 {
      var head := if c.hours > 0 then NatToString(c.hours) + "h" else "";
      assert 'm' !in head;
      assert r[|head| + |NatToString(c.minutes)|] == 'm';
    } else {
      assert r == NatToString(c.seconds) + "s";
    }
  }

  /** Under a minute only the seconds field is written; zero gives `0s`. */
  lemma ShortDuration(total: nat)
    requires total < 60
    ensures FormatDuration(total) == NatToString(total) + "s"
  {
    var c := ToClock(total);
    assert c == Clock(0, 0, total);
    assert FormatClock(c) == [] + ([] + (NatToString(total) + "s"));
  }

  /** Zero seconds is written `0s`. */
  lemma ZeroDuration()
    ensures FormatDuration(0) == "0s"
  {
    ShortDuration(0);
    assert NatToString(0) == "0";
  }
}
