/**
 * Model of the formatting half of src/transcribe.py: the SubRip timestamp
 * and the two transcript formatters. The control flow of `transcribe_audio`
 * is in the module `TranscribeAudio`.
 */
module Transcribe {
  import opened Strings

  // ---------------------------------------------------------------------
  // format_timestamp
  // ---------------------------------------------------------------------

  const SecondsPerDay: nat := 86400
  const MillisPerDay: nat := 86_400_000

  /** `"%d:%02d:%02d"` of the hours, minutes and seconds of a time below one day. */
  function ClockString(secs: nat): string
    requires secs < SecondsPerDay
  {
    NatToString(secs / 3600) + (":" + (Pad2(secs % 3600 / 60) + (":" + Pad2(secs % 60))))
  }

  /** `str(timedelta(seconds=secs))`: a `N day, ` or `N days, ` prefix from one day on. */
  function TimedeltaString(secs: nat): string {
    var days := secs / SecondsPerDay;
    var clock := ClockString(secs % SecondsPerDay);
    if days == 0 then clock
    else NatToString(days) + ((if days == 1 then " day, " else " days, ") + clock)
  }

  /**
   * `format_timestamp` of a time given in whole milliseconds: the whole
   * seconds through `timedelta`, then a comma and the milliseconds as
   * three digits.
   */
  function FormatTimestamp(ms: nat): string {
    TimedeltaString(ms / 1000) + ("," + Pad3(ms % 1000))
  }

  /**
   * Reads the canonical `H:MM:SS,mmm` back as milliseconds: hours in any
   * number of digits but without a leading zero (except `0` itself), minutes
   * and seconds from 00 to 59.
   */
  function ParseTimestamp(s: string): Option<nat> {
    match ReadField(s)
    case None => None
    case Some((h, u, r)) =>
      if u != ':' || (StartsWith(s, "0") && !StartsWith(s, "0:")) then None
      else match ClockTail(r)
        case None => None
        case Some(t) => Some(h * 3_600_000 + t)
  }

  /** A tens digit of minutes or seconds. */
  predicate IsSexagesimalTens(c: char) {
    '0' <= c <= '5'
  }

  /** Reads the `MM:SS,mmm` after the hours as milliseconds, minutes and seconds below 60. */
  function ClockTail(r: string): Option<nat> {
    if |r| == 9 && IsSexagesimalTens(r[0]) && IsDigit(r[1]) && r[2] == ':'
       && IsSexagesimalTens(r[3]) && IsDigit(r[4]) && r[5] == ','
       && IsDigit(r[6]) && IsDigit(r[7]) && IsDigit(r[8])
    then Some(((DigitValue(r[0]) * 10 + DigitValue(r[1])) * 60 + DigitValue(r[3]) * 10 + DigitValue(r[4])) * 1000
              + DigitValue(r[6]) * 100 + DigitValue(r[7]) * 10 + DigitValue(r[8]))
    else None
  }

  /** The minutes, seconds and milliseconds fields read back. */
  lemma ClockTailOf(m: nat, sec: nat, f: nat)
    requires m < 60 && sec < 60 && f < 1000
    ensures ClockTail(Pad2(m) + ":" + Pad2(sec) + "," + Pad3(f)) == Some((m * 60 + sec) * 1000 + f)
  {
    var r := Pad2(m) + ":" + Pad2(sec) + "," + Pad3(f);
    assert r[0] == DigitChar(m / 10) && r[1] == DigitChar(m % 10) && r[2] == ':';
    assert r[3] == DigitChar(sec / 10) && r[4] == DigitChar(sec % 10) && r[5] == ',';
    assert r[6] == DigitChar(f / 100) && r[7] == DigitChar(f % 100 / 10) && r[8] == DigitChar(f % 100 % 10);
  }

  lemma Assoc(a: string, b: string, c: string)
    ensures a + b + c == a + (b + c)
  {
  }

  /** The timestamp of a time below one day, regrouped as hours and the rest from the first `:`. */
  lemma TimestampShape(ms: nat)
    requires ms < MillisPerDay
    ensures var secs := ms / 1000;
      FormatTimestamp(ms)
      == NatToString(secs / 3600) + (":" + (Pad2(secs % 3600 / 60) + ":" + Pad2(secs % 60) + "," + Pad3(ms % 1000)))
  {
    var secs := ms / 1000;
    var dh := NatToString(secs / 3600);
    var mm := Pad2(secs % 3600 / 60);
    var ss := Pad2(secs % 60);
    var fff := Pad3(ms % 1000);
    assert secs / SecondsPerDay == 0 && secs % SecondsPerDay == secs;
    assert FormatTimestamp(ms) == dh + (":" + (mm + (":" + ss))) + ("," + fff);
    Assoc(dh, ":" + (mm + (":" + ss)), "," + fff);
    Assoc(":", mm + (":" + ss), "," + fff);
    assert mm + (":" + ss) + ("," + fff) == mm + ":" + ss + "," + fff;
  }

  /** Hours, minutes, seconds and milliseconds of a time below one day recombine to it. */
  lemma TimestampArithmetic(ms: nat)
    requires ms < MillisPerDay
    ensures var secs := ms / 1000;
      secs < SecondsPerDay && secs % SecondsPerDay == secs
      && secs / 3600 * 3_600_000 + (secs % 3600 / 60 * 60 + secs % 60) * 1000 + ms % 1000 == ms
  {
  }

  /** Below one day the timestamp reads back as the time it was made from. */
  lemma FormatTimestampRoundTrip(ms: nat)
    requires ms < MillisPerDay
    ensures ParseTimestamp(FormatTimestamp(ms)) == Some(ms)
  {
    var secs := ms / 1000;
    TimestampArithmetic(ms);
    var dh := NatToString(secs / 3600);
    var tail := Pad2(secs % 3600 / 60) + ":" + Pad2(secs % 60) + "," + Pad3(ms % 1000);
    NatToStringParses(secs / 3600);
    TimestampShape(ms);
    ClockTailOf(secs % 3600 / 60, secs % 60, ms % 1000);
    ReadFieldBefore(dh, ":" + tail);
    assert (":" + tail)[1..] == tail;
    HoursWithoutLeadingZero(secs / 3600, tail);
  }

  /** `str` of the hours, then `:`, never starts with a zero other than `0:`. */
  lemma HoursWithoutLeadingZero(h: nat, tail: string)
    ensures var s := NatToString(h) + (":" + tail);
      !(StartsWith(s, "0") && !StartsWith(s, "0:"))
  {
    var dh := NatToString(h);
    var s := dh + (":" + tail);
    NatToStringParses(h);
    if h == 0 {
      assert dh == "0";
      assert s[..2] == "0:";
    } else {
      assert s[0] == dh[0] != '0';
    }
  }

  /**
   * The `H:MM:SS,mmm` layout with `n` hour digits: minutes and seconds with
   * a tens digit below 6, three millisecond digits.
   */
  predicate TimestampLayout(s: string, n: nat) {
    |s| == n + 10 && AllDigits(s[..n])
    && s[n] == ':' && IsSexagesimalTens(s[n + 1]) && IsDigit(s[n + 2])
    && s[n + 3] == ':' && IsSexagesimalTens(s[n + 4]) && IsDigit(s[n + 5])
    && s[n + 6] == ',' && IsDigit(s[n + 7]) && IsDigit(s[n + 8]) && IsDigit(s[n + 9])
  }

  /** Hours, two-digit minutes and seconds below 60, and milliseconds make that layout. */
  lemma LayoutOfFields(h: nat, m: nat, sec: nat, f: nat)
    requires m < 60 && sec < 60 && f < 1000
    ensures var dh := NatToString(h);
      var s := dh + (":" + (Pad2(m) + ":" + Pad2(sec) + "," + Pad3(f)));
      TimestampLayout(s, |dh|) && (s[0] == '0' ==> h == 0)
  {
    var dh := NatToString(h);
    var tail := Pad2(m) + ":" + Pad2(sec) + "," + Pad3(f);
    var s := dh + (":" + tail);
    NatToStringParses(h);
    var n := |dh|;
    assert s[..n] == dh;
    assert s[n + 1..] == tail;
    assert tail[0] == DigitChar(m / 10) && tail[3] == DigitChar(sec / 10);
  }

  /**
   * Below one day the timestamp has exactly the `H:MM:SS,mmm` layout: the
   * hours as `str` writes them (a leading zero only under one hour), then
   * two-digit minutes and seconds below 60 and three-digit milliseconds.
   */
  lemma FormatTimestampCanonical(ms: nat)
    requires ms < MillisPerDay
    ensures var s := FormatTimestamp(ms);
      TimestampLayout(s, |NatToString(ms / 1000 / 3600)|) && (s[0] == '0' ==> ms < 3_600_000)
  {
    var secs := ms / 1000;
    TimestampShape(ms);
    LayoutOfFields(secs / 3600, secs % 3600 / 60, secs % 60, ms % 1000);
  }

  /** Two-digit SubRip hours and minutes or seconds past 59 are not the timestamp layout. */
  lemma NonCanonicalRejected()
    ensures ParseTimestamp("00:00:05,000") == None
    ensures ParseTimestamp("0:75:99,000") == None
  {
    var two := "00:00:05,000";
    assert two[..1] == "0" && two[..2][1] == '0';
    var one := "0:75:99,000";
    ReadFieldBefore("0", ":75:99,000");
    assert one == "0" + ":75:99,000";
    var r := "75:99,000";
    assert ":75:99,000"[1..] == r;
    assert !IsSexagesimalTens(r[0]);
  }

  /**
   * From one day on, `timedelta` writes a day count and the word `day`
   * first, so the result is no longer in the `H:MM:SS,mmm` shape.
   */
  lemma FormatTimestampFromOneDay(ms: nat)
    requires ms >= MillisPerDay
    ensures ParseTimestamp(FormatTimestamp(ms)) == None
  {
    var secs := ms / 1000;
    var days := secs / SecondsPerDay;
    var d := NatToString(days);
    var t := (if days == 1 then " day, " else " days, ") + ClockString(secs % SecondsPerDay);
    assert TimedeltaString(secs) == d + t;
    Assoc(d, t, "," + Pad3(ms % 1000));
    ReadFieldBefore(d, t + ("," + Pad3(ms % 1000)));
  }

  // ---------------------------------------------------------------------
  // generate_srt and generate_txt
  // ---------------------------------------------------------------------

  /** A transcript segment, its times in whole milliseconds. */
  datatype Segment = Segment(start: nat, end: nat, text: string)

  /** The `START --> END` line of a cue. */
  function Timing(seg: Segment): string {
    FormatTimestamp(seg.start) + " --> " + FormatTimestamp(seg.end)
  }

  /** The cue the loop of `generate_srt` appends for the `i`-th segment (counting from 1). */
  function Cue(i: nat, seg: Segment): string {
    NatToString(i) + "\n" + Timing(seg) + "\n" + Strip(seg.text) + "\n"
  }

  /** The list `srt` after the loop: one cue per segment, numbered from 1. */
  function Cues(segs: seq<Segment>): (cs: seq<string>) {
    seq(|segs|, k requires 0 <= k < |segs| => Cue(k + 1, segs[k]))
  }

  /** `generate_srt`: the cues joined with newlines. */
  function Srt(segs: seq<Segment>): string {
    Join(Cues(segs), "\n")
  }

  /** The stripped texts, in order. */
  function Texts(segs: seq<Segment>): seq<string> {
    seq(|segs|, k requires 0 <= k < |segs| => Strip(segs[k].text))
  }

  /** `generate_txt`: the stripped texts joined with newlines. */
  function GenerateTxt(segs: seq<Segment>): string {
    Join(Texts(segs), "\n")
  }

  /** One more segment adds its cue, numbered after the others. */
  lemma CuesSnoc(segs: seq<Segment>, seg: Segment)
    ensures Cues(segs + [seg]) == Cues(segs) + [Cue(|segs| + 1, seg)]
  {
    var all := segs + [seg];
    assert forall k :: 0 <= k < |segs| ==> all[k] == segs[k];
  }

  /** `generate_srt`: the `for` loop over the segments, then the join. */
  method GenerateSrt(segments: seq<Segment>) returns (srt: string)
    ensures srt == Srt(segments)
  {
    var cues: seq<string> := [];
    for i := 0 to |segments|
      invariant cues == Cues(segments[..i])
    {
      assert segments[..i + 1] == segments[..i] + [segments[i]];
      CuesSnoc(segments[..i], segments[i]);
      cues := cues + [Cue(i + 1, segments[i])];
    }
    assert segments[..|segments|] == segments;
    srt := Join(cues, "\n");
  }

  // ---------------------------------------------------------------------
  // Line structure of the two formats
  // ---------------------------------------------------------------------

  lemma NoNewlineInTimestamp(ms: nat)
    ensures '\n' !in FormatTimestamp(ms)
  {
    var secs := ms / 1000;
    var days := secs / SecondsPerDay;
    var rem := secs % SecondsPerDay;
    NotInDigits(NatToString(days), '\n');
    NotInDigits(NatToString(rem / 3600), '\n');
    NotInDigits(Pad2(rem % 3600 / 60), '\n');
    NotInDigits(Pad2(rem % 60), '\n');
    NotInDigits(Pad3(ms % 1000), '\n');
  }

  /** The lines of one cue: its number, its timing, its text and the empty line its final newline opens. */
  function CueLines(i: nat, seg: Segment): seq<string> {
    [NatToString(i), Timing(seg), Strip(seg.text), ""]
  }

  /** A segment whose stripped text is one line. */
  predicate OneLine(seg: Segment) {
    '\n' !in Strip(seg.text)
  }

  /** Three lines, each closed by a newline, are those lines and an empty one joined by newlines. */
  lemma JoinThreeLines(a: string, b: string, c: string)
    ensures a + "\n" + b + "\n" + c + "\n" == Join([a, b, c, ""], "\n")
  {
    var l := [a, b, c, ""];
    assert l[1..] == [b, c, ""] && l[1..][1..] == [c, ""] && l[1..][1..][1..] == [""];
    assert Join([c, ""], "\n") == c + "\n" + "";
    assert Join([b, c, ""], "\n") == b + "\n" + (c + "\n" + "");
    assert Join(l, "\n") == a + "\n" + (b + "\n" + (c + "\n" + ""));
  }

  lemma CueIsItsLines(i: nat, seg: Segment)
    ensures Cue(i, seg) == Join(CueLines(i, seg), "\n")
  {
    JoinThreeLines(NatToString(i), Timing(seg), Strip(seg.text));
  }

  lemma CueLinesOneLine(i: nat, seg: Segment)
    requires OneLine(seg)
    ensures forall m :: 0 <= m < 4 ==> '\n' !in CueLines(i, seg)[m]
  {
    NotInDigits(NatToString(i), '\n');
    NoNewlineInTimestamp(seg.start);
    NoNewlineInTimestamp(seg.end);
  }

  /** The cue lines of each segment. */
  function CueBlocks(segs: seq<Segment>): seq<seq<string>> {
    seq(|segs|, k requires 0 <= k < |segs| => CueLines(k + 1, segs[k]))
  }

  /** The lines of all cues, in order. */
  function SrtLines(segs: seq<Segment>): seq<string> {
    Flatten(CueBlocks(segs))
  }

  lemma SrtIsItsLines(segs: seq<Segment>)
    requires segs != []
    ensures Srt(segs) == Join(SrtLines(segs), "\n")
  {
    var blocks := CueBlocks(segs);
    forall k | 0 <= k < |segs|
      ensures Cues(segs)[k] == Join(blocks[k], "\n")
    {
      CueIsItsLines(k + 1, segs[k]);
    }
    assert Cues(segs) == JoinEach(blocks, "\n");
    JoinFlatten(blocks, "\n");
  }

  /** Read line by line, the subtitle text is the cue lines, when every text is one line. */
  lemma SrtSplitsIntoLines(segs: seq<Segment>)
    requires segs != []
    requires forall k :: 0 <= k < |segs| ==> OneLine(segs[k])
    ensures Split(Srt(segs), '\n') == SrtLines(segs)
  {
    var blocks := CueBlocks(segs);
    forall k | 0 <= k < |blocks|
      ensures |blocks[k]| == 4 && forall m :: 0 <= m < 4 ==> '\n' !in blocks[k][m]
    {
      CueLinesOneLine(k + 1, segs[k]);
    }
    SrtIsItsLines(segs);
    FlattenLength(blocks);
    FlattenNoChar(blocks, '\n');
    SplitJoin(SrtLines(segs), '\n');
  }

  /** Line `m` of cue `i + 1` is line `4 * i + m` of all cue lines. */
  lemma SrtLinesAt(segs: seq<Segment>, i: nat, m: nat)
    requires i < |segs| && m < 4
    ensures |SrtLines(segs)| == 4 * |segs|
    ensures SrtLines(segs)[4 * i + m] == CueLines(i + 1, segs[i])[m]
  {
    var blocks := CueBlocks(segs);
    assert forall k :: 0 <= k < |blocks| ==> |blocks[k]| == 4;
    FlattenLength(blocks);
    FlattenAt(blocks, i, m);
  }

  /**
   * Read line by line, the subtitle text of segments whose texts are one
   * line each has four lines per segment: line `4 * i + m` is line `m` of
   * the cue of segment `i` (its number `i + 1`, its `START --> END` line,
   * its stripped text, and an empty line, which for the last cue is the
   * empty piece after the final newline).
   */
  lemma SrtLineStructure(segs: seq<Segment>, i: nat, m: nat)
    requires forall k :: 0 <= k < |segs| ==> OneLine(segs[k])
    requires i < |segs| && m < 4
    ensures |Split(Srt(segs), '\n')| == 4 * |segs|
    ensures Split(Srt(segs), '\n')[4 * i + m] == CueLines(i + 1, segs[i])[m]
  {
    SrtSplitsIntoLines(segs);
    SrtLinesAt(segs, i, m);
  }

  /**
   * Read line by line, the plain text of segments whose texts are one line
   * each is their stripped texts in order.
   */
  lemma TxtLineStructure(segs: seq<Segment>)
    requires segs != []
    requires forall k :: 0 <= k < |segs| ==> OneLine(segs[k])
    ensures Split(GenerateTxt(segs), '\n') == Texts(segs)
  {
    SplitJoin(Texts(segs), '\n');
  }

  /** No segments give empty text in both formats. */
  lemma NoSegments()
    ensures Srt([]) == "" && GenerateTxt([]) == ""
  {
    assert Cues([]) == [];
    assert Texts([]) == [];
  }
}
