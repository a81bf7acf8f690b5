/**
 * The Markdown-to-Notion block compiler of `notion_utils.py`.
 *
 * `ParseMarkdownText` is the inline tokenizer: a left-to-right scan over the
 * markers `**` (bold), `*` (italic) and a backtick (code) that produces a
 * Notion rich-text array. `ConvertMarkdownToNotionBlocks` is the line
 * classifier: it turns each stripped line into a heading, divider, numbered
 * item or paragraph block, and holds `- ` items in a pending buffer that is
 * flushed only by a blank line, a paragraph, or the end of the input.
 *
 * Both are written as the loops the source runs, and proved equal to the
 * specification functions `ParseInline` and `Compile`, about which the
 * lemmas below are stated.
 */
module NotionUtils {
  import opened Strings

  // ---------------------------------------------------------------------
  // Data model
  // ---------------------------------------------------------------------

  /** The annotation a rich-text element carries; `Plain` means none. */
  datatype Style = Plain | Bold | Italic | Code

  /** One element of a Notion rich-text array: its content and its annotation. */
  datatype Run = Run(content: string, style: Style)

  /** The Notion blocks the compiler emits, one constructor per block type. */
  datatype Block =
    | Heading1(richText: seq<Run>)
    | Heading2(richText: seq<Run>)
    | Heading3(richText: seq<Run>)
    | Divider
    | BulletedListItem(richText: seq<Run>)
    | NumberedListItem(richText: seq<Run>)
    | Paragraph(richText: seq<Run>)

  /** The characters the tokenizer looks for. */
  predicate IsMarker(c: char) {
    c == '*' || c == '`'
  }

  // ---------------------------------------------------------------------
  // Inline tokenizer: specification
  // ---------------------------------------------------------------------

  /** The smaller of two `find` results, where -1 stands for "not found". */
  function Nearer(a: int, b: int): int {
    if a == -1 then b else if b == -1 then a else if a <= b then a else b
  }

  /**
   * Where the scan from `pos` stops: the least position among the next `**`,
   * the next `*` and the next backtick, or the length of the text when none
   * of the three occurs.
   */
  function NextMarker(text: string, pos: nat): (r: nat)
    requires pos <= |text|
    ensures pos <= r <= |text|
  {
    var nearest := Nearer(Nearer(Find(text, "**", pos), Find(text, "*", pos)), Find(text, "`", pos));
    if nearest == -1 then |text| else nearest
  }

  /** The scan stops at the first marker from `pos`, or at the end when there is none. */
  lemma NextMarkerSpec(text: string, pos: nat)
    requires pos <= |text|
    ensures var r := NextMarker(text, pos);
      && (r < |text| ==> IsMarker(text[r]))
      && (forall k :: pos <= k < r ==> !IsMarker(text[k]))
  {
    PairAfterStar(text, pos);
    FindChar(text, '*', pos);
    FindChar(text, '`', pos);
  }

  /** A `**` found from `pos` is no nearer than the first `*` found from `pos`. */
  lemma PairAfterStar(text: string, pos: nat)
    requires pos <= |text|
    ensures var pair := Find(text, "**", pos);
      pair != -1 ==> Find(text, "*", pos) != -1 && Find(text, "*", pos) <= pair
  {
    var pair := Find(text, "**", pos);
    if pair != -1 {
      assert text[pair] == text[pair..pair + 2][0];
      FindChar(text, '*', pos);
      assert text[pos..][pair - pos] == '*';
    }
  }

  /** A half-open range `[start, end)` of positions in the input text. */
  datatype Span = Span(start: nat, end: nat)

  /**
   * What one pass of the tokenizer loop does at `pos`: the runs it appends,
   * the ranges of the input they are cut from, and the position it resumes at.
   */
  datatype StepResult = StepResult(runs: seq<Run>, spans: seq<Span>, next: nat)

  /**
   * What the loop does with the marker at `next` (or with the end of the
   * text): the styled run it appends, if the marker is closed, and where the
   * scan resumes.
   */
  function MarkerStep(text: string, next: nat): (st: StepResult)
    requires next <= |text|
    ensures st.next > next
  {
    if next < |text| then
      if next + 2 <= |text| && text[next..next + 2] == "**" then
        var close := Find(text, "**", next + 2);
        if close != -1 then StepResult([Run(text[next + 2..close], Bold)], [Span(next + 2, close)], close + 2)
        else StepResult([], [], next + 1)
      else if text[next] == '*' then
        var close := Find(text, "*", next + 1);
        if close != -1 then StepResult([Run(text[next + 1..close], Italic)], [Span(next + 1, close)], close + 1)
        else StepResult([], [], next + 1)
      else if text[next] == '`' then
        var close := Find(text, "`", next + 1);
        if close != -1 then StepResult([Run(text[next + 1..close], Code)], [Span(next + 1, close)], close + 1)
        else StepResult([], [], next + 1)
      else StepResult([], [], next + 1)
    else StepResult([], [], next + 1)
  }

  /**
   * One pass of the tokenizer loop at `pos`: the plain text up to the nearest
   * marker, then whatever the marker yields.
   */
  function Step(text: string, pos: nat): (st: StepResult)
    requires pos < |text|
    ensures st.next > pos
  {
    var next := NextMarker(text, pos);
    var m := MarkerStep(text, next);
    if next > pos then StepResult([Run(text[pos..next], Plain)] + m.runs, [Span(pos, next)] + m.spans, m.next)
    else m
  }

  /** The runs the tokenizer produces from position `pos` on. */
  function ParseFrom(text: string, pos: nat): seq<Run>
    decreases |text| - pos
  {
    if pos >= |text| then []
    else
      var st := Step(text, pos);
      st.runs + ParseFrom(text, st.next)
  }

  /** The input ranges those runs are cut from, run for run. */
  function SpansFrom(text: string, pos: nat): seq<Span>
    decreases |text| - pos
  {
    if pos >= |text| then []
    else
      var st := Step(text, pos);
      st.spans + SpansFrom(text, st.next)
  }

  /** `parse_markdown_text(text)` as a function of the text. */
  function ParseInline(text: string): seq<Run> {
    ParseFrom(text, 0)
  }

  // ---------------------------------------------------------------------
  // Inline tokenizer: the loop
  // ---------------------------------------------------------------------

  /** The spec unfolded once: one pass, then the rest of the text. */
  lemma ParseFromStep(text: string, pos: nat)
    requires pos < |text|
    ensures ParseFrom(text, pos) == Step(text, pos).runs + ParseFrom(text, Step(text, pos).next)
  {
  }

  lemma SpansFromStep(text: string, pos: nat)
    requires pos < |text|
    ensures SpansFrom(text, pos) == Step(text, pos).spans + SpansFrom(text, Step(text, pos).next)
  {
  }

  /**
   * The marker branch of the loop body: a closed `**`, `*` or backtick pair
   * appends one styled run and resumes after the closer (the `continue`s);
   * anything else resumes one character after `next_pos`.
   */
  method ScanMarker(text: string, nextPos: nat) returns (runs: seq<Run>, resume: nat)
    requires nextPos <= |text|
    ensures runs == MarkerStep(text, nextPos).runs && resume == MarkerStep(text, nextPos).next
  {
    if nextPos < |text| {
      if nextPos + 2 <= |text| && text[nextPos..nextPos + 2] == "**" {
        var endPos := Find(text, "**", nextPos + 2);
        if endPos != -1 {
          return [Run(text[nextPos + 2..endPos], Bold)], endPos + 2;
        }
      } else if text[nextPos] == '*' {
        var endPos := Find(text, "*", nextPos + 1);
        if endPos != -1 {
          return [Run(text[nextPos + 1..endPos], Italic)], endPos + 1;
        }
      } else if text[nextPos] == '`' {
        var endPos := Find(text, "`", nextPos + 1);
        if endPos != -1 {
          return [Run(text[nextPos + 1..endPos], Code)], endPos + 1;
        }
      }
    }
    return [], nextPos + 1;
  }

  /** One pass of the `while` body: the plain text before the nearest marker, then the marker branch. */
  method ScanOnce(text: string, currentPos: nat) returns (runs: seq<Run>, resume: nat)
    requires currentPos < |text|
    ensures runs == Step(text, currentPos).runs && resume == Step(text, currentPos).next
  {
    runs := [];
    var nextPos := NextMarker(text, currentPos);
    if nextPos > currentPos {
      runs := runs + [Run(text[currentPos..nextPos], Plain)];
    }
    var marked;
    marked, resume := ScanMarker(text, nextPos);
    runs := runs + marked;
  }

  /** `parse_markdown_text`: the scanning loop over `current_pos`. */
  method ParseMarkdownText(text: string) returns (richText: seq<Run>)
    ensures richText == ParseInline(text)
  {
    richText := [];
    var currentPos := 0;
    while currentPos < |text|
      invariant richText + ParseFrom(text, currentPos) == ParseInline(text)
      decreases |text| - currentPos
    {
      ParseFromStep(text, currentPos);
      var runs, resume := ScanOnce(text, currentPos);
      richText := richText + runs;
      currentPos := resume;
    }
  }

  // ---------------------------------------------------------------------
  // Inline tokenizer: properties
  // ---------------------------------------------------------------------

  /** At a marker the pass contributes no plain run: it is the marker branch alone. */
  lemma StepAtMarker(text: string, pos: nat)
    requires pos < |text| && IsMarker(text[pos])
    ensures Step(text, pos) == MarkerStep(text, pos)
  {
    NextMarkerSpec(text, pos);
    assert NextMarker(text, pos) == pos;
  }

  /** With no marker left, the pass takes the rest of the text as one plain run and stops. */
  lemma StepWithoutMarker(text: string, pos: nat)
    requires pos < |text|
    requires forall i :: pos <= i < |text| ==> !IsMarker(text[i])
    ensures Step(text, pos) == StepResult([Run(text[pos..], Plain)], [Span(pos, |text|)], |text| + 1)
  {
    var next := NextMarker(text, pos);
    NextMarkerSpec(text, pos);
    assert next == |text|;
    var m := MarkerStep(text, next);
    assert m == StepResult([], [], |text| + 1);
    assert text[pos..next] == text[pos..];
    assert [Run(text[pos..], Plain)] + m.runs == [Run(text[pos..], Plain)];
    assert [Span(pos, |text|)] + m.spans == [Span(pos, |text|)];
  }

  /** Text that is non-empty and holds no marker: what a plain run may contain. */
  predicate IsPlainText(s: string) {
    s != [] && forall i :: 0 <= i < |s| ==> !IsMarker(s[i])
  }

  /** The marker branch only ever yields styled runs. */
  lemma MarkerStepStyled(text: string, next: nat)
    requires next <= |text|
    ensures forall i :: 0 <= i < |MarkerStep(text, next).runs| ==> MarkerStep(text, next).runs[i].style != Plain
  {
  }

  /** Plain runs are never empty and never contain a marker; only styled runs can be empty. */
  lemma {:induction false} PlainRunsFrom(text: string, pos: nat)
    ensures forall i :: 0 <= i < |ParseFrom(text, pos)| && ParseFrom(text, pos)[i].style == Plain ==>
      IsPlainText(ParseFrom(text, pos)[i].content)
    decreases |text| - pos
  {
    if pos < |text| {
      var st := Step(text, pos);
      ParseFromStep(text, pos);
      PlainRunsFrom(text, st.next);
      var next := NextMarker(text, pos);
      NextMarkerSpec(text, pos);
      MarkerStepStyled(text, next);
      assert forall i :: 0 <= i < |st.runs| && st.runs[i].style == Plain ==> st.runs[i] == Run(text[pos..next], Plain);
    }
  }

  lemma PlainRuns(text: string)
    ensures forall i :: 0 <= i < |ParseInline(text)| && ParseInline(text)[i].style == Plain ==>
      IsPlainText(ParseInline(text)[i].content)
  {
    PlainRunsFrom(text, 0);
  }

  /** Some run's range contains position `k`. */
  ghost predicate Covered(spans: seq<Span>, k: nat) {
    exists i :: 0 <= i < |spans| && spans[i].start <= k < spans[i].end
  }

  /**
   * `runs` are cut, in order and without overlap, from `text[lo..hi]`, and
   * every character of that range outside all runs is a marker.
   */
  ghost predicate SlicedBetween(text: string, runs: seq<Run>, spans: seq<Span>, lo: nat, hi: nat) {
    && lo <= hi <= |text|
    && |runs| == |spans|
    && (forall i :: 0 <= i < |spans| ==>
          lo <= spans[i].start <= spans[i].end <= hi && runs[i].content == text[spans[i].start..spans[i].end])
    && (forall i, j :: 0 <= i < j < |spans| ==> spans[i].end <= spans[j].start)
    && (forall k: nat :: lo <= k < hi && !Covered(spans, k) ==> IsMarker(text[k]))
  }

  lemma CoveredLeft(s1: seq<Span>, s2: seq<Span>, k: nat)
    ensures Covered(s1, k) ==> Covered(s1 + s2, k)
  {
    if Covered(s1, k) {
      var i :| 0 <= i < |s1| && s1[i].start <= k < s1[i].end;
      assert (s1 + s2)[i] == s1[i];
    }
  }

  lemma CoveredRight(s1: seq<Span>, s2: seq<Span>, k: nat)
    ensures Covered(s2, k) ==> Covered(s1 + s2, k)
  {
    if Covered(s2, k) {
      var i :| 0 <= i < |s2| && s2[i].start <= k < s2[i].end;
      assert (s1 + s2)[|s1| + i] == s2[i];
    }
  }

  lemma SlicedConcat(text: string, r1: seq<Run>, s1: seq<Span>, r2: seq<Run>, s2: seq<Span>, lo: nat, mid: nat, hi: nat)
    requires SlicedBetween(text, r1, s1, lo, mid)
    requires SlicedBetween(text, r2, s2, mid, hi)
    ensures SlicedBetween(text, r1 + r2, s1 + s2, lo, hi)
  {
    var r, s := r1 + r2, s1 + s2;
    forall i | 0 <= i < |s|
      ensures lo <= s[i].start <= s[i].end <= hi && r[i].content == text[s[i].start..s[i].end]
    {
      if i < |s1| {
        assert s[i] == s1[i] && r[i] == r1[i];
      } else {
        assert s[i] == s2[i - |s1|] && r[i] == r2[i - |s1|];
      }
    }
    forall i, j | 0 <= i < j < |s|
      ensures s[i].end <= s[j].start
    {
      if j < |s1| {
        assert s[i] == s1[i] && s[j] == s1[j];
      } else if i < |s1| {
        assert s[i] == s1[i] && s[j] == s2[j - |s1|];
      } else {
        assert s[i] == s2[i - |s1|] && s[j] == s2[j - |s1|];
      }
    }
    forall k: nat | lo <= k < hi && !Covered(s, k) ensures IsMarker(text[k]) {
      CoveredLeft(s1, s2, k);
      CoveredRight(s1, s2, k);
    }
  }

  /** One run cut from `text[a..b]`, with only markers around it in `text[lo..hi]`. */
  lemma SingleRunSliced(text: string, lo: nat, a: nat, b: nat, hi: nat, style: Style)
    requires lo <= a <= b <= hi <= |text|
    requires forall k :: lo <= k < a ==> IsMarker(text[k])
    requires forall k :: b <= k < hi ==> IsMarker(text[k])
    ensures SlicedBetween(text, [Run(text[a..b], style)], [Span(a, b)], lo, hi)
  {
    var spans := [Span(a, b)];
    forall k: nat | lo <= k < hi && !Covered(spans, k) ensures IsMarker(text[k]) {
      assert !(spans[0].start <= k < spans[0].end);
    }
  }

  /** A `**` pair cuts the text between the two markers. */
  lemma BoldSliced(text: string, next: nat)
    requires next + 2 <= |text| && text[next..next + 2] == "**"
    requires Find(text, "**", next + 2) != -1
    ensures var close := Find(text, "**", next + 2);
      SlicedBetween(text, [Run(text[next + 2..close], Bold)], [Span(next + 2, close)], next, close + 2)
  {
    var close := Find(text, "**", next + 2);
    assert text[next] == text[next..next + 2][0] && text[next + 1] == text[next..next + 2][1];
    assert text[close] == text[close..close + 2][0] && text[close + 1] == text[close..close + 2][1];
    SingleRunSliced(text, next, next + 2, close, close + 2, Bold);
  }

  /** A single-character marker pair cuts the text between the two markers. */
  lemma PairSliced(text: string, next: nat, c: char, style: Style)
    requires next < |text| && text[next] == c && IsMarker(c)
    requires Find(text, [c], next + 1) != -1
    ensures var close := Find(text, [c], next + 1);
      SlicedBetween(text, [Run(text[next + 1..close], style)], [Span(next + 1, close)], next, close + 1)
  {
    FindChar(text, c, next + 1);
    var close := Find(text, [c], next + 1);
    SingleRunSliced(text, next, next + 1, close, close + 1, style);
  }

  /** The marker branch cuts its run (if any) from between the opener and the closer. */
  lemma MarkerSliced(text: string, next: nat)
    requires next <= |text|
    requires next < |text| ==> IsMarker(text[next])
    ensures var m := MarkerStep(text, next);
      SlicedBetween(text, m.runs, m.spans, next, if m.next <= |text| then m.next else |text|)
  {
    var m := MarkerStep(text, next);
    if next == |text| {
    } else if next + 2 <= |text| && text[next..next + 2] == "**" {
      if Find(text, "**", next + 2) != -1 {
        BoldSliced(text, next);
      }
    } else if text[next] == '*' {
      if Find(text, "*", next + 1) != -1 {
        PairSliced(text, next, '*', Italic);
      }
    } else {
      if Find(text, "`", next + 1) != -1 {
        PairSliced(text, next, '`', Code);
      }
    }
  }

  /** One pass of the loop cuts its runs from `text[pos..]` up to where it resumes. */
  lemma StepSliced(text: string, pos: nat)
    requires pos < |text|
    ensures var st := Step(text, pos);
      SlicedBetween(text, st.runs, st.spans, pos, if st.next <= |text| then st.next else |text|)
  {
    var next := NextMarker(text, pos);
    var m := MarkerStep(text, next);
    MarkerSliced(text, next);
    if next > pos {
      var plain := [Run(text[pos..next], Plain)];
      var plainSpan := [Span(pos, next)];
      forall k: nat | pos <= k < next ensures Covered(plainSpan, k) {
        assert plainSpan[0].start <= k < plainSpan[0].end;
      }
      assert SlicedBetween(text, plain, plainSpan, pos, next);
      SlicedConcat(text, plain, plainSpan, m.runs, m.spans, pos, next, if m.next <= |text| then m.next else |text|);
    }
  }

  lemma {:induction false} SlicedFrom(text: string, pos: nat)
    requires pos <= |text|
    ensures SlicedBetween(text, ParseFrom(text, pos), SpansFrom(text, pos), pos, |text|)
    decreases |text| - pos
  {
    if pos < |text| {
      var st := Step(text, pos);
      ParseFromStep(text, pos);
      SpansFromStep(text, pos);
      StepSliced(text, pos);
      if st.next <= |text| {
        SlicedFrom(text, st.next);
        SlicedConcat(text, st.runs, st.spans, ParseFrom(text, st.next), SpansFrom(text, st.next), pos, st.next, |text|);
      } else {
        assert ParseFrom(text, st.next) == [] && SpansFrom(text, st.next) == [];
        assert st.runs + [] == st.runs && st.spans + [] == st.spans;
      }
    }
  }

  /**
   * The runs of `parse_markdown_text` are disjoint slices of the input, left
   * to right, and everything between them is a marker character.
   */
  lemma RunsAreOrderedSlices(text: string)
    ensures SlicedBetween(text, ParseInline(text), SpansFrom(text, 0), 0, |text|)
  {
    SlicedFrom(text, 0);
  }

  lemma MarkerStepBold(text: string, pos: nat)
    requires pos + 2 <= |text| && text[pos..pos + 2] == "**"
    requires Find(text, "**", pos + 2) != -1
    ensures var close := Find(text, "**", pos + 2);
      MarkerStep(text, pos) == StepResult([Run(text[pos + 2..close], Bold)], [Span(pos + 2, close)], close + 2)
  {
  }

  lemma StepBold(text: string, pos: nat)
    requires pos + 2 <= |text| && text[pos..pos + 2] == "**"
    requires Find(text, "**", pos + 2) != -1
    ensures var close := Find(text, "**", pos + 2);
      Step(text, pos) == StepResult([Run(text[pos + 2..close], Bold)], [Span(pos + 2, close)], close + 2)
  {
    assert text[pos] == text[pos..pos + 2][0];
    StepAtMarker(text, pos);
    MarkerStepBold(text, pos);
  }

  /** A `**` with a later `**` yields one bold run of exactly the text between, and scanning resumes after the closer. */
  lemma BoldPair(text: string, pos: nat)
    requires pos + 2 <= |text| && text[pos..pos + 2] == "**"
    requires Find(text, "**", pos + 2) != -1
    ensures ParseFrom(text, pos) ==
      [Run(text[pos + 2..Find(text, "**", pos + 2)], Bold)] + ParseFrom(text, Find(text, "**", pos + 2) + 2)
  {
    StepBold(text, pos);
    ParseFromStep(text, pos);
  }

  lemma StepItalic(text: string, pos: nat)
    requires pos < |text| && text[pos] == '*'
    requires !(pos + 2 <= |text| && text[pos..pos + 2] == "**")
    requires Find(text, "*", pos + 1) != -1
    ensures var close := Find(text, "*", pos + 1);
      Step(text, pos) == StepResult([Run(text[pos + 1..close], Italic)], [Span(pos + 1, close)], close + 1)
  {
    StepAtMarker(text, pos);
  }

  /** A single `*` (not the first of `**`) with a later `*` yields one italic run. */
  lemma ItalicPair(text: string, pos: nat)
    requires pos < |text| && text[pos] == '*'
    requires !(pos + 2 <= |text| && text[pos..pos + 2] == "**")
    requires Find(text, "*", pos + 1) != -1
    ensures ParseFrom(text, pos) ==
      [Run(text[pos + 1..Find(text, "*", pos + 1)], Italic)] + ParseFrom(text, Find(text, "*", pos + 1) + 1)
  {
    StepItalic(text, pos);
    ParseFromStep(text, pos);
  }

  lemma StepCode(text: string, pos: nat)
    requires pos < |text| && text[pos] == '`'
    requires Find(text, "`", pos + 1) != -1
    ensures var close := Find(text, "`", pos + 1);
      Step(text, pos) == StepResult([Run(text[pos + 1..close], Code)], [Span(pos + 1, close)], close + 1)
  {
    StepAtMarker(text, pos);
    assert pos + 2 <= |text| ==> text[pos..pos + 2][0] == text[pos];
  }

  /** A backtick with a later backtick yields one code run. */
  lemma CodePair(text: string, pos: nat)
    requires pos < |text| && text[pos] == '`'
    requires Find(text, "`", pos + 1) != -1
    ensures ParseFrom(text, pos) ==
      [Run(text[pos + 1..Find(text, "`", pos + 1)], Code)] + ParseFrom(text, Find(text, "`", pos + 1) + 1)
  {
    StepCode(text, pos);
    ParseFromStep(text, pos);
  }

  /** The marker at `pos` is closed further on, by the same marker. */
  predicate HasCloser(text: string, pos: nat)
    requires pos < |text|
  {
    if pos + 2 <= |text| && text[pos..pos + 2] == "**" then Find(text, "**", pos + 2) != -1
    else Find(text, [text[pos]], pos + 1) != -1
  }

  lemma StepUnmatched(text: string, pos: nat)
    requires pos < |text| && IsMarker(text[pos])
    requires !HasCloser(text, pos)
    ensures Step(text, pos) == StepResult([], [], pos + 1)
  {
    StepAtMarker(text, pos);
  }

  /** An unmatched marker is dropped: the scan simply resumes one character later. */
  lemma UnmatchedMarkerDropped(text: string, pos: nat)
    requires pos < |text| && IsMarker(text[pos])
    requires !HasCloser(text, pos)
    ensures ParseFrom(text, pos) == ParseFrom(text, pos + 1)
  {
    StepUnmatched(text, pos);
    ParseFromStep(text, pos);
  }

  /** From a marker-free position on, the rest of the text is one plain run. */
  lemma NoMarkersFrom(text: string, pos: nat)
    requires forall i :: pos <= i < |text| ==> !IsMarker(text[i])
    ensures ParseFrom(text, pos) == if pos < |text| then [Run(text[pos..], Plain)] else []
  {
    if pos < |text| {
      ParseFromStep(text, pos);
      StepWithoutMarker(text, pos);
    }
  }

  /**
   * Empty text gives no runs; text without `*` or backtick gives exactly one
   * unannotated run holding all of it.
   */
  lemma NoMarkers(text: string)
    requires forall i :: 0 <= i < |text| ==> !IsMarker(text[i])
    ensures ParseInline(text) == if text == [] then [] else [Run(text, Plain)]
  {
    NoMarkersFrom(text, 0);
    assert text[0..] == text;
  }

  lemma PairFoundHasStar(text: string, start: nat)
    requires start <= |text|
    ensures Find(text, "**", start) != -1 ==> '*' in text[start..]
  {
    var k := Find(text, "**", start);
    if k != -1 {
      assert text[k] == text[k..k + 2][0];
      assert text[start..][k - start] == text[k];
    }
  }

  /** A `**` with no `*` anywhere after it is dropped, both stars. */
  lemma UnclosedBoldDropped(text: string, pos: nat)
    requires pos + 2 <= |text| && text[pos..pos + 2] == "**"
    requires '*' !in text[pos + 2..]
    ensures ParseFrom(text, pos) == ParseFrom(text, pos + 2)
  {
    FindChar(text, '*', pos + 2);
    assert text[pos] == text[pos..pos + 2][0] && text[pos + 1] == text[pos..pos + 2][1];
    PairFoundHasStar(text, pos + 2);
    UnmatchedMarkerDropped(text, pos);
    assert pos + 3 <= |text| ==> text[pos + 1..pos + 3][1] == text[pos + 2] == text[pos + 2..][0];
    UnmatchedMarkerDropped(text, pos + 1);
  }

  /** An unterminated `**` at `pos` followed by marker-free, non-empty text yields that text alone. */
  lemma UnterminatedBoldAt(text: string, pos: nat)
    requires pos + 2 < |text| && text[pos..pos + 2] == "**"
    requires forall i :: pos + 2 <= i < |text| ==> !IsMarker(text[i])
    ensures ParseFrom(text, pos) == [Run(text[pos + 2..], Plain)]
  {
    var rest := text[pos + 2..];
    assert forall i :: 0 <= i < |rest| ==> rest[i] == text[pos + 2 + i];
    assert '*' !in rest;
    UnclosedBoldDropped(text, pos);
    NoMarkersFrom(text, pos + 2);
  }

  /** An unterminated `**` before marker-free text loses both stars and keeps the rest as plain text. */
  lemma UnterminatedBold(word: string)
    requires IsPlainText(word)
    ensures ParseInline("**" + word) == [Run(word, Plain)]
  {
    var t := "**" + word;
    assert t[0..2] == "**";
    assert t[2..] == word;
    assert forall i :: 2 <= i < |t| ==> t[i] == word[i - 2];
    UnterminatedBoldAt(t, 0);
  }

  // ---------------------------------------------------------------------
  // Line classifier: specification
  // ---------------------------------------------------------------------

  /** What a line of the input is, after `strip`, with its marker prefix removed. */
  datatype LineKind =
    | BlankLine
    | HeadingLine(level: nat, rest: string)
    | DividerLine
    | BulletLine(item: string)
    | NumberedLine(rest: string)
    | ParagraphLine(text: string)

  /** The stripped line a classification stands for: the prefix put back. */
  function Render(k: LineKind): string {
    match k
    case BlankLine => ""
    case HeadingLine(level, rest) => (if level == 1 then "# " else if level == 2 then "## " else "### ") + rest
    case DividerLine => "---"
    case BulletLine(item) => "- " + item
    case NumberedLine(rest) => "1. " + rest
    case ParagraphLine(text) => text
  }

  /**
   * The first match among `# `, `## `, `### `, exactly `---`, `- ` and `1. `
   * on an already stripped line; anything else is a paragraph.
   */
  function ClassifyStripped(line: string): LineKind {
    if line == "" then BlankLine
    else if StartsWith(line, "# ") then HeadingLine(1, line[2..])
    else if StartsWith(line, "## ") then HeadingLine(2, line[3..])
    else if StartsWith(line, "### ") then HeadingLine(3, line[4..])
    else if line == "---" then DividerLine
    else if StartsWith(line, "- ") then BulletLine(line[2..])
    else if StartsWith(line, "1. ") then NumberedLine(line[3..])
    else ParagraphLine(line)
  }

  /** How one input line is classified: by its stripped form. */
  function Classify(raw: string): LineKind {
    ClassifyStripped(Strip(raw))
  }

  lemma ClassifyStrippedRender(line: string)
    ensures Render(ClassifyStripped(line)) == line
    ensures ClassifyStripped(line).BlankLine? <==> line == ""
    ensures ClassifyStripped(line).HeadingLine? ==> 1 <= ClassifyStripped(line).level <= 3
    ensures var k := ClassifyStripped(line);
      k.ParagraphLine? ==>
        !StartsWith(k.text, "# ") && !StartsWith(k.text, "## ") && !StartsWith(k.text, "### ")
        && k.text != "---" && !StartsWith(k.text, "- ") && !StartsWith(k.text, "1. ")
  {
    if line == "" {
    } else if StartsWith(line, "# ") {
      assert line == "# " + line[2..];
    } else if StartsWith(line, "## ") {
      assert line == "## " + line[3..];
    } else if StartsWith(line, "### ") {
      assert line == "### " + line[4..];
    } else if line == "---" {
    } else if StartsWith(line, "- ") {
      assert line == "- " + line[2..];
    } else if StartsWith(line, "1. ") {
      assert line == "1. " + line[3..];
    }
  }

  /**
   * Classification loses nothing: putting the recognised prefix back gives
   * the stripped line, and only blank lines are `BlankLine`. A heading has
   * level 1 to 3, and a paragraph is a line none of the earlier prefixes
   * matched.
   */
  lemma ClassifyRender(raw: string)
    ensures Render(Classify(raw)) == Strip(raw)
    ensures Classify(raw).BlankLine? <==> Strip(raw) == ""
    ensures Classify(raw).HeadingLine? ==> 1 <= Classify(raw).level <= 3
    ensures var k := Classify(raw);
      k.ParagraphLine? ==>
        !StartsWith(k.text, "# ") && !StartsWith(k.text, "## ") && !StartsWith(k.text, "### ")
        && k.text != "---" && !StartsWith(k.text, "- ") && !StartsWith(k.text, "1. ")
  {
    ClassifyStrippedRender(Strip(raw));
  }

  /** The Notion block a non-blank line of kind `k` becomes, its text run through the tokenizer. */
  function ToBlock(k: LineKind): Block
    requires !k.BlankLine?
  {
    match k
    case HeadingLine(level, rest) =>
      if level == 1 then Heading1(ParseInline(rest))
      else if level == 2 then Heading2(ParseInline(rest))
      else Heading3(ParseInline(rest))
    case DividerLine => Divider
    case BulletLine(item) => BulletedListItem(ParseInline(item))
    case NumberedLine(rest) => NumberedListItem(ParseInline(rest))
    case ParagraphLine(text) => Paragraph(ParseInline(text))
  }

  /** The blocks for a sequence of line kinds; a blank kind yields none. */
  function ToBlocks(ks: seq<LineKind>): seq<Block> {
    if ks == [] then []
    else
      var k := ks[|ks| - 1];
      ToBlocks(ks[..|ks| - 1]) + (if k.BlankLine? then [] else [ToBlock(k)])
  }

  /** The `- ` items of the pending buffer, as line kinds again. */
  function Bulleted(items: seq<string>): (ks: seq<LineKind>)
    ensures |ks| == |items|
  {
    if items == [] then [] else Bulleted(items[..|items| - 1]) + [BulletLine(items[|items| - 1])]
  }

  /**
   * The compiler's state between lines: the kinds of the blocks emitted so
   * far, and the pending `- ` items (`current_list_items`).
   */
  datatype Compiler = Compiler(emitted: seq<LineKind>, pending: seq<string>)

  /**
   * The kinds of the blocks the loop body appends for a line of kind `k`
   * while `pending` is buffered: a blank line flushes the buffer; a `- `
   * item appends nothing; a paragraph flushes the buffer and follows it; a
   * heading, divider or numbered item is appended at once.
   */
  function EmittedKinds(pending: seq<string>, k: LineKind): seq<LineKind> {
    match k
    case BlankLine => Bulleted(pending)
    case BulletLine(_) => []
    case ParagraphLine(_) => Bulleted(pending) + [k]
    case _ => [k]
  }

  /** The buffer after a line of kind `k`: emptied by a flush, extended by a `- ` item, otherwise kept. */
  function Pending(pending: seq<string>, k: LineKind): seq<string> {
    match k
    case BlankLine => []
    case BulletLine(item) => pending + [item]
    case ParagraphLine(_) => []
    case _ => pending
  }

  /** What the loop body does with a line of kind `k`. */
  function FeedKind(c: Compiler, k: LineKind): Compiler {
    Compiler(c.emitted + EmittedKinds(c.pending, k), Pending(c.pending, k))
  }

  /** The classification of every line, in order. */
  function Classes(lines: seq<string>): (ks: seq<LineKind>)
    ensures |ks| == |lines|
  {
    if lines == [] then [] else Classes(lines[..|lines| - 1]) + [Classify(lines[|lines| - 1])]
  }

  /** The state after the loop has consumed lines of kinds `ks`. */
  function FeedAll(ks: seq<LineKind>): Compiler {
    if ks == [] then Compiler([], [])
    else FeedKind(FeedAll(ks[..|ks| - 1]), ks[|ks| - 1])
  }

  /** The final flush at the end of the input. */
  function Finish(c: Compiler): seq<LineKind> {
    c.emitted + Bulleted(c.pending)
  }

  /** The kinds of the blocks the compiler emits for lines of kinds `ks`, in output order. */
  function CompileKinds(ks: seq<LineKind>): seq<LineKind> {
    Finish(FeedAll(ks))
  }

  /** `convert_markdown_to_notion_blocks(analysis)` as a function of the text. */
  function Compile(analysis: string): seq<Block> {
    ToBlocks(CompileKinds(Classes(Split(analysis, '\n'))))
  }

  // ---------------------------------------------------------------------
  // Line classifier: properties
  // ---------------------------------------------------------------------

  /** The kinds in `ks` other than blank, in order. */
  function NonBlank(ks: seq<LineKind>): seq<LineKind> {
    if ks == [] then []
    else
      var k := ks[|ks| - 1];
      NonBlank(ks[..|ks| - 1]) + (if k.BlankLine? then [] else [k])
  }

  /** The `- ` items among `ks`, in order. */
  function ItemsIn(ks: seq<LineKind>): seq<string> {
    if ks == [] then []
    else
      var k := ks[|ks| - 1];
      ItemsIn(ks[..|ks| - 1]) + (if k.BulletLine? then [k.item] else [])
  }

  /** The kinds among `ks` that are not `- ` items, in order. */
  function OthersIn(ks: seq<LineKind>): seq<LineKind> {
    if ks == [] then []
    else
      var k := ks[|ks| - 1];
      OthersIn(ks[..|ks| - 1]) + (if k.BulletLine? then [] else [k])
  }

  /** No kind in `ks` is blank. */
  predicate NoBlank(ks: seq<LineKind>) {
    forall i :: 0 <= i < |ks| ==> !ks[i].BlankLine?
  }

  lemma {:induction false} FiltersAppend(a: seq<LineKind>, b: seq<LineKind>)
    ensures ItemsIn(a + b) == ItemsIn(a) + ItemsIn(b)
    ensures OthersIn(a + b) == OthersIn(a) + OthersIn(b)
    decreases |b|
  {
    if b == [] {
      assert a + b == a;
    } else {
      assert (a + b)[..|a + b| - 1] == a + b[..|b| - 1];
      FiltersAppend(a, b[..|b| - 1]);
    }
  }

  lemma {:induction false} BulletedAppend(a: seq<string>, b: seq<string>)
    ensures Bulleted(a + b) == Bulleted(a) + Bulleted(b)
    decreases |b|
  {
    if b == [] {
      assert a + b == a;
    } else {
      assert (a + b)[..|a + b| - 1] == a + b[..|b| - 1];
      BulletedAppend(a, b[..|b| - 1]);
    }
  }

  lemma FiltersSnoc(init: seq<LineKind>, k: LineKind)
    ensures ItemsIn(init + [k]) == ItemsIn(init) + (if k.BulletLine? then [k.item] else [])
    ensures OthersIn(init + [k]) == OthersIn(init) + (if k.BulletLine? then [] else [k])
  {
    assert (init + [k])[..|init|] == init;
  }

  /** Every kind is counted by exactly one of the two filters. */
  lemma {:induction false} ItemsOthersLength(ks: seq<LineKind>)
    ensures |ItemsIn(ks)| + |OthersIn(ks)| == |ks|
  {
    if ks != [] {
      ItemsOthersLength(ks[..|ks| - 1]);
    }
  }

  /** A flushed buffer holds exactly its items, and nothing but bullets. */
  lemma {:induction false} FlushFilters(items: seq<string>)
    ensures ItemsIn(Bulleted(items)) == items
    ensures OthersIn(Bulleted(items)) == []
    ensures NoBlank(Bulleted(items))
  {
    if items != [] {
      var init := items[..|items| - 1];
      FlushFilters(init);
      assert Bulleted(items)[..|items| - 1] == Bulleted(init);
      assert items == init + [items[|items| - 1]];
    }
  }

  lemma NoBlankAppend(a: seq<LineKind>, b: seq<LineKind>)
    requires NoBlank(a) && NoBlank(b)
    ensures NoBlank(a + b)
  {
    forall i | 0 <= i < |a + b|
      ensures !(a + b)[i].BlankLine?
    {
      if i < |a| {
        assert (a + b)[i] == a[i];
      } else {
        assert (a + b)[i] == b[i - |a|];
      }
    }
  }

  /** One line never emits a blank kind. */
  lemma FeedKindNoBlank(c: Compiler, k: LineKind)
    requires NoBlank(c.emitted)
    ensures NoBlank(FeedKind(c, k).emitted)
  {
    var e := EmittedKinds(c.pending, k);
    FlushFilters(c.pending);
    if k.ParagraphLine? {
      assert NoBlank([k]);
      NoBlankAppend(Bulleted(c.pending), [k]);
    }
    assert NoBlank(e);
    NoBlankAppend(c.emitted, e);
  }

  /** Nothing blank is ever emitted. */
  lemma {:induction false} FeedAllNoBlank(ks: seq<LineKind>)
    ensures NoBlank(FeedAll(ks).emitted)
  {
    if ks != [] {
      FeedAllNoBlank(ks[..|ks| - 1]);
      FeedKindNoBlank(FeedAll(ks[..|ks| - 1]), ks[|ks| - 1]);
    }
  }

  /** One line's effect on the items: a `- ` item joins the buffer, a flush moves the buffer to the output. */
  lemma FeedKindItems(c: Compiler, k: LineKind)
    ensures ItemsIn(FeedKind(c, k).emitted) + FeedKind(c, k).pending
         == ItemsIn(c.emitted) + c.pending + (if k.BulletLine? then [k.item] else [])
  {
    var p := c.pending;
    match k
    case BlankLine =>
      FlushFilters(p);
      FiltersAppend(c.emitted, Bulleted(p));
    case BulletLine(item) =>
      assert FeedKind(c, k).emitted == c.emitted;
    case ParagraphLine(_) =>
      FlushFilters(p);
      FiltersSnoc(Bulleted(p), k);
      FiltersAppend(c.emitted, Bulleted(p) + [k]);
    case _ =>
      assert FeedKind(c, k).emitted == c.emitted + [k];
      FiltersSnoc(c.emitted, k);
  }

  /** One line's effect on the other kinds: each non-blank line that is not a `- ` item is emitted at once. */
  lemma FeedKindOthers(c: Compiler, k: LineKind)
    ensures OthersIn(FeedKind(c, k).emitted)
         == OthersIn(c.emitted) + (if k.BlankLine? || k.BulletLine? then [] else [k])
  {
    var p := c.pending;
    match k
    case BlankLine =>
      FlushFilters(p);
      FiltersAppend(c.emitted, Bulleted(p));
    case BulletLine(item) =>
      assert FeedKind(c, k).emitted == c.emitted;
    case ParagraphLine(_) =>
      FlushFilters(p);
      FiltersSnoc(Bulleted(p), k);
      FiltersAppend(c.emitted, Bulleted(p) + [k]);
    case _ =>
      assert FeedKind(c, k).emitted == c.emitted + [k];
      FiltersSnoc(c.emitted, k);
  }

  /** `NonBlank` of one more kind. */
  lemma NonBlankSnoc(ks: seq<LineKind>)
    requires ks != []
    ensures ItemsIn(NonBlank(ks)) == ItemsIn(NonBlank(ks[..|ks| - 1])) + (if ks[|ks| - 1].BulletLine? then [ks[|ks| - 1].item] else [])
    ensures OthersIn(NonBlank(ks)) == OthersIn(NonBlank(ks[..|ks| - 1])) + (if ks[|ks| - 1].BlankLine? || ks[|ks| - 1].BulletLine? then [] else [ks[|ks| - 1]])
  {
    var init := ks[..|ks| - 1];
    var k := ks[|ks| - 1];
    if k.BlankLine? {
      assert NonBlank(ks) == NonBlank(init) + [] == NonBlank(init);
    } else {
      assert NonBlank(ks) == NonBlank(init) + [k];
      FiltersSnoc(NonBlank(init), k);
    }
  }

  /**
   * What the loop keeps between lines: the `- ` items seen so far are the
   * emitted ones followed by the pending ones, in input order.
   */
  lemma {:induction false} FeedAllItems(ks: seq<LineKind>)
    ensures ItemsIn(FeedAll(ks).emitted) + FeedAll(ks).pending == ItemsIn(NonBlank(ks))
  {
    if ks != [] {
      var init := ks[..|ks| - 1];
      FeedAllItems(init);
      FeedKindItems(FeedAll(init), ks[|ks| - 1]);
      NonBlankSnoc(ks);
    }
  }

  /** Every non-blank line other than a `- ` item has been emitted, in input order. */
  lemma {:induction false} FeedAllOthers(ks: seq<LineKind>)
    ensures OthersIn(FeedAll(ks).emitted) == OthersIn(NonBlank(ks))
  {
    if ks != [] {
      var init := ks[..|ks| - 1];
      FeedAllOthers(init);
      FeedKindOthers(FeedAll(init), ks[|ks| - 1]);
      NonBlankSnoc(ks);
    }
  }

  /**
   * The output holds every `- ` item in input order and every heading,
   * divider, numbered item and paragraph in input order: the pending buffer
   * changes only how the two are interleaved.
   */
  lemma CompileKeepsOrder(ks: seq<LineKind>)
    ensures ItemsIn(CompileKinds(ks)) == ItemsIn(NonBlank(ks))
    ensures OthersIn(CompileKinds(ks)) == OthersIn(NonBlank(ks))
    ensures NoBlank(CompileKinds(ks))
  {
    var c := FeedAll(ks);
    FeedAllItems(ks);
    FeedAllOthers(ks);
    FeedAllNoBlank(ks);
    FlushFilters(c.pending);
    FiltersAppend(c.emitted, Bulleted(c.pending));
  }

  lemma {:induction false} ToBlocksAppend(a: seq<LineKind>, b: seq<LineKind>)
    ensures ToBlocks(a + b) == ToBlocks(a) + ToBlocks(b)
    decreases |b|
  {
    if b == [] {
      assert a + b == a;
    } else {
      assert (a + b)[..|a + b| - 1] == a + b[..|b| - 1];
      ToBlocksAppend(a, b[..|b| - 1]);
    }
  }

  lemma {:induction false} ToBlocksLength(ks: seq<LineKind>)
    requires NoBlank(ks)
    ensures |ToBlocks(ks)| == |ks|
  {
    if ks != [] {
      ToBlocksLength(ks[..|ks| - 1]);
    }
  }

  /** One block per non-blank line: blank lines vanish and nothing is merged or split. */
  lemma CompileBlockCount(analysis: string)
    ensures |Compile(analysis)| == |NonBlank(Classes(Split(analysis, '\n')))|
  {
    var ks := Classes(Split(analysis, '\n'));
    CompileKeepsOrder(ks);
    ToBlocksLength(CompileKinds(ks));
    ItemsOthersLength(NonBlank(ks));
    ItemsOthersLength(CompileKinds(ks));
  }

  /**
   * A heading right after a `- ` item does not flush the pending buffer: the
   * heading is emitted first and the bullet only at the end.
   */
  lemma HeadingOvertakesPendingBullet(item: string, title: string)
    ensures CompileKinds([BulletLine(item), HeadingLine(1, title)]) == [HeadingLine(1, title), BulletLine(item)]
  {
    var ks := [BulletLine(item), HeadingLine(1, title)];
    assert ks[..1][..0] == [] && ks[..1] == [BulletLine(item)];
    assert FeedAll(ks[..1]) == Compiler([], [item]);
    assert Bulleted([item]) == [BulletLine(item)];
  }

  /** A blank line between them flushes the bullet first. */
  lemma BlankLineFlushesBullet(item: string, title: string)
    ensures CompileKinds([BulletLine(item), BlankLine, HeadingLine(1, title)]) == [BulletLine(item), HeadingLine(1, title)]
  {
    var ks := [BulletLine(item), BlankLine, HeadingLine(1, title)];
    assert ks[..1][..0] == [] && ks[..1] == [BulletLine(item)] && ks[..2][..1] == ks[..1];
    assert FeedAll(ks[..1]) == Compiler([], [item]);
    assert Bulleted([item]) == [BulletLine(item)];
    assert FeedAll(ks[..2]) == Compiler([BulletLine(item)], []);
  }

  // ---------------------------------------------------------------------
  // Line classifier: the loop
  // ---------------------------------------------------------------------

  lemma ToBlocksSnoc(ks: seq<LineKind>, k: LineKind)
    requires !k.BlankLine?
    ensures ToBlocks(ks + [k]) == ToBlocks(ks) + [ToBlock(k)]
  {
    assert (ks + [k])[..|ks|] == ks;
  }

  /** The flush of the source: the first pending item, then the rest, each as a bulleted block. */
  method AppendBulletedItems(blocks: seq<Block>, items: seq<string>) returns (result: seq<Block>)
    requires items != []
    ensures result == blocks + ToBlocks(Bulleted(items))
  {
    var first := ParseMarkdownText(items[0]);
    result := blocks + [BulletedListItem(first)];
    assert items[..1] == [items[0]] && Bulleted(items[..1]) == [BulletLine(items[0])];
    ToBlocksSnoc([], BulletLine(items[0]));
    for j := 1 to |items|
      invariant result == blocks + ToBlocks(Bulleted(items[..j]))
    {
      var richText := ParseMarkdownText(items[j]);
      assert items[..j + 1][..j] == items[..j];
      ToBlocksSnoc(Bulleted(items[..j]), BulletLine(items[j]));
      result := result + [BulletedListItem(richText)];
    }
    assert items[..|items|] == items;
  }

  /**
   * The loop body after `line = line.strip()`: it appends the blocks of
   * `EmittedKinds` and leaves the buffer as `Pending` says. The blank line
   * and the three heading levels are handled here, the rest of the `elif`
   * chain by `CompileOther`.
   */
  method CompileStripped(blocks: seq<Block>, currentListItems: seq<string>, line: string)
    returns (blocks': seq<Block>, currentListItems': seq<string>)
    requires IsStripped(line)
    ensures blocks' == blocks + ToBlocks(EmittedKinds(currentListItems, ClassifyStripped(line)))
    ensures currentListItems' == Pending(currentListItems, ClassifyStripped(line))
  {
    ghost var k := ClassifyStripped(line);
    blocks', currentListItems' := blocks, currentListItems;
    if line == "" {
      assert k == BlankLine;
      if currentListItems' != [] {
        blocks' := AppendBulletedItems(blocks', currentListItems');
        currentListItems' := [];
      }
      return;
    }
    if StartsWith(line, "# ") {
      assert k == HeadingLine(1, line[2..]);
      var richText := ParseMarkdownText(line[2..]);
      blocks' := blocks' + [Heading1(richText)];
      ToBlocksSnoc([], k);
    } else if StartsWith(line, "## ") {
      assert k == HeadingLine(2, line[3..]);
      var richText := ParseMarkdownText(line[3..]);
      blocks' := blocks' + [Heading2(richText)];
      ToBlocksSnoc([], k);
    } else if StartsWith(line, "### ") {
      assert k == HeadingLine(3, line[4..]);
      var richText := ParseMarkdownText(line[4..]);
      blocks' := blocks' + [Heading3(richText)];
      ToBlocksSnoc([], k);
    } else {
      blocks', currentListItems' := CompileOther(blocks', currentListItems', line);
    }
  }

  /** The `elif` branches after the headings: divider, `- ` item, `1. ` item, and the paragraph fallback. */
  method CompileOther(blocks: seq<Block>, currentListItems: seq<string>, line: string)
    returns (blocks': seq<Block>, currentListItems': seq<string>)
    requires IsStripped(line) && line != ""
    requires !StartsWith(line, "# ") && !StartsWith(line, "## ") && !StartsWith(line, "### ")
    ensures blocks' == blocks + ToBlocks(EmittedKinds(currentListItems, ClassifyStripped(line)))
    ensures currentListItems' == Pending(currentListItems, ClassifyStripped(line))
  {
    ghost var k := ClassifyStripped(line);
    StripOfStripped(line);
    blocks', currentListItems' := blocks, currentListItems;
    if Strip(line) == "---" {
      assert k == DividerLine;
      blocks' := blocks' + [Divider];
      ToBlocksSnoc([], k);
    } else if StartsWith(line, "- ") {
      assert k == BulletLine(line[2..]);
      currentListItems' := currentListItems' + [line[2..]];
    } else if StartsWith(line, "1. ") {
      assert k == NumberedLine(line[3..]);
      var richText := ParseMarkdownText(line[3..]);
      blocks' := blocks' + [NumberedListItem(richText)];
      ToBlocksSnoc([], k);
    } else {
      assert k == ParagraphLine(line);
      blocks', currentListItems' := CompileParagraph(blocks', currentListItems', line);
    }
  }

  /** The `else` branch: flush the pending items, then emit the line as a paragraph. */
  method CompileParagraph(blocks: seq<Block>, currentListItems: seq<string>, line: string)
    returns (blocks': seq<Block>, currentListItems': seq<string>)
    ensures blocks' == blocks + ToBlocks(Bulleted(currentListItems) + [ParagraphLine(line)])
    ensures currentListItems' == []
  {
    blocks', currentListItems' := blocks, currentListItems;
    if currentListItems' != [] {
      blocks' := AppendBulletedItems(blocks', currentListItems');
      currentListItems' := [];
    }
    var richText := ParseMarkdownText(line);
    blocks' := blocks' + [Paragraph(richText)];
    ToBlocksSnoc(Bulleted(currentListItems), ParagraphLine(line));
  }

  /** The loop state after one more line is the state before it fed with that line's kind. */
  lemma FeedNextLine(lines: seq<string>, i: nat)
    requires i < |lines|
    ensures FeedAll(Classes(lines[..i + 1])) == FeedKind(FeedAll(Classes(lines[..i])), Classify(lines[i]))
  {
    var before := Classes(lines[..i]);
    assert lines[..i + 1][..i] == lines[..i];
    assert Classes(lines[..i + 1]) == before + [Classify(lines[i])];
    assert (before + [Classify(lines[i])])[..i] == before;
  }

  /** `convert_markdown_to_notion_blocks`: the loop over lines with the pending bullet buffer, then the final flush. */
  method ConvertMarkdownToNotionBlocks(analysis: string) returns (blocks: seq<Block>)
    ensures blocks == Compile(analysis)
  {
    blocks := [];
    var currentListItems: seq<string> := [];
    var lines := Split(analysis, '\n');
    for i := 0 to |lines|
      invariant blocks == ToBlocks(FeedAll(Classes(lines[..i])).emitted)
      invariant currentListItems == FeedAll(Classes(lines[..i])).pending
    {
      ghost var c := FeedAll(Classes(lines[..i]));
      FeedNextLine(lines, i);
      var line := Strip(lines[i]);
      StripSpec(lines[i]);
      blocks, currentListItems := CompileStripped(blocks, currentListItems, line);
      ToBlocksAppend(c.emitted, EmittedKinds(c.pending, Classify(lines[i])));
    }
    assert lines[..|lines|] == lines;
    ghost var c := FeedAll(Classes(lines));
    if currentListItems != [] {
      blocks := AppendBulletedItems(blocks, currentListItems);
    }
    ToBlocksAppend(c.emitted, Bulleted(c.pending));
  }
}
