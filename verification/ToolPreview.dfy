/**
 The preview of a tool result (src/core.rs:1444-1470, 2018-2101): long lines are cut to a number of
 characters, the middle lines are left out, and what remains is cut to a number of bytes.
 */
module ToolPreview {
  import opened Prelude
  import opened Json
  import opened Utf8Text
  import opened Truncation
  import opened ContextItems
  import opened CutContent

  const CARRIAGE_RETURN: Byte := 13

  /** `chars().count()`: every byte that does not continue a character starts one. */
  function CharCount(t: Text): nat {
    if t == [] then 0 else (if IsContinuation(t[0]) then 0 else 1) + CharCount(t[1..])
  }

  /** Where the first `n` characters end. */
  function CharsEnd(t: Text, n: nat): (end: nat)
    ensures end <= |t| && IsCharBoundary(t, end)
  {
    if t == [] || (n == 0 && !IsContinuation(t[0])) then 0
    else 1 + CharsEnd(t[1..], if IsContinuation(t[0]) then n else n - 1)
  }

  function TakeChars(t: Text, n: nat): Text {
    t[..CharsEnd(t, n)]
  }

  /** `str::lines`: a line ends at a line feed, and a carriage return right before it is not part of the line. */
  function Lines(t: Text): seq<Text>
    decreases |t|
  {
    if t == [] then []
    else
      var k := Find(t, NEWLINE);
      if k == |t| then [t] else [StripReturn(t[..k])] + Lines(t[k + 1..])
  }

  function StripReturn(line: Text): Text {
    if line != [] && line[|line| - 1] == CARRIAGE_RETURN then line[..|line| - 1] else line
  }

  /** An ellipsis and " [line truncated]". */
  function LineMarker(): Text {
    [0xE2, 0x80, 0xA6] + Ascii(" [line truncated]")
  }

  const LINE_MARKER_CHARS: nat := 18

  function TruncateLine(line: Text, maxChars: nat): Text {
    if CharCount(line) <= maxChars then line
    else TakeChars(line, Max(SaturatingSub(maxChars, LINE_MARKER_CHARS), 1)) + LineMarker()
  }

  function OmissionMarker(omitted: nat): Text {
    Ascii("[... " + Decimal(omitted) + " tool-output lines omitted from model context ...]")
  }

  /** The first and the last lines around a note on how many were left out. */
  function Window(lines: seq<Text>, maxLines: nat): (window: seq<Text>)
    ensures |window| <= maxLines + 1
  {
    if |lines| <= maxLines then lines
    else
      var head := (maxLines + 1) / 2;
      var tail := maxLines - head;
      lines[..head] + [OmissionMarker(|lines| - maxLines)] + lines[|lines| - tail..]
  }

  function JoinLines(lines: seq<Text>): Text {
    if lines == [] then []
    else if |lines| == 1 then lines[0]
    else lines[0] + [NEWLINE] + JoinLines(lines[1..])
  }

  function TruncateLines(lines: seq<Text>, maxChars: nat): (r: seq<Text>)
    ensures |r| == |lines| && forall i | 0 <= i < |r| :: r[i] == TruncateLine(lines[i], maxChars)
  {
    seq(|lines|, i requires 0 <= i < |lines| => TruncateLine(lines[i], maxChars))
  }

  predicate IsWithin(content: Text, limits: PreviewLimits) {
    && |content| <= limits.bytes && |Lines(content)| <= limits.lines
    && forall i | 0 <= i < |Lines(content)| :: CharCount(Lines(content)[i]) <= limits.lineChars
  }

  function PreviewContent(content: Text, limits: PreviewLimits): (preview: Text)
    ensures |preview| <= Max(limits.bytes, 1)
  {
    var window := Window(TruncateLines(Lines(content), limits.lineChars), limits.lines);
    TruncateHeadTail(JoinLines(window), Max(limits.bytes, 1), false)
  }

  /** `limit_tool_result_context`, for one item. */
  function LimitToolResult(b: Builder, item: ContextItem): ContextItem {
    if item.kind != "tool_result" || IsWithin(item.content, b.previewLimits) then item
    else
      var content := PreviewContent(item.content, b.previewLimits);
      var cut := item.(
        content := content,
        metadata := item.metadata
          ["context_truncated" := Bool(true)]
          ["context_truncation_reason" := Str("tool_output_preview")]
          ["context_truncation_strategy" := Str("line_window_head_tail")]
          ["context_original_token_estimate" := Natural(item.tokenEstimate)]
          ["context_original_bytes" := Natural(|item.content|)]
          ["context_original_line_count" := Natural(|Lines(item.content)|)]
          ["context_retained_bytes" := Natural(|content|)]);
      cut.(tokenEstimate := EstimateItem(b, cut))
  }

  /** A preview keeps what the item is, and only tool results are previewed. */
  lemma PreviewKeepsIdentity(b: Builder, item: ContextItem)
    ensures var limited := LimitToolResult(b, item);
      && limited == item.(content := limited.content, tokenEstimate := limited.tokenEstimate,
                          metadata := limited.metadata)
      && limited.Required() == item.Required() && limited.IsDuplicate() == item.IsDuplicate()
      && limited.MetaStr("role") == item.MetaStr("role")
      && (limited != item ==> |limited.content| <= Max(b.previewLimits.bytes, 1)
                              && limited.MetaBool("context_truncated") == Some(true)
                              && OriginalEstimate(limited) == item.tokenEstimate
                              && OriginalBytes(limited) == |item.content|)
    ensures item.kind != "tool_result" ==> LimitToolResult(b, item) == item
    ensures |item.content| <= b.previewLimits.bytes && |Lines(item.content)| <= b.previewLimits.lines ==>
      (forall i | 0 <= i < |Lines(item.content)| :: CharCount(Lines(item.content)[i]) <= b.previewLimits.lineChars) ==>
        LimitToolResult(b, item) == item
  {
    hide PreviewContent, EstimateItem, Lines, CharCount;
    var limited := LimitToolResult(b, item);
    if limited != item {
      assert limited.metadata["context_original_token_estimate"] == Natural(item.tokenEstimate);
      assert limited.metadata["context_original_bytes"] == Natural(|item.content|);
    }
  }

  // ----- how long a cut line is

  lemma {:induction false} CharCountConcat(a: Text, b: Text)
    ensures CharCount(a + b) == CharCount(a) + CharCount(b)
  {
    if a == [] {
      assert a + b == b;
    } else {
      assert (a + b)[1..] == a[1..] + b;
      CharCountConcat(a[1..], b);
    }
  }

  /** A well-formed character counts once. */
  lemma OneCharCounts(t: Text)
    requires CharLength(t) == |t| > 0
    ensures CharCount(t) == 1
  {
    Continued(t[1..]);
  }

  lemma {:induction false} Continued(t: Text)
    requires forall i | 0 <= i < |t| :: IsContinuation(t[i])
    ensures CharCount(t) == 0
  {
    if t == [] {
    } else {
      Continued(t[1..]);
    }
  }

  lemma {:induction false} TakeCharsCounts(t: Text, n: nat)
    ensures CharCount(TakeChars(t, n)) == Min(n, CharCount(t))
  {
    if t == [] || (n == 0 && !IsContinuation(t[0])) {
    } else {
      var m := if IsContinuation(t[0]) then n else n - 1;
      TakeCharsCounts(t[1..], m);
      assert TakeChars(t, n)[1..] == TakeChars(t[1..], m);
    }
  }

  lemma {:induction false} AsciiCharCount(t: Text)
    requires forall i | 0 <= i < |t| :: t[i] <= 0x7F
    ensures CharCount(t) == |t|
  {
    if t == [] {
    } else {
      AsciiCharCount(t[1..]);
    }
  }

  lemma LineMarkerChars()
    ensures CharCount(LineMarker()) == LINE_MARKER_CHARS
  {
    var ellipsis: Text := [0xE2, 0x80, 0xA6];
    AsciiCharCount(Ascii(" [line truncated]"));
    CharCountConcat(ellipsis, Ascii(" [line truncated]"));
    assert CharCount(ellipsis[1..]) == CharCount(ellipsis[2..]) == 0 by { assert ellipsis[1..][1..] == ellipsis[2..]; }
  }

  /** A cut line has the allowed number of characters, but never fewer than 19: one of its own and the marker. */
  lemma CutLineLength(line: Text, maxChars: nat)
    ensures CharCount(TruncateLine(line, maxChars)) ==
      if CharCount(line) <= maxChars then CharCount(line) else Max(maxChars, LINE_MARKER_CHARS + 1)
  {
    if CharCount(line) > maxChars {
      var n := Max(SaturatingSub(maxChars, LINE_MARKER_CHARS), 1);
      TakeCharsCounts(line, n);
      LineMarkerChars();
      CharCountConcat(TakeChars(line, n), LineMarker());
    }
  }

  // ----- previews of well-formed text are well formed

  lemma LineMarkerIsValid()
    ensures ValidUtf8(LineMarker())
  {
    var ellipsis: Text := [0xE2, 0x80, 0xA6];
    assert CharLength(ellipsis) == 3 && ellipsis[3..] == [];
    AsciiIsValid(Ascii(" [line truncated]"));
    ConcatIsValid(ellipsis, Ascii(" [line truncated]"));
  }

  lemma TruncatedLineIsValid(line: Text, maxChars: nat)
    requires ValidUtf8(line)
    ensures ValidUtf8(TruncateLine(line, maxChars))
  {
    hide ValidUtf8, CharCount, LineMarker;
    var n := Max(SaturatingSub(maxChars, LINE_MARKER_CHARS), 1);
    SplitAtBoundary(line, CharsEnd(line, n));
    LineMarkerIsValid();
    ConcatIsValid(TakeChars(line, n), LineMarker());
  }

  /** Cutting out an ASCII byte leaves well-formed text on both sides. */
  lemma AroundAscii(t: Text, k: nat)
    requires k < |t| && ValidUtf8(t) && t[k] <= 0x7F
    ensures ValidUtf8(t[..k]) && ValidUtf8(t[k + 1..])
  {
    hide ValidUtf8;
    SplitAtBoundary(t, k);
    AsciiEndsACharacter(t, k + 1);
    SplitAtBoundary(t, k + 1);
  }

  lemma {:induction false} LinesAreValid(t: Text)
    requires ValidUtf8(t)
    ensures forall i | 0 <= i < |Lines(t)| :: ValidUtf8(Lines(t)[i])
    decreases |t|
  {
    hide ValidUtf8;
    var k := Find(t, NEWLINE);
    if k == |t| {
    } else {
      AroundAscii(t, k);
      var line := t[..k];
      if line != [] && line[|line| - 1] == CARRIAGE_RETURN {
        AroundAscii(line, |line| - 1);
      }
      LinesAreValid(t[k + 1..]);
    }
  }

  lemma {:induction false} JoinedLinesAreValid(lines: seq<Text>)
    requires forall i | 0 <= i < |lines| :: ValidUtf8(lines[i])
    ensures ValidUtf8(JoinLines(lines))
  {
    if |lines| <= 1 {
    } else {
      hide ValidUtf8;
      JoinedLinesAreValid(lines[1..]);
      AsciiIsValid([NEWLINE]);
      ConcatIsValid(lines[0], [NEWLINE]);
      ConcatIsValid(lines[0] + [NEWLINE], JoinLines(lines[1..]));
    }
  }

  lemma PreviewIsValid(b: Builder, item: ContextItem)
    requires ValidUtf8(item.content)
    ensures ValidUtf8(LimitToolResult(b, item).content)
  {
    hide ValidUtf8, IsWithin, EstimateItem, TruncateLines, JoinLines, Lines, Window;
    var limits := b.previewLimits;
    WindowIsValid(item.content, limits);
    HeadTailIsValid(JoinLines(Window(TruncateLines(Lines(item.content), limits.lineChars), limits.lines)),
                    Max(limits.bytes, 1), false);
  }

  /** A window holds lines of the text and, where lines were left out, the note. */
  lemma WindowMember(lines: seq<Text>, maxLines: nat, i: nat)
    requires i < |Window(lines, maxLines)|
    ensures var x := Window(lines, maxLines)[i];
      x in lines || (|lines| > maxLines && x == OmissionMarker(|lines| - maxLines))
  {
  }

  // ----- what a preview shows

  /** Lines with what ends each of them, put together again. */
  function Rejoin(lines: seq<Text>, ends: seq<Text>): Text
    requires |ends| == |lines|
  {
    if lines == [] then [] else lines[0] + ends[0] + Rejoin(lines[1..], ends[1..])
  }

  /** A line feed, alone or behind a carriage return, ends a line; the last one may end without. */
  predicate IsLineEnd(line: Text, end: Text, last: bool) {
    && 10 !in line
    && (end == [10] || end == [13, 10] || (last && end == [] && line != []))
    && (end == [10] ==> line == [] || line[|line| - 1] != 13)
  }

  /** One step of `Lines`. */
  lemma FirstLine(line: Text, rest: Text)
    requires 10 !in line
    ensures Lines(line + ([NEWLINE] + rest)) == [StripReturn(line)] + Lines(rest)
  {
    var t := line + ([NEWLINE] + rest);
    NewlineAt(line, [NEWLINE] + rest, |line|);
    assert t[..|line|] == line && t[|line| + 1..] == rest;
  }

  lemma OnlyLine(line: Text)
    requires line != [] && 10 !in line
    ensures Lines(line) == [line]
  {
    NewlineAt(line, [], |line|);
    assert line + [] == line;
  }

  lemma StrippedEnd(line: Text) returns (end: Text)
    requires 10 !in line
    ensures IsLineEnd(StripReturn(line), end, false) && StripReturn(line) + end == line + [NEWLINE]
  {
    end := if StripReturn(line) == line then [10] else [13, 10];
  }

  /** The lines and their ends make up the text, and no line holds a line feed. */
  lemma {:induction false} LinesAreExact(t: Text) returns (ends: seq<Text>)
    ensures |ends| == |Lines(t)| && Rejoin(Lines(t), ends) == t
    ensures forall i | 0 <= i < |ends| :: IsLineEnd(Lines(t)[i], ends[i], i == |ends| - 1)
    decreases |t|
  {
    hide StripReturn, IsLineEnd, Lines, Rejoin, Find;
    var k := Find(t, NEWLINE);
    if t == [] {
      ends := [];
      NoLines();
    } else if k == |t| {
      assert t[..k] == t;
      OnlyLine(t);
      ends := [[]];
      LastEnd(t);
    } else {
      var line, tail := t[..k], t[k + 1..];
      assert t == line + ([NEWLINE] + tail);
      FirstLine(line, tail);
      var rest := LinesAreExact(tail);
      var end := StrippedEnd(line);
      ends := [end] + rest;
      EndsPrepended(StripReturn(line), end, Lines(tail), rest);
      assert StripReturn(line) + end + tail == t;
    }
  }

  lemma NoLines()
    ensures Lines([]) == [] && Rejoin([], []) == []
  {
  }

  lemma LastEnd(line: Text)
    requires line != [] && 10 !in line
    ensures IsLineEnd(line, [], true) && Rejoin([line], [[]]) == line
  {
    assert Rejoin([line], [[]]) == line + [] + Rejoin([line][1..], [[]][1..]);
  }

  lemma EndsPrepended(line: Text, end: Text, lines: seq<Text>, ends: seq<Text>)
    requires |ends| == |lines| && IsLineEnd(line, end, false)
    requires forall i | 0 <= i < |ends| :: IsLineEnd(lines[i], ends[i], i == |ends| - 1)
    ensures Rejoin([line] + lines, [end] + ends) == line + end + Rejoin(lines, ends)
    ensures forall i | 0 <= i <= |ends| :: IsLineEnd(([line] + lines)[i], ([end] + ends)[i], i == |ends|)
  {
    assert ([line] + lines)[1..] == lines && ([end] + ends)[1..] == ends;
  }

  /** Reading joined lines gives the lines back. */
  lemma {:induction false} LinesOfJoined(lines: seq<Text>)
    requires forall i | 0 <= i < |lines| :: 10 !in lines[i] && (lines[i] != [] ==> lines[i][|lines[i]| - 1] != 13)
    requires lines != [] ==> lines[|lines| - 1] != []
    ensures Lines(JoinLines(lines)) == lines
  {
    hide Lines;
    if lines == [] {
      NoLines();
    } else if |lines| == 1 {
      OnlyLine(lines[0]);
      assert lines == [lines[0]];
    } else {
      LinesOfJoined(lines[1..]);
      FirstLine(lines[0], JoinLines(lines[1..]));
      assert JoinLines(lines) == lines[0] + ([NEWLINE] + JoinLines(lines[1..]));
      assert lines == [lines[0]] + lines[1..];
    }
  }

  lemma {:induction false} NewlineAt(line: Text, rest: Text, k: nat)
    requires 10 !in line && k == |line| && (rest != [] ==> rest[0] == 10)
    ensures Find(line + rest, NEWLINE) == k
  {
    if line == [] {
      assert line + rest == rest;
    } else {
      assert (line + rest)[1..] == line[1..] + rest;
      NewlineAt(line[1..], rest, k - 1);
    }
  }

  /** A line that is too long loses its end, to the marker and as many characters as are left, at least one. */
  ghost predicate IsLineCut(line: Text, maxChars: nat, cut: Text) {
    if CharCount(line) <= maxChars then cut == line
    else exists k | 0 <= k <= |line| ::
           cut == line[..k] + LineMarker() && CharCount(line[..k]) == if maxChars > 19 then maxChars - 18 else 1
  }

  /** All lines, or the first half and the last half of the allowed number around a count of the others. */
  ghost predicate IsWindow(lines: seq<Text>, maxLines: nat, maxChars: nat, window: seq<Text>) {
    if |lines| <= maxLines then
      |window| == |lines| && forall i | 0 <= i < |lines| :: IsLineCut(lines[i], maxChars, window[i])
    else
      var head, omitted := (maxLines + 1) / 2, |lines| - maxLines;
      && |window| == maxLines + 1
      && window[head]
           == Ascii("[... " + Decimal(omitted) + " tool-output lines omitted from model context ...]")
      && (forall i | 0 <= i < head :: IsLineCut(lines[i], maxChars, window[i]))
      && forall i | head < i <= maxLines :: IsLineCut(lines[omitted + i - 1], maxChars, window[i])
  }

  /** The text itself if it fits, both of its ends around the marker, or without room for one its beginning. */
  ghost predicate IsHeadTail(text: Text, maxBytes: nat, content: Text) {
    if |text| <= maxBytes then content == text
    else if maxBytes <= |Marker()| + 8 then content <= text && maxBytes - 4 < |content| <= maxBytes
    else EndsKept(text, maxBytes, 0, content)
  }

  lemma LineIsCut(line: Text, maxChars: nat)
    ensures IsLineCut(line, maxChars, TruncateLine(line, maxChars))
  {
    hide CharCount, LineMarker, CharsEnd;
    if CharCount(line) > maxChars {
      var n := Max(SaturatingSub(maxChars, LINE_MARKER_CHARS), 1);
      TakeCharsCounts(line, n);
      assert TakeChars(line, n) == line[..CharsEnd(line, n)];
    }
  }

  lemma WindowIsExact(lines: seq<Text>, maxLines: nat, maxChars: nat)
    ensures IsWindow(lines, maxLines, maxChars, Window(TruncateLines(lines, maxChars), maxLines))
  {
    hide TruncateLine, IsLineCut;
    forall i | 0 <= i < |lines| ensures IsLineCut(lines[i], maxChars, TruncateLine(lines[i], maxChars)) {
      LineIsCut(lines[i], maxChars);
    }
  }

  lemma HeadTailIsExact(text: Text, maxBytes: nat)
    requires ValidUtf8(text)
    ensures IsHeadTail(text, maxBytes, TruncateHeadTail(text, maxBytes, false))
  {
    hide ValidUtf8, Marker, TruncateHeadTail, EndsKept;
    if |text| <= maxBytes || maxBytes <= |Marker()| + 8 {
      HeadTailWithoutMarker(text, maxBytes, false);
    } else {
      HeadTailKeeps(text, maxBytes, false);
    }
  }

  /**
   The preview of a tool result that is over one of the limits: its window of cut lines, joined by line
   feeds and cut to the number of bytes, and the number of lines it had on record.
   */
  lemma PreviewShowsWindow(b: Builder, item: ContextItem) returns (window: seq<Text>)
    requires ValidUtf8(item.content) && item.kind == "tool_result"
    requires
      || |item.content| > b.previewLimits.bytes || |Lines(item.content)| > b.previewLimits.lines
      || exists i | 0 <= i < |Lines(item.content)| :: CharCount(Lines(item.content)[i]) > b.previewLimits.lineChars
    ensures IsWindow(Lines(item.content), b.previewLimits.lines, b.previewLimits.lineChars, window)
    ensures IsHeadTail(JoinLines(window), Max(b.previewLimits.bytes, 1), LimitToolResult(b, item).content)
    ensures LimitToolResult(b, item).MetaU64("context_original_line_count") == Some(|Lines(item.content)|)
  {
    hide ValidUtf8, EstimateItem, Lines, JoinLines, IsWindow, IsHeadTail, TruncateHeadTail, TruncateLines, Window;
    var limits := b.previewLimits;
    window := Window(TruncateLines(Lines(item.content), limits.lineChars), limits.lines);
    WindowIsExact(Lines(item.content), limits.lines, limits.lineChars);
    WindowIsValid(item.content, limits);
    HeadTailIsExact(JoinLines(window), Max(limits.bytes, 1));
    assert LimitToolResult(b, item).metadata["context_original_line_count"] == Natural(|Lines(item.content)|);
  }

  lemma WindowIsValid(content: Text, limits: PreviewLimits)
    requires ValidUtf8(content)
    ensures ValidUtf8(JoinLines(Window(TruncateLines(Lines(content), limits.lineChars), limits.lines)))
  {
    hide ValidUtf8, TruncateLine, JoinLines, Lines;
    var lines := Lines(content);
    var cut := TruncateLines(lines, limits.lineChars);
    var window := Window(cut, limits.lines);
    LinesAreValid(content);
    forall i | 0 <= i < |cut| ensures ValidUtf8(cut[i]) {
      TruncatedLineIsValid(lines[i], limits.lineChars);
    }
    AsciiIsValid(OmissionMarker(SaturatingSub(|lines|, limits.lines)));
    forall i | 0 <= i < |window| ensures ValidUtf8(window[i]) {
      WindowMember(cut, limits.lines, i);
    }
    JoinedLinesAreValid(window);
  }
}
