/**
 The two ways a required item is cut to a byte limit (src/core.rs:2119-2188): a head and a tail
 around a marker, and the variant for system text that also keeps both ends of its instructions.
 */
module Truncation {
  import opened Prelude
  import opened Utf8Text

  const MARKER_TEXT: string := "\n[... context truncated to fit model budget ...]\n"

  function Marker(): (m: Text)
    ensures forall i | 0 <= i < |m| :: m[i] <= 0x7F
    ensures |m| == 49
  {
    assert |MARKER_TEXT| == 49;
    Ascii(MARKER_TEXT)
  }

  const OPEN_TAG: string := "<instructions>"

  const CLOSE_TAG: string := "</instructions>"

  const NEWLINE: Byte := 10

  /** The first line with its newline, when it is to be kept and leaves room for 8 bytes of body. */
  function HeaderLength(text: Text, maxBytes: nat, preserveHeader: bool, marker: Text): (n: nat)
    ensures n <= |text|
    ensures n > 0 ==> preserveHeader && n + |marker| + 8 < maxBytes && text[n - 1] == NEWLINE
  {
    var newline := Find(text, NEWLINE);
    if preserveHeader && newline < |text| && newline + 1 + |marker| + 8 < maxBytes then newline + 1 else 0
  }

  /** The header, and the body cut to the room that it and the marker leave. */
  function CutHeadTail(header: Text, body: Text, maxBytes: nat, marker: Text): Text {
    var retained := SaturatingSub(SaturatingSub(maxBytes, |header|), |marker|);
    var headBudget := retained * 2 / 3;
    var tailBudget := SaturatingSub(retained, headBudget);
    header + Prefix(body, headBudget) + marker + Suffix(body, tailBudget)
  }

  function TruncateWith(text: Text, maxBytes: nat, preserveHeader: bool, marker: Text): (r: Text)
    ensures |r| <= maxBytes
  {
    if |text| <= maxBytes then text
    else if maxBytes <= |marker| + 8 then Prefix(text, maxBytes)
    else
      var n := HeaderLength(text, maxBytes, preserveHeader, marker);
      CutHeadTail(text[..n], text[n..], maxBytes, marker)
  }

  /** The result never exceeds its byte limit, whatever the bytes are. */
  function TruncateHeadTail(text: Text, maxBytes: nat, preserveHeader: bool): (r: Text)
    ensures |r| <= maxBytes
  {
    TruncateWith(text, maxBytes, preserveHeader, Marker())
  }

  /** Three parts kept at a fifth, three tenths at either end, and the remaining fifth of the budget. */
  function CutSections(prefix: Text, instructions: Text, suffix: Text, maxBytes: nat, marker: Text): (r: Text)
    requires maxBytes > 3 * |marker|
    ensures |r| <= maxBytes
  {
    var retained := maxBytes - 3 * |marker|;
    var prefixBudget := retained / 5;
    var instructionBudget := retained * 3 / 10;
    var suffixBudget :=
      SaturatingSub(SaturatingSub(SaturatingSub(retained, prefixBudget), instructionBudget), instructionBudget);
    JoinSections(Prefix(prefix, prefixBudget), Prefix(instructions, instructionBudget),
                 Suffix(instructions, instructionBudget), Suffix(suffix, suffixBudget), marker)
  }

  function JoinSections(a: Text, b: Text, c: Text, d: Text, marker: Text): (r: Text)
    ensures |r| == |a| + |b| + |c| + |d| + 3 * |marker|
  {
    a + marker + b + marker + c + marker + d
  }

  datatype Span = Span(from: nat, to: nat)

  /** Where the instructions start and end, when both tags are there in order. */
  function FindInstructions(text: Text, openTag: Text, closeTag: Text): (span: Option<Span>)
    ensures span.Some? ==>
      && |openTag| <= span.value.from <= span.value.to <= |text| - |closeTag|
      && OccursAt(text, openTag, span.value.from - |openTag|)
      && OccursAt(text, closeTag, span.value.to)
  {
    var open := FindPattern(text, openTag, 0);
    if open > |text| then None
    else
      var close := FindPattern(text, closeTag, open + |openTag|);
      if close > |text| then None else Some(Span(open + |openTag|, close))
  }

  function TruncateSectionsWith(text: Text, maxBytes: nat, openTag: Text, closeTag: Text, marker: Text): (r: Text)
    ensures |r| <= maxBytes
  {
    var span := FindInstructions(text, openTag, closeTag);
    if span.None? || maxBytes <= 3 * |marker| + 16 then TruncateWith(text, maxBytes, false, marker)
    else
      var from, to := span.value.from, span.value.to;
      CutSections(text[..from], text[from..to], text[to..], maxBytes, marker)
  }

  /** The same bound holds even where the kept head and tail of short instructions overlap. */
  function TruncateInstructionSections(text: Text, maxBytes: nat): (r: Text)
    ensures |r| <= maxBytes
  {
    TruncateSectionsWith(text, maxBytes, Ascii(OPEN_TAG), Ascii(CLOSE_TAG), Marker())
  }

  // ----- a cut of well-formed text is well formed

  /** The byte after an ASCII byte starts a character. */
  lemma {:induction false} AsciiEndsACharacter(t: Text, k: nat)
    requires 0 < k <= |t| && ValidUtf8(t) && t[k - 1] <= 0x7F
    ensures IsCharBoundary(t, k)
  {
    var n := CharLength(t);
    if k - 1 >= n {
      assert t[n..][k - 1 - n] == t[k - 1];
      AsciiEndsACharacter(t[n..], k - n);
      assert k < |t| ==> t[n..][k - n] == t[k];
    } else {
      assert n == 1 && k == 1;
      assert |t| > 1 ==> CharLength(t[1..]) > 0 && t[1..][0] == t[1];
    }
  }

  lemma HeaderIsValid(text: Text, maxBytes: nat, preserveHeader: bool, marker: Text)
    requires ValidUtf8(text)
    ensures var n := HeaderLength(text, maxBytes, preserveHeader, marker);
      IsCharBoundary(text, n) && ValidUtf8(text[..n]) && ValidUtf8(text[n..])
  {
    hide ValidUtf8;
    var n := HeaderLength(text, maxBytes, preserveHeader, marker);
    if n > 0 {
      AsciiEndsACharacter(text, n);
    }
    SplitAtBoundary(text, n);
  }

  lemma FourAreValid(a: Text, b: Text, c: Text, d: Text)
    requires ValidUtf8(a) && ValidUtf8(b) && ValidUtf8(c) && ValidUtf8(d)
    ensures ValidUtf8(a + b + c + d)
  {
    hide ValidUtf8;
    ConcatIsValid(a, b);
    ConcatIsValid(a + b, c);
    ConcatIsValid(a + b + c, d);
  }

  lemma TruncateWithIsValid(text: Text, maxBytes: nat, preserveHeader: bool, marker: Text)
    requires ValidUtf8(text) && ValidUtf8(marker)
    ensures ValidUtf8(TruncateWith(text, maxBytes, preserveHeader, marker))
  {
    hide ValidUtf8;
    if |text| > maxBytes {
      PrefixIsTight(text, maxBytes);
      var n := HeaderLength(text, maxBytes, preserveHeader, marker);
      HeaderIsValid(text, maxBytes, preserveHeader, marker);
      CutIsValid(text[..n], text[n..], maxBytes, marker);
    }
  }

  lemma CutIsValid(header: Text, body: Text, maxBytes: nat, marker: Text)
    requires ValidUtf8(header) && ValidUtf8(body) && ValidUtf8(marker)
    ensures ValidUtf8(CutHeadTail(header, body, maxBytes, marker))
  {
    hide ValidUtf8;
    var retained := SaturatingSub(SaturatingSub(maxBytes, |header|), |marker|);
    var headBudget := retained * 2 / 3;
    var tailBudget := SaturatingSub(retained, headBudget);
    PrefixIsTight(body, headBudget);
    SuffixIsTight(body, tailBudget);
    FourAreValid(header, Prefix(body, headBudget), marker, Suffix(body, tailBudget));
  }

  lemma HeadTailIsValid(text: Text, maxBytes: nat, preserveHeader: bool)
    requires ValidUtf8(text)
    ensures ValidUtf8(TruncateHeadTail(text, maxBytes, preserveHeader))
  {
    hide ValidUtf8;
    AsciiIsValid(Marker());
    TruncateWithIsValid(text, maxBytes, preserveHeader, Marker());
  }

  lemma JoinIsValid(a: Text, b: Text, c: Text, d: Text, marker: Text)
    requires ValidUtf8(a) && ValidUtf8(b) && ValidUtf8(c) && ValidUtf8(d) && ValidUtf8(marker)
    ensures ValidUtf8(JoinSections(a, b, c, d, marker))
  {
    hide ValidUtf8;
    FourAreValid(a, marker, b, marker);
    FourAreValid(a + marker + b + marker, c, marker, d);
  }

  lemma CutSectionsAreValid(prefix: Text, instructions: Text, suffix: Text, maxBytes: nat, marker: Text)
    requires ValidUtf8(prefix) && ValidUtf8(instructions) && ValidUtf8(suffix) && ValidUtf8(marker)
    requires maxBytes > 3 * |marker|
    ensures ValidUtf8(CutSections(prefix, instructions, suffix, maxBytes, marker))
  {
    hide ValidUtf8;
    var retained := maxBytes - 3 * |marker|;
    var a, b := retained / 5, retained * 3 / 10;
    var c := SaturatingSub(SaturatingSub(SaturatingSub(retained, a), b), b);
    PrefixIsTight(prefix, a);
    PrefixIsTight(instructions, b);
    SuffixIsTight(instructions, b);
    SuffixIsTight(suffix, c);
    JoinIsValid(Prefix(prefix, a), Prefix(instructions, b), Suffix(instructions, b), Suffix(suffix, c), marker);
  }

  lemma SectionsAreValid(text: Text, maxBytes: nat)
    requires ValidUtf8(text)
    ensures ValidUtf8(TruncateInstructionSections(text, maxBytes))
  {
    hide ValidUtf8;
    AsciiIsValid(Marker());
    assert |Ascii(OPEN_TAG)| > 0 && |Ascii(CLOSE_TAG)| > 0;
    SectionsAreValidWith(text, maxBytes, Ascii(OPEN_TAG), Ascii(CLOSE_TAG), Marker());
  }

  lemma SectionsAreValidWith(text: Text, maxBytes: nat, openTag: Text, closeTag: Text, marker: Text)
    requires ValidUtf8(text) && ValidUtf8(marker) && openTag != [] && closeTag != []
    requires openTag[|openTag| - 1] <= 0x7F && closeTag[0] <= 0x7F
    ensures ValidUtf8(TruncateSectionsWith(text, maxBytes, openTag, closeTag, marker))
  {
    hide ValidUtf8;
    var cut := TruncateSectionsWith(text, maxBytes, openTag, closeTag, marker);
    var span := FindInstructions(text, openTag, closeTag);
    if span.None? || maxBytes <= 3 * |marker| + 16 {
      TruncateWithIsValid(text, maxBytes, false, marker);
      assert cut == TruncateWith(text, maxBytes, false, marker);
    } else {
      var from, to := span.value.from, span.value.to;
      OccurrenceEnds(text, openTag, from - |openTag|);
      OccurrenceEnds(text, closeTag, to);
      AsciiEndsACharacter(text, from);
      ThreePartsAreValid(text, from, to);
      CutSectionsAreValid(text[..from], text[from..to], text[to..], maxBytes, marker);
      assert cut == CutSections(text[..from], text[from..to], text[to..], maxBytes, marker);
    }
  }

  lemma OccurrenceEnds(t: Text, pattern: Text, at: nat)
    requires pattern != [] && OccursAt(t, pattern, at)
    ensures t[at] == pattern[0] && t[at + |pattern| - 1] == pattern[|pattern| - 1]
  {
    assert t[at] == t[at..at + |pattern|][0];
    assert t[at + |pattern| - 1] == t[at..at + |pattern|][|pattern| - 1];
  }

  lemma ThreePartsAreValid(text: Text, a: nat, b: nat)
    requires a <= b <= |text| && ValidUtf8(text) && IsCharBoundary(text, a) && IsCharBoundary(text, b)
    ensures ValidUtf8(text[..a]) && ValidUtf8(text[a..b]) && ValidUtf8(text[b..])
  {
    hide ValidUtf8;
    SplitAtBoundary(text, b);
    SplitAtBoundary(text[..b], a);
    assert text[..b][..a] == text[..a];
    assert text[..b][a..] == text[a..b];
  }

  // ----- what a cut keeps

  /** Which parts of the text are left, in terms of how much of the body either cut keeps. */
  lemma CutParts(text: Text, n: nat, maxBytes: nat, marker: Text, retained: nat, head: nat, tail: nat)
    requires n <= head <= |text| && n <= tail <= |text| && maxBytes == n + |marker| + retained
    requires head - n == |Prefix(text[n..], retained * 2 / 3)|
    requires |text| - tail == |Suffix(text[n..], retained - retained * 2 / 3)|
    ensures CutHeadTail(text[..n], text[n..], maxBytes, marker) == text[..head] + marker + text[tail..]
  {
    hide FloorBoundary, CeilBoundary, IsCharBoundary;
    var body := text[n..];
    assert SaturatingSub(SaturatingSub(maxBytes, |text[..n]|), |marker|) == retained;
    assert Prefix(body, retained * 2 / 3) == body[..head - n];
    assert Suffix(body, retained - retained * 2 / 3) == body[tail - n..];
    assert text[..n] + body[..head - n] == text[..head];
    assert body[tail - n..] == text[tail..];
  }

  /** How much either cut keeps, and that both cuts fall between characters. */
  lemma CutSizes(text: Text, n: nat, headBudget: nat, tailBudget: nat) returns (head: nat, tail: nat)
    requires n <= |text| && ValidUtf8(text[n..]) && IsCharBoundary(text, n)
    requires n + headBudget + tailBudget < |text|
    ensures n <= head <= tail <= |text| && IsCharBoundary(text, head) && IsCharBoundary(text, tail)
    ensures head - n == |Prefix(text[n..], headBudget)|
    ensures |text| - tail == |Suffix(text[n..], tailBudget)|
    ensures headBudget - 4 < head - n <= headBudget
    ensures tailBudget - 4 < |text| - tail <= tailBudget
  {
    hide ValidUtf8;
    var body := text[n..];
    PrefixIsTight(body, headBudget);
    SuffixIsTight(body, tailBudget);
    head := n + |Prefix(body, headBudget)|;
    tail := |text| - |Suffix(body, tailBudget)|;
    BoundaryInBody(text, n, head - n);
    BoundaryInBody(text, n, tail - n);
  }

  lemma BoundaryInBody(text: Text, n: nat, k: nat)
    requires n + k <= |text| && IsCharBoundary(text, n) && IsCharBoundary(text[n..], k)
    ensures IsCharBoundary(text, n + k)
  {
    assert k < |text[n..]| ==> text[n..][k] == text[n + k];
  }

  /**
   Where the limit leaves room for the marker, the result is a prefix of the text, the marker, and a
   suffix of the text. The two kept parts do not overlap, a fitting header is inside the prefix, and
   each cut falls less than 4 bytes short of its two thirds or one third of what is left.
   */
  lemma HeadTailShape(text: Text, maxBytes: nat, preserveHeader: bool) returns (head: nat, tail: nat)
    requires ValidUtf8(text) && |text| > maxBytes > |Marker()| + 8
    ensures head <= tail <= |text| && IsCharBoundary(text, head) && IsCharBoundary(text, tail)
    ensures TruncateHeadTail(text, maxBytes, preserveHeader) == text[..head] + Marker() + text[tail..]
    ensures var n := HeaderLength(text, maxBytes, preserveHeader, Marker());
      var retained := maxBytes - n - |Marker()|;
      && n <= head
      && retained * 2 / 3 - 4 < head - n <= retained * 2 / 3
      && retained - retained * 2 / 3 - 4 < |text| - tail <= retained - retained * 2 / 3
  {
    hide ValidUtf8, Prefix, Suffix, CutHeadTail, HeaderLength, Marker, IsCharBoundary;
    var n := HeaderLength(text, maxBytes, preserveHeader, Marker());
    HeaderIsValid(text, maxBytes, preserveHeader, Marker());
    var retained := maxBytes - n - |Marker()|;
    head, tail := CutSizes(text, n, retained * 2 / 3, retained - retained * 2 / 3);
    CutParts(text, n, maxBytes, Marker(), retained, head, tail);
  }

  /** Without room for the marker: text that fits is left alone, other text loses its end and nothing else. */
  lemma HeadTailWithoutMarker(text: Text, maxBytes: nat, preserveHeader: bool)
    requires ValidUtf8(text) && (|text| <= maxBytes || maxBytes <= |Marker()| + 8)
    ensures var r := TruncateHeadTail(text, maxBytes, preserveHeader);
      && r <= text && (r == text <==> |text| <= maxBytes)
      && (r != text ==> maxBytes - |r| < 4)
  {
    hide ValidUtf8;
    PrefixIsTight(text, maxBytes);
  }

  /**
   With instructions and room for three markers, what is kept is a prefix of the text, a prefix and a
   suffix of the instructions, and a suffix of the text, each the whole of its part or fewer than 4
   bytes short of its share. The two ends of short instructions may overlap.
   */
  lemma SectionsShape(text: Text, maxBytes: nat) returns (a: nat, b: nat, c: nat, d: nat)
    requires ValidUtf8(text) && maxBytes > 3 * |Marker()| + 16
    requires FindInstructions(text, Ascii(OPEN_TAG), Ascii(CLOSE_TAG)).Some?
    ensures var span := FindInstructions(text, Ascii(OPEN_TAG), Ascii(CLOSE_TAG)).value;
      var retained := maxBytes - 3 * |Marker()|;
      var end, inner := retained / 5, retained * 3 / 10;
      && a <= span.from <= b <= span.to && span.from <= c <= span.to <= d <= |text|
      && TruncateInstructionSections(text, maxBytes) ==
           text[..a] + Marker() + text[span.from..b] + Marker() + text[c..span.to] + Marker() + text[d..]
      && IsShare(a, span.from, end) && IsShare(b - span.from, span.to - span.from, inner)
      && IsShare(span.to - c, span.to - span.from, inner)
      && IsShare(|text| - d, |text| - span.to, retained - end - 2 * inner)
  {
    hide ValidUtf8, Marker, FindInstructions, CutSections, IsCharBoundary;
    var openTag, closeTag, marker := Ascii(OPEN_TAG), Ascii(CLOSE_TAG), Marker();
    var span := FindInstructions(text, openTag, closeTag).value;
    OccurrenceEnds(text, openTag, span.from - |openTag|);
    OccurrenceEnds(text, closeTag, span.to);
    AsciiEndsACharacter(text, span.from);
    assert IsCharBoundary(text, span.to) by { AsciiStartsACharacter(text, span.to); }
    ThreePartsAreValid(text, span.from, span.to);
    a, b, c, d := CutSectionsShape(text, span.from, span.to, maxBytes, marker);
  }

  lemma AsciiStartsACharacter(text: Text, k: nat)
    requires k < |text| && text[k] <= 0x7F
    ensures IsCharBoundary(text, k)
  {
  }

  lemma CutSectionsShape(text: Text, from: nat, to: nat, maxBytes: nat, marker: Text)
    returns (a: nat, b: nat, c: nat, d: nat)
    requires from <= to <= |text| && maxBytes > 3 * |marker|
    requires ValidUtf8(text[..from]) && ValidUtf8(text[from..to]) && ValidUtf8(text[to..])
    ensures var retained := maxBytes - 3 * |marker|;
      var end, inner := retained / 5, retained * 3 / 10;
      && a <= from <= b <= to && from <= c <= to <= d <= |text|
      && CutSections(text[..from], text[from..to], text[to..], maxBytes, marker) ==
           text[..a] + marker + text[from..b] + marker + text[c..to] + marker + text[d..]
      && IsShare(a, from, end) && IsShare(b - from, to - from, inner)
      && IsShare(to - c, to - from, inner) && IsShare(|text| - d, |text| - to, retained - end - 2 * inner)
  {
    hide ValidUtf8, Prefix, Suffix, IsShare;
    var retained := maxBytes - 3 * |marker|;
    var end, inner := retained / 5, retained * 3 / 10;
    assert text[0..from] == text[..from] && text[to..|text|] == text[to..];
    a := KeptPrefix(text, 0, from, end);
    b := KeptPrefix(text, from, to, inner);
    c := KeptSuffix(text, from, to, inner);
    d := KeptSuffix(text, to, |text|, retained - end - 2 * inner);
    assert text[0..a] == text[..a] && text[d..|text|] == text[d..];
  }

  /** All of a part, or as much of its share as character boundaries allow. */
  predicate IsShare(kept: nat, whole: nat, share: nat) {
    kept <= share && (kept == whole || share - kept < 4)
  }

  lemma KeptPrefix(text: Text, from: nat, to: nat, share: nat) returns (end: nat)
    requires from <= to <= |text| && ValidUtf8(text[from..to])
    ensures from <= end <= to && Prefix(text[from..to], share) == text[from..end]
    ensures IsShare(end - from, to - from, share)
  {
    hide ValidUtf8, FloorBoundary;
    PrefixIsTight(text[from..to], share);
    end := from + |Prefix(text[from..to], share)|;
  }

  lemma KeptSuffix(text: Text, from: nat, to: nat, share: nat) returns (start: nat)
    requires from <= to <= |text| && ValidUtf8(text[from..to])
    ensures from <= start <= to && Suffix(text[from..to], share) == text[start..to]
    ensures IsShare(to - start, to - from, share)
  {
    hide ValidUtf8, CeilBoundary;
    SuffixIsTight(text[from..to], share);
    start := to - |Suffix(text[from..to], share)|;
  }
}
