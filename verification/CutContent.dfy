/**
 What is left of a required item that was cut (src/core.rs:1965-2016, 2104-2188), said of the bytes of
 the text alone: which ends are kept, how much of each, and when the first line or both ends of the
 instructions survive.
 */
module CutContent {
  import opened Prelude
  import opened Utf8Text
  import opened Truncation
  import opened ContextItems

  /** `end` is where the first line ends, its line feed included. */
  ghost predicate FirstLineEnds(text: Text, end: nat) {
    0 < end <= |text| && text[end - 1] == 10 && 10 !in text[..end - 1]
  }

  /** Attachments, goals, plans, todos and work states, and bracketed text that no one in a dialogue wrote. */
  predicate KeepsFirstLine(item: ContextItem) {
    || "attachment_" <= item.kind || item.kind in ["goal", "plan", "todo", "work_state"]
    || (item.MetaStr("role") != Some("system") && item.MetaStr("role") != Some("user")
        && item.content != [] && item.content[0] == '[' as Byte)
  }

  predicate IsSystemText(item: ContextItem) {
    && item.MetaStr("role") == Some("system")
    && !("attachment_" <= item.kind) && item.kind !in ["goal", "plan", "todo", "work_state"]
  }

  /** A first line is kept exactly when it should be and leaves room for the marker and 8 bytes of body. */
  ghost predicate IsHeader(text: Text, maxBytes: nat, keepsFirstLine: bool, header: nat) {
    if header > 0 then keepsFirstLine && FirstLineEnds(text, header) && header + |Marker()| + 8 < maxBytes
    else keepsFirstLine ==> forall end: nat | FirstLineEnds(text, end) :: end + |Marker()| + 8 >= maxBytes
  }

  /** The header and two thirds of the room before the marker, one third behind it. */
  ghost predicate EndsKept(text: Text, maxBytes: nat, header: nat, content: Text) {
    var room := maxBytes - header - |Marker()|;
    exists head, tail | header <= head <= tail <= |text| ::
      && content == text[..head] + Marker() + text[tail..]
      && room * 2 / 3 - 4 < head - header <= room * 2 / 3
      && room - room * 2 / 3 - 4 < |text| - tail <= room - room * 2 / 3
  }

  /** The instructions lie between the first opening tag and the first closing tag behind it. */
  ghost predicate AreInstructions(text: Text, from: nat, to: nat) {
    var open, close := Ascii("<instructions>"), Ascii("</instructions>");
    && |open| <= from <= to && OccursAt(text, open, from - |open|) && OccursAt(text, close, to)
    && (forall i: nat | i < from - |open| :: !OccursAt(text, open, i))
    && forall i | from <= i < to :: !OccursAt(text, close, i)
  }

  ghost predicate HasInstructions(text: Text) {
    var open, close := Ascii("<instructions>"), Ascii("</instructions>");
    exists i: nat, j: nat | i + |open| <= j :: OccursAt(text, open, i) && OccursAt(text, close, j)
  }

  /** A fifth of the room for the start, three tenths for either end of the instructions, the rest for the end. */
  ghost predicate SectionsKept(text: Text, maxBytes: nat, content: Text)
    requires maxBytes >= 3 * |Marker()|
  {
    var room := maxBytes - 3 * |Marker()|;
    exists from: nat, to: nat, a: nat, b, c, d
      | AreInstructions(text, from, to) && a <= from <= b <= to <= d <= |text| && from <= c <= to ::
      && content == text[..a] + Marker() + text[from..b] + Marker() + text[c..to] + Marker() + text[d..]
      && IsShare(a, from, room / 5) && IsShare(b - from, to - from, room * 3 / 10)
      && IsShare(to - c, to - from, room * 3 / 10)
      && IsShare(|text| - d, |text| - to, room - room / 5 - 2 * (room * 3 / 10))
  }

  /** What the item holds once it is cut to `maxBytes`. */
  ghost predicate IsCut(item: ContextItem, maxBytes: nat, content: Text) {
    var text := item.content;
    if maxBytes <= |Marker()| + 8 then content <= text && maxBytes - 4 < |content| <= maxBytes
    else if IsSystemText(item) && HasInstructions(text) && maxBytes > 3 * |Marker()| + 16
      then SectionsKept(text, maxBytes, content)
    else exists header: nat :: IsHeader(text, maxBytes, KeepsFirstLine(item), header)
                               && EndsKept(text, maxBytes, header, content)
  }

  // ----- why

  lemma HeaderIsFirstLine(text: Text, maxBytes: nat, keepsFirstLine: bool)
    ensures IsHeader(text, maxBytes, keepsFirstLine, HeaderLength(text, maxBytes, keepsFirstLine, Marker()))
  {
    hide Marker;
    var newline := Find(text, NEWLINE);
    if newline < |text| {
      assert FirstLineEnds(text, newline + 1);
    }
    forall end: nat | FirstLineEnds(text, end) ensures end == newline + 1 {
      OneFirstLine(text, newline, end);
    }
  }

  lemma OneFirstLine(text: Text, newline: nat, end: nat)
    requires FirstLineEnds(text, end) && newline <= |text| && 10 !in text[..newline]
    requires newline < |text| ==> text[newline] == 10
    ensures end == newline + 1
  {
  }

  lemma HeadTailKeeps(text: Text, maxBytes: nat, keepsFirstLine: bool)
    requires ValidUtf8(text) && |text| > maxBytes > |Marker()| + 8
    ensures exists header: nat :: IsHeader(text, maxBytes, keepsFirstLine, header)
              && EndsKept(text, maxBytes, header, TruncateHeadTail(text, maxBytes, keepsFirstLine))
  {
    hide ValidUtf8, Marker, HeaderLength, TruncateHeadTail, IsHeader;
    var head, tail := HeadTailShape(text, maxBytes, keepsFirstLine);
    HeaderIsFirstLine(text, maxBytes, keepsFirstLine);
    var header := HeaderLength(text, maxBytes, keepsFirstLine, Marker());
    assert EndsKept(text, maxBytes, header, TruncateHeadTail(text, maxBytes, keepsFirstLine));
  }

  lemma InstructionsAreFound(text: Text)
    ensures var span := FindInstructions(text, Ascii(OPEN_TAG), Ascii(CLOSE_TAG));
      && (span.Some? <==> HasInstructions(text))
      && (span.Some? ==> AreInstructions(text, span.value.from, span.value.to))
  {
    hide Ascii, OccursAt;
    var open, close := Ascii(OPEN_TAG), Ascii(CLOSE_TAG);
    var span := FindInstructions(text, open, close);
    if span.Some? {
      var i: nat := span.value.from - |open|;
      assert i + |open| <= span.value.to && OccursAt(text, open, i) && OccursAt(text, close, span.value.to);
      TagsAt(text, i, span.value.to);
    } else if HasInstructions(text) {
      var i: nat, j: nat :| i + |open| <= j && OccursAt(text, open, i) && OccursAt(text, close, j);
      OccursInside(text, open, i);
      OccursInside(text, close, j);
      assert false;
    }
  }

  lemma TagsAt(text: Text, i: nat, j: nat)
    requires i + |OPEN_TAG| <= j && OccursAt(text, Ascii(OPEN_TAG), i) && OccursAt(text, Ascii(CLOSE_TAG), j)
    ensures HasInstructions(text)
  {
    hide Ascii, OccursAt;
    assert OccursAt(text, Ascii("<instructions>"), i) && OccursAt(text, Ascii("</instructions>"), j);
  }

  lemma OccursInside(text: Text, pattern: Text, at: nat)
    requires OccursAt(text, pattern, at)
    ensures at <= |text|
  {
  }

  lemma SystemTextKeeps(text: Text, maxBytes: nat)
    requires ValidUtf8(text) && |text| > maxBytes > 3 * |Marker()| + 16 && HasInstructions(text)
    ensures SectionsKept(text, maxBytes, TruncateInstructionSections(text, maxBytes))
  {
    hide *;
    InstructionsAreFound(text);
    var a, b, c, d := SectionsShape(text, maxBytes);
    var span := FindInstructions(text, Ascii(OPEN_TAG), Ascii(CLOSE_TAG)).value;
    AreSections(text, maxBytes, TruncateInstructionSections(text, maxBytes), span.from, span.to, a, b, c, d);
  }

  lemma AreSections(text: Text, maxBytes: nat, content: Text, from: nat, to: nat, a: nat, b: nat, c: nat, d: nat)
    requires maxBytes >= 3 * |Marker()| && AreInstructions(text, from, to)
    requires a <= from <= b <= to <= d <= |text| && from <= c <= to
    requires content == text[..a] + Marker() + text[from..b] + Marker() + text[c..to] + Marker() + text[d..]
    requires var room := maxBytes - 3 * |Marker()|;
      && IsShare(a, from, room / 5) && IsShare(b - from, to - from, room * 3 / 10)
      && IsShare(to - c, to - from, room * 3 / 10)
      && IsShare(|text| - d, |text| - to, room - room / 5 - 2 * (room * 3 / 10))
    ensures SectionsKept(text, maxBytes, content)
  {
    hide Marker, AreInstructions, IsShare;
  }

  lemma NoSections(text: Text, maxBytes: nat)
    requires FindInstructions(text, Ascii(OPEN_TAG), Ascii(CLOSE_TAG)).None? || maxBytes <= 3 * |Marker()| + 16
    ensures TruncateInstructionSections(text, maxBytes) == TruncateHeadTail(text, maxBytes, false)
  {
    hide FindInstructions, TruncateWith;
  }

  /** Which of the two cuts an item gets, and whether its first line is to be kept. */
  lemma StrategyOf(item: ContextItem)
    ensures (TruncationStrategy(item).0 == "instruction_sections_head_tail") <==> IsSystemText(item)
    ensures TruncationStrategy(item).1 == KeepsFirstLine(item)
  {
    assert |"attachment_header_head_tail"| == 27 && |"todo_header_head_tail"| == 21;
    assert |"work_state_sections_head_tail"| == 29 && |"instruction_sections_head_tail"| == 30;
    assert |"latest_user_head_tail"| == 21 && |"head_tail"| == 9;
    assert HasPrefix(item.kind, "attachment_") <==> "attachment_" <= item.kind;
  }

  /** A cut item keeps what its kind is to keep, and as much of it as its limit allows. */
  lemma CutKeeps(b: Builder, item: ContextItem, maxBytes: nat)
    requires ValidUtf8(item.content) && |item.content| > maxBytes
    ensures IsCut(item, maxBytes, TruncateRequired(b, item, maxBytes).content)
  {
    hide ValidUtf8, Marker, TruncationStrategy, TruncateHeadTail, TruncateInstructionSections, EstimateItem;
    hide HasInstructions, SectionsKept, EndsKept, IsHeader, IsSystemText, KeepsFirstLine;
    var text := item.content;
    StrategyOf(item);
    if maxBytes <= |Marker()| + 8 {
      HeadTailWithoutMarker(text, maxBytes, TruncationStrategy(item).1);
      HeadTailWithoutMarker(text, maxBytes, false);
      NoSections(text, maxBytes);
    } else {
      HeadTailKeeps(text, maxBytes, KeepsFirstLine(item));
      if IsSystemText(item) {
        SystemTextHasNoHeader(item);
        if HasInstructions(text) && maxBytes > 3 * |Marker()| + 16 {
          SystemTextKeeps(text, maxBytes);
        } else {
          InstructionsAreFound(text);
          NoSections(text, maxBytes);
        }
      }
    }
  }

  lemma SystemTextHasNoHeader(item: ContextItem)
    requires IsSystemText(item)
    ensures !KeepsFirstLine(item)
  {
  }

  // ----- the sorts of required items

  /** The ten sorts of items, in the order in which they give way. */
  datatype Category =
    | Checkpoint | Attachment | Todo | Goal | Plan | Surroundings | OtherText | WorkState | SystemText | UserText

  function CategoryOf(item: ContextItem): Category {
    if "attachment_" <= item.kind then Attachment
    else
      match item.kind
      case "checkpoint" => Checkpoint
      case "todo" => Todo
      case "goal" => Goal
      case "plan" => Plan
      case "runtime" => Surroundings
      case "sandbox" => Surroundings
      case "work_state" => WorkState
      case _ =>
        match item.MetaStr("role")
        case Some("system") => SystemText
        case Some("user") => UserText
        case _ => OtherText
  }

  /** Their places in that order, the sizes below which the first pass does not cut them, and their strategies. */
  function PlaceOf(category: Category): nat {
    match category
    case Checkpoint => 0
    case Attachment => 1
    case Todo => 2
    case Goal => 3
    case Plan => 4
    case Surroundings => 5
    case OtherText => 6
    case WorkState => 7
    case SystemText => 8
    case UserText => 9
  }

  function SoftFloor(category: Category): nat {
    match category
    case Checkpoint => 128
    case Attachment => 320
    case Todo => 256
    case Goal => 256
    case Plan => 256
    case Surroundings => 256
    case OtherText => 256
    case WorkState => 512
    case SystemText => 768
    case UserText => 640
  }

  /** Items give way in the order of their sorts, and each sort has its own soft minimum. */
  lemma CategoriesDecide(x: ContextItem, y: ContextItem)
    ensures TruncationOrder(x) < TruncationOrder(y) <==> PlaceOf(CategoryOf(x)) < PlaceOf(CategoryOf(y))
    ensures MinimumBytes(x) == SoftFloor(CategoryOf(x))
  {
    CategoryFacts(x);
    CategoryFacts(y);
  }

  lemma CategoryFacts(item: ContextItem)
    ensures MinimumBytes(item) == SoftFloor(CategoryOf(item))
    ensures TruncationOrder(item) == [0, 10, 20, 25, 27, 30, 35, 40, 50, 60][PlaceOf(CategoryOf(item))]
  {
    assert HasPrefix(item.kind, "attachment_") <==> "attachment_" <= item.kind;
    assert "attachment_" <= item.kind ==> item.kind[0] == 'a';
  }
}
