/**
 A JSON reader after the grammar of RFC 8259, written independently of the printer, and the proof
 that it undoes the printer on every value.
 */
module JsonParser {
  import opened Prelude
  import opened Json
  import opened JsonCanonical

  datatype Parsed<+T> = Fail | Done(value: T, rest: string)

  /** Insignificant whitespace, section 2 of RFC 8259. */
  predicate IsWhitespace(c: char) {
    c == ' ' || c == '\t' || c == '\n' || c == '\r'
  }

  function SkipWs(s: string): (r: string)
    ensures |r| <= |s| && (r != [] ==> !IsWhitespace(r[0]))
  {
    if s != [] && IsWhitespace(s[0]) then SkipWs(s[1..]) else s
  }

  predicate StartsWith(s: string, prefix: string) {
    |prefix| <= |s| && s[..|prefix|] == prefix
  }

  function ParseValue(input: string): (r: Parsed<Value>)
    ensures r.Done? ==> |r.rest| < |input|
    decreases |input|, 1
  {
    var s := SkipWs(input);
    if s == [] then Fail
    else if s[0] == '"' then
      var text := ParseString(s[1..]);
      if text.Fail? then Fail else Done(Str(text.value), text.rest)
    else if s[0] == '[' then
      var t := SkipWs(s[1..]);
      if t != [] && t[0] == ']' then Done(Arr([]), t[1..])
      else
        var items := ParseItems(t);
        if items.Fail? then Fail else Done(Arr(items.value), items.rest)
    else if s[0] == '{' then
      var t := SkipWs(s[1..]);
      if t != [] && t[0] == '}' then Done(Obj([]), t[1..])
      else
        var fields := ParseFields(t);
        if fields.Fail? then Fail else Done(Obj(fields.value), fields.rest)
    else if IsDigit(s[0]) || s[0] == '-' then
      var n := NumberSpan(s);
      if IsNumber(s[..n]) then Done(Number(ReadNumber(s[..n])), s[n..]) else Fail
    else if StartsWith(s, "null") then Done(Null, s[4..])
    else if StartsWith(s, "true") then Done(Bool(true), s[4..])
    else if StartsWith(s, "false") then Done(Bool(false), s[5..])
    else Fail
  }

  /** One or more values separated by commas, up to the closing bracket. */
  function ParseItems(input: string): (r: Parsed<seq<Value>>)
    ensures r.Done? ==> |r.rest| < |input|
    decreases |input|, 2
  {
    var first := ParseValue(input);
    if first.Fail? then Fail
    else
      var s := SkipWs(first.rest);
      if s != [] && s[0] == ']' then Done([first.value], s[1..])
      else if s != [] && s[0] == ',' then
        var others := ParseItems(s[1..]);
        if others.Fail? then Fail else Done([first.value] + others.value, others.rest)
      else Fail
  }

  /** One or more members separated by commas, up to the closing brace. */
  function ParseFields(input: string): (r: Parsed<seq<Field>>)
    ensures r.Done? ==> |r.rest| < |input|
    decreases |input|, 2
  {
    var first := ParseField(input);
    if first.Fail? then Fail
    else
      var s := SkipWs(first.rest);
      if s != [] && s[0] == '}' then Done([first.value], s[1..])
      else if s != [] && s[0] == ',' then
        var others := ParseFields(s[1..]);
        if others.Fail? then Fail else Done([first.value] + others.value, others.rest)
      else Fail
  }

  function ParseField(input: string): (r: Parsed<Field>)
    ensures r.Done? ==> |r.rest| < |input|
    decreases |input|, 1
  {
    var s := SkipWs(input);
    if s == [] || s[0] != '"' then Fail
    else
      var key := ParseString(s[1..]);
      if key.Fail? then Fail
      else
        var t := SkipWs(key.rest);
        if t == [] || t[0] != ':' then Fail
        else
          var value := ParseValue(t[1..]);
          if value.Fail? then Fail else Done(Field(key.value, value.value), value.rest)
  }

  /** The characters of a string up to its closing quote, section 7 of RFC 8259. */
  function ParseString(s: string): (r: Parsed<string>)
    ensures r.Done? ==> |r.rest| < |s|
  {
    if s == [] then Fail
    else if s[0] == '"' then Done("", s[1..])
    else if s[0] == '\\' then
      var c := ParseEscape(s[1..]);
      if c.Fail? then Fail else Prepend(c.value, ParseString(c.rest))
    else if s[0] < '\U{20}' then Fail
    else Prepend(s[0], ParseString(s[1..]))
  }

  function Prepend(c: char, r: Parsed<string>): Parsed<string> {
    if r.Fail? then Fail else Done([c] + r.value, r.rest)
  }

  /**
   What a backslash is followed by: a short escape, or `u` and four hexadecimal digits, and these again
   for a character of two surrogate halves. A lone half denotes no character (section 8.2) and is refused.
   */
  function ParseEscape(s: string): (r: Parsed<char>)
    ensures r.Done? ==> |r.rest| < |s|
  {
    if s == [] then Fail
    else if s[0] != 'u' then if ShortEscape(s[0]).None? then Fail else Done(ShortEscape(s[0]).value, s[1..])
    else
      var unit := ParseUnit(s[1..]);
      if unit.Fail? then Fail
      else if unit.value < 0xD800 || 0xE000 <= unit.value then Done(unit.value as char, unit.rest)
      else if 0xDC00 <= unit.value || !StartsWith(unit.rest, "\\u") then Fail
      else
        var low := ParseUnit(unit.rest[2..]);
        if low.Fail? || low.value < 0xDC00 || 0xE000 <= low.value then Fail
        else Done((0x1_0000 + (unit.value - 0xD800) * 0x400 + (low.value - 0xDC00)) as char, low.rest)
  }

  /** Four hexadecimal digits. */
  function ParseUnit(s: string): (r: Parsed<nat>)
    ensures r.Done? ==> r.value < 0x1_0000 && |r.rest| < |s|
  {
    if |s| < 4 || HexDigit(s[0]).None? || HexDigit(s[1]).None? || HexDigit(s[2]).None? || HexDigit(s[3]).None?
    then Fail
    else Done(HexDigit(s[0]).value * 0x1000 + HexDigit(s[1]).value * 0x100
                + HexDigit(s[2]).value * 0x10 + HexDigit(s[3]).value, s[4..])
  }

  function ShortEscape(c: char): Option<char> {
    if c == '"' || c == '\\' || c == '/' then Some(c)
    else if c == 'b' then Some('\U{8}')
    else if c == 't' then Some('\U{9}')
    else if c == 'n' then Some('\U{A}')
    else if c == 'f' then Some('\U{C}')
    else if c == 'r' then Some('\U{D}')
    else None
  }

  function HexDigit(c: char): (digit: Option<nat>)
    ensures digit.Some? ==> digit.value < 16
  {
    if IsDigit(c) then Some(c as nat - '0' as nat)
    else if 'a' <= c <= 'f' then Some(c as nat - 'a' as nat + 10)
    else if 'A' <= c <= 'F' then Some(c as nat - 'A' as nat + 10)
    else None
  }

  /** How far a number token can reach: nothing that may follow one is a number character. */
  function NumberSpan(s: string): (n: nat)
    ensures n <= |s|
    ensures s != [] && IsNumberChar(s[0]) ==> n > 0
  {
    if s != [] && IsNumberChar(s[0]) then 1 + NumberSpan(s[1..]) else 0
  }

  /** The value of a number token; without fraction and exponent it is an integer. */
  function ReadNumber(s: string): Num
    requires IsNumber(s)
  {
    var t := Unsigned(s);
    if DigitSpan(t) < |t| then Float(s) else Int(if t == s then ReadDecimal(t) else 0 - ReadDecimal(t))
  }

  function ReadDecimal(s: string): nat
    requires forall i | 0 <= i < |s| :: IsDigit(s[i])
  {
    if s == [] then 0
    else
      assert IsDigit(s[|s| - 1]);
      10 * ReadDecimal(s[..|s| - 1]) + (s[|s| - 1] as nat - '0' as nat)
  }

  // ----- round trip, from the leaves up

  lemma {:induction false} ReadUndoesDecimal(n: nat)
    ensures ReadDecimal(Decimal(n)) == n
  {
    var s := Decimal(n);
    if n >= 10 {
      ReadUndoesDecimal(n / 10);
      assert s[..|s| - 1] == Decimal(n / 10);
      assert ReadDecimal(s) == 10 * (n / 10) + n % 10;
    } else {
      assert s[..0] == [];
    }
  }

  lemma ReadUndoesNumberText(n: Num)
    ensures ReadNumber(NumberText(n)) == n
  {
    match n
    case Int(i) =>
      var digits := Decimal(if i < 0 then -i else i);
      IntegerIsNumber(digits);
      ReadUndoesDecimal(if i < 0 then -i else i);
      assert "-" + digits != digits;
    case Float(_) =>
  }

  /** What follows a value must not extend it: only a number could be extended. */
  predicate Ends(rest: string) {
    rest == [] || !IsNumberChar(rest[0])
  }

  lemma {:induction false} NumberSpanStops(s: string, rest: string)
    requires Ends(rest) && forall i | 0 <= i < |s| :: IsNumberChar(s[i])
    ensures NumberSpan(s + rest) == |s|
  {
    if s == [] {
      assert s + rest == rest;
    } else {
      assert (s + rest)[1..] == s[1..] + rest;
      NumberSpanStops(s[1..], rest);
    }
  }

  lemma Regroup(a: string, b: string, c: string, d: string, e: string)
    ensures (a + b + c) + d + e == a + (b + (c + d + e))
  {
  }

  /** The printer escapes only what it must, in the short form where there is one, else by four lower-case digits. */
  lemma EscapeForms(c: char)
    ensures |Escape(c)| == 2 <==> c in "\"\\\r\n\t" || c == '\U{8}' || c == '\U{C}'
    ensures |Escape(c)| == 1 <==> c >= '\U{20}' && c != '"' && c != '\\'
    ensures |Escape(c)| == 6 ==> Escape(c)[..4] == "\\u00" && forall i | 4 <= i < 6 :: !('A' <= Escape(c)[i] <= 'F')
    ensures var e := Escape(c);
      || (e == [c] && c != '"' && c != '\\' && c >= '\U{20}')
      || (|e| == 2 && e[0] == '\\' && e[1] != 'u' && ShortEscape(e[1]) == Some(c))
      || (|e| == 6 && e[0] == '\\' && c < '\U{20}')
  {
  }

  lemma EscapeIsRead(c: char, rest: string)
    ensures ParseString(Escape(c) + rest) == Prepend(c, ParseString(rest))
  {
    var e := Escape(c);
    var s := e + rest;
    EscapeForms(c);
    hide Escape;
    assert s[0] == e[0] && s[1..] == e[1..] + rest;
    if |e| == 1 {
      assert s[1..] == rest;
    } else {
      assert ParseEscape(s[1..]) == Done(c, rest) by {
        if |e| == 2 {
          assert s[1..][0] == e[1] && s[1..][1..] == rest;
        } else {
          ControlCodeIsRead(c, rest);
        }
      }
      hide ParseEscape;
    }
  }

  lemma ControlCodeIsRead(c: char, rest: string)
    requires c < '\U{20}' && |Escape(c)| == 6
    ensures ParseEscape(Escape(c)[1..] + rest) == Done(c, rest)
  {
    var code := c as nat;
    var s := Escape(c)[1..] + rest;
    var hex := s[1..];
    assert s == "u00" + [DigitChar(code / 16), DigitChar(code % 16)] + rest;
    assert hex[0] == hex[1] == '0' && hex[4..] == rest;
    assert HexDigit(hex[2]) == Some(code / 16);
    assert HexDigit(hex[3]) == Some(code % 16);
    assert code == code / 16 * 16 + code % 16;
  }

  lemma EscapedTextSplits(s: string, rest: string)
    requires s != []
    ensures EscapeAll(s) + "\"" + rest == Escape(s[0]) + (EscapeAll(s[1..]) + "\"" + rest)
  {
    hide Escape;
    assert EscapeAll(s) == Escape(s[0]) + EscapeAll(s[1..]);
    hide EscapeAll;
    Shift(Escape(s[0]), EscapeAll(s[1..]), "\"", rest);
  }

  lemma Shift(a: string, b: string, c: string, d: string)
    ensures a + b + c + d == a + (b + c + d)
  {
  }

  lemma {:induction false} QuoteIsRead(s: string, rest: string)
    ensures ParseString(EscapeAll(s) + "\"" + rest) == Done(s, rest)
  {
    if s == [] {
      var tail := "\"" + rest;
      assert EscapeAll(s) + "\"" + rest == tail;
      assert tail[1..] == rest;
    } else {
      QuoteIsRead(s[1..], rest);
      EscapedTextSplits(s, rest);
      EscapeIsRead(s[0], EscapeAll(s[1..]) + "\"" + rest);
      assert s == [s[0]] + s[1..];
    }
  }

  lemma LeadingSpaceIsSkipped(s: string)
    ensures ParseValue(" " + s) == ParseValue(s)
  {
    assert (" " + s)[1..] == s;
  }

  // One reading step at a time, over arbitrary text.

  lemma StringStep(s: string, text: string, rest: string)
    requires s != [] && s[0] == '"' && ParseString(s[1..]) == Done(text, rest)
    ensures ParseValue(s) == Done(Str(text), rest)
  {
  }

  lemma NumberIsSpanned(s: string, text: string, rest: string)
    requires IsNumber(text) && s == text + rest && Ends(rest)
    ensures s != [] && (IsDigit(s[0]) || s[0] == '-') && NumberSpan(s) == |text|
    ensures s[..|text|] == text && s[|text|..] == rest
  {
    NumberChars(text);
    hide IsNumber, NumberSpan;
    NumberSpanStops(text, rest);
    assert s[0] == text[0];
  }

  lemma NumberStep(s: string, text: string, n: Num, rest: string)
    requires IsNumber(text) && s == text + rest && ReadNumber(text) == n && Ends(rest)
    ensures ParseValue(s) == Done(Number(n), rest)
  {
    hide IsNumber, ReadNumber, NumberSpan, StartsWith, Ends;
    NumberIsSpanned(s, text, rest);
    assert SkipWs(s) == s;
  }

  lemma ArrayStep(s: string, items: seq<Value>, rest: string)
    requires |s| > 1 && s[0] == '[' && SkipWs(s[1..]) == s[1..] && s[1] != ']'
    requires ParseItems(s[1..]) == Done(items, rest)
    ensures ParseValue(s) == Done(Arr(items), rest)
  {
  }

  lemma ObjectStep(s: string, fields: seq<Field>, rest: string)
    requires |s| > 1 && s[0] == '{' && SkipWs(s[1..]) == s[1..] && s[1] != '}'
    requires ParseFields(s[1..]) == Done(fields, rest)
    ensures ParseValue(s) == Done(Obj(fields), rest)
  {
  }

  lemma EmptyStep(s: string)
    requires |s| > 1
    ensures s[0] == '[' && s[1] == ']' ==> ParseValue(s) == Done(Arr([]), s[2..])
    ensures s[0] == '{' && s[1] == '}' ==> ParseValue(s) == Done(Obj([]), s[2..])
  {
    assert s[1..][1..] == s[2..];
  }

  lemma WordStep(s: string, word: string, rest: string)
    requires s == word + rest
    ensures word == "null" ==> ParseValue(s) == Done(Null, rest)
    ensures word == "true" ==> ParseValue(s) == Done(Bool(true), rest)
    ensures word == "false" ==> ParseValue(s) == Done(Bool(false), rest)
  {
    assert s[..|word|] == word && s[|word|..] == rest;
    if word == "null" {
      assert s[0] == 'n';
    } else if word == "true" {
      assert s[0] == 't' && !StartsWith(s, "null");
    } else if word == "false" {
      assert s[0] == 'f' && !StartsWith(s, "null") && !StartsWith(s, "true");
    }
  }

  lemma StringIsRead(text: string, rest: string)
    ensures ParseValue(Quote(text) + rest) == Done(Str(text), rest)
  {
    var body := EscapeAll(text) + "\"" + rest;
    QuoteIsRead(text, rest);
    var s := "\"" + body;
    assert s[1..] == body;
    StringStep(s, text, rest);
    assert Quote(text) + rest == s;
  }

  lemma ScalarIsRead(v: Value, rest: string)
    requires !v.Arr? && !v.Obj? && Ends(rest)
    ensures ParseValue(ScalarText(v) + rest) == Done(v, rest)
  {
    if v.Number? {
      ReadUndoesNumberText(v.number);
      NumberStep(ScalarText(v) + rest, NumberText(v.number), v.number, rest);
    } else if v.Str? {
      StringIsRead(v.text, rest);
    } else {
      WordStep(ScalarText(v) + rest, ScalarText(v), rest);
    }
  }

  lemma PrintStartsAValue(v: Value)
    ensures Print(v) != [] && !IsWhitespace(Print(v)[0]) && Print(v)[0] != ']'
  {
  }

  lemma {:induction false} PrintIsRead(v: Value, rest: string)
    requires Ends(rest)
    ensures ParseValue(Print(v) + rest) == Done(v, rest)
    decreases v, 1
  {
    if v.Arr? {
      ArrayIsRead(v.items, rest);
    } else if v.Obj? {
      ObjectIsRead(v.fields, rest);
    } else {
      ScalarIsRead(v, rest);
    }
  }

  lemma {:induction false} ArrayIsRead(items: seq<Value>, rest: string)
    ensures ParseValue("[" + PrintItems(items) + "]" + rest) == Done(Arr(items), rest)
    decreases items, 2
  {
    var s := "[" + PrintItems(items) + "]" + rest;
    var t := PrintItems(items) + "]" + rest;
    assert s == "[" + t;
    assert s[0] == '[' && s[1..] == t;
    if items == [] {
      assert t == "]" + rest && s[2..] == rest;
      EmptyStep(s);
    } else {
      ItemsAreRead(items, rest);
      ItemsStartAValue(items, rest);
      ArrayStep(s, items, rest);
    }
  }

  lemma {:induction false} ObjectIsRead(fields: seq<Field>, rest: string)
    ensures ParseValue("{" + PrintFields(fields) + "}" + rest) == Done(Obj(fields), rest)
    decreases fields, 2
  {
    var s := "{" + PrintFields(fields) + "}" + rest;
    var t := PrintFields(fields) + "}" + rest;
    assert s == "{" + t;
    assert s[0] == '{' && s[1..] == t;
    if fields == [] {
      assert t == "}" + rest && s[2..] == rest;
      EmptyStep(s);
    } else {
      FieldsAreRead(fields, rest);
      FieldsStartWithAQuote(fields);
      assert t[0] == '"';
      ObjectStep(s, fields, rest);
    }
  }

  lemma LastItemStep(s: string, first: Value, rest: string)
    requires ParseValue(s) == Done(first, "]" + rest)
    ensures ParseItems(s) == Done([first], rest)
  {
    assert ("]" + rest)[1..] == rest;
  }

  lemma MoreItemsStep(s: string, first: Value, tail: string, others: seq<Value>, rest: string)
    requires ParseValue(s) == Done(first, ", " + tail)
    requires ParseItems(tail) == Done(others, rest)
    ensures ParseItems(s) == Done([first] + others, rest)
  {
    LeadingSpaceIsSkipped(tail);
    assert ParseItems(" " + tail) == ParseItems(tail);
    assert (", " + tail)[1..] == " " + tail;
  }

  lemma ItemsStartAValue(items: seq<Value>, rest: string)
    requires items != []
    ensures var s := PrintItems(items) + "]" + rest; s[0] != ']' && SkipWs(s) == s
  {
    PrintStartsAValue(items[0]);
    hide Print;
    assert PrintItems(items) != [] && PrintItems(items)[0] == Print(items[0])[0];
  }

  lemma {:induction false} ItemsAreRead(items: seq<Value>, rest: string)
    requires items != []
    ensures ParseItems(PrintItems(items) + "]" + rest) == Done(items, rest)
    decreases items, 1
  {
    hide ParseItems, ParseValue, Print;
    if |items| == 1 {
      var s := PrintItems(items) + "]" + rest;
      PrintIsRead(items[0], "]" + rest);
      assert s == Print(items[0]) + ("]" + rest);
      LastItemStep(s, items[0], rest);
      assert items == [items[0]];
    } else {
      ItemsAreRead(items[1..], rest);
      FollowedItemsAreRead(items, rest);
    }
  }

  lemma {:induction false} FollowedItemsAreRead(items: seq<Value>, rest: string)
    requires |items| > 1
    requires ParseItems(PrintItems(items[1..]) + "]" + rest) == Done(items[1..], rest)
    ensures ParseItems(PrintItems(items) + "]" + rest) == Done(items, rest)
    decreases items, 0
  {
    var first := Print(items[0]);
    var tail := PrintItems(items[1..]) + "]" + rest;
    PrintIsRead(items[0], ", " + tail);
    Regroup(first, ", ", PrintItems(items[1..]), "]", rest);
    assert PrintItems(items) == first + ", " + PrintItems(items[1..]);
    MoreItemsStep(first + (", " + tail), items[0], tail, items[1..], rest);
    assert items == [items[0]] + items[1..];
  }

  lemma FieldStep(s: string, field: Field, tail: string, after: string)
    requires s != [] && s[0] == '"' && ParseString(s[1..]) == Done(field.key, ": " + tail)
    requires ParseValue(tail) == Done(field.value, after)
    ensures ParseField(s) == Done(field, after)
  {
    LeadingSpaceIsSkipped(tail);
    assert (": " + tail)[1..] == " " + tail;
  }

  lemma {:induction false} FieldIsRead(field: Field, after: string)
    requires Ends(after)
    ensures ParseField(Quote(field.key) + ": " + Print(field.value) + after) == Done(field, after)
    decreases field, 2
  {
    var tail := Print(field.value) + after;
    PrintIsRead(field.value, after);
    NamedValueIsRead(field, tail, after);
    Regroup(Quote(field.key), ": ", Print(field.value), after, "");
    assert (Quote(field.key) + ": " + Print(field.value)) + after + ""
        == Quote(field.key) + ": " + Print(field.value) + after;
    assert Print(field.value) + after + "" == tail;
  }

  lemma NamedValueIsRead(field: Field, tail: string, after: string)
    requires ParseValue(tail) == Done(field.value, after)
    ensures ParseField(Quote(field.key) + (": " + tail)) == Done(field, after)
  {
    var s := Quote(field.key) + (": " + tail);
    var body := EscapeAll(field.key) + "\"" + (": " + tail);
    assert s == "\"" + body;
    assert s[1..] == body;
    QuoteIsRead(field.key, ": " + tail);
    FieldStep(s, field, tail, after);
  }

  lemma LastFieldStep(s: string, first: Field, rest: string)
    requires ParseField(s) == Done(first, "}" + rest)
    ensures ParseFields(s) == Done([first], rest)
  {
    assert ("}" + rest)[1..] == rest;
  }

  lemma LeadingSpaceBeforeAField(s: string)
    ensures ParseField(" " + s) == ParseField(s)
  {
    assert (" " + s)[1..] == s;
  }

  lemma LeadingSpaceBeforeFields(s: string)
    ensures ParseFields(" " + s) == ParseFields(s)
  {
    LeadingSpaceBeforeAField(s);
  }

  lemma MoreFieldsStep(s: string, first: Field, tail: string, others: seq<Field>, rest: string)
    requires ParseField(s) == Done(first, ", " + tail)
    requires ParseFields(tail) == Done(others, rest)
    ensures ParseFields(s) == Done([first] + others, rest)
  {
    LeadingSpaceBeforeFields(tail);
    var after := ", " + tail;
    assert SkipWs(after) == after && after[0] == ',' && after[1..] == " " + tail;
  }

  lemma FieldsStartWithAQuote(fields: seq<Field>)
    requires fields != []
    ensures PrintFields(fields) != [] && PrintFields(fields)[0] == '"'
  {
    assert Quote(fields[0].key)[0] == '"';
  }

  lemma {:induction false} FieldsAreRead(fields: seq<Field>, rest: string)
    requires fields != []
    ensures ParseFields(PrintFields(fields) + "}" + rest) == Done(fields, rest)
    decreases fields, 1
  {
    if |fields| == 1 {
      var s := PrintFields(fields) + "}" + rest;
      FieldIsRead(fields[0], "}" + rest);
      assert s == PrintFields(fields) + ("}" + rest);
      LastFieldStep(s, fields[0], rest);
      assert fields == [fields[0]];
    } else {
      FieldsAreRead(fields[1..], rest);
      FollowedFieldsAreRead(fields, rest);
    }
  }

  lemma {:induction false} FollowedFieldsAreRead(fields: seq<Field>, rest: string)
    requires |fields| > 1
    requires ParseFields(PrintFields(fields[1..]) + "}" + rest) == Done(fields[1..], rest)
    ensures ParseFields(PrintFields(fields) + "}" + rest) == Done(fields, rest)
    decreases fields, 0
  {
    var entry := Quote(fields[0].key) + ": " + Print(fields[0].value);
    var tail := PrintFields(fields[1..]) + "}" + rest;
    FieldIsRead(fields[0], ", " + tail);
    Regroup(entry, ", ", PrintFields(fields[1..]), "}", rest);
    assert PrintFields(fields) == entry + ", " + PrintFields(fields[1..]);
    MoreFieldsStep(entry + (", " + tail), fields[0], tail, fields[1..], rest);
    assert fields == [fields[0]] + fields[1..];
  }

  // ----- the two theorems about the printer of the source

  /** Reading back a printed value gives an equivalent value and consumes the whole text. */
  lemma DumpsRoundTrips(v: Value)
    ensures ParseValue(Dumps(v)) == Done(Canon(v), "")
  {
    DumpsPrintsCanon(v);
    PrintIsRead(Canon(v), "");
    assert Print(Canon(v)) + "" == Dumps(v);
  }

  /** Values print alike exactly when they are equal up to field order. */
  lemma DumpsIsCanonical(v: Value, w: Value)
    requires Valid(v) && Valid(w)
    ensures Dumps(v) == Dumps(w) <==> Equivalent(v, w)
  {
    DumpsRoundTrips(v);
    DumpsRoundTrips(w);
    CanonDecidesEquivalence(v, w);
    DumpsPrintsCanon(v);
    DumpsPrintsCanon(w);
  }
}
