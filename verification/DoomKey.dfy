/**
 The key under which the agent loop remembers a tool call (src/core.rs:3936-3940): the tool name, a
 colon, and the printed input. Nothing quotes the name, so a name with colons in it might seem to
 collide with another call. It cannot: reading a printed value from just after any of its own colons
 never yields a complete printed value.
 */
module DoomKey {
  import opened Json
  import opened JsonCanonical
  import opened JsonParser

  function CallKey(name: string, input: Value): string {
    name + ":" + Dumps(input)
  }

  // ----- where quotes and colons stand in printed JSON

  /** Outside strings, inside one, after a backslash inside one, or right after a member's colon. */
  datatype Lexical = Outside | Inside | Escaping | AfterColon | Impossible

  function Step(state: Lexical, c: char): Lexical {
    match state
    case Outside =>
      if c == '"' then Inside else if c == '\\' then Impossible else if c == ':' then AfterColon else Outside
    case Inside => if c == '"' then Outside else if c == '\\' then Escaping else Inside
    case Escaping => if c == ':' then Impossible else Inside
    case AfterColon => if c == ' ' then Outside else Impossible
    case Impossible => Impossible
  }

  function Scan(state: Lexical, s: string): Lexical
    decreases |s|
  {
    if s == [] then state else Scan(Step(state, s[0]), s[1..])
  }

  lemma {:induction false} ScanConcat(state: Lexical, a: string, b: string)
    ensures Scan(state, a + b) == Scan(Scan(state, a), b)
    decreases |a|
  {
    if a == [] {
      assert a + b == b;
    } else {
      assert (a + b)[1..] == a[1..] + b;
      ScanConcat(Step(state, a[0]), a[1..], b);
    }
  }

  lemma {:induction false} ScanImpossible(s: string)
    ensures Scan(Impossible, s) == Impossible
  {
    if s == [] {
    } else {
      ScanImpossible(s[1..]);
    }
  }

  lemma {:induction false} NumbersStayOutside(s: string)
    requires forall i | 0 <= i < |s| :: IsNumberChar(s[i])
    ensures Scan(Outside, s) == Outside
  {
    if s == [] {
    } else {
      NumbersStayOutside(s[1..]);
    }
  }

  lemma {:induction false} EscapesStayInside(s: string)
    ensures Scan(Inside, EscapeAll(s)) == Inside
  {
    if s == [] {
    } else {
      var e := Escape(s[0]);
      assert Scan(Inside, e) == Inside by {
        if |e| == 6 {
          UnicodeEscapeStaysInside(s[0]);
        } else if |e| == 2 {
          assert Scan(Escaping, e[1..]) == Scan(Inside, e[1..][1..]);
        }
      }
      ScanConcat(Inside, e, EscapeAll(s[1..]));
      EscapesStayInside(s[1..]);
    }
  }

  lemma UnicodeEscapeStaysInside(c: char)
    requires |Escape(c)| == 6
    ensures Scan(Inside, Escape(c)) == Inside
  {
    var digits := [DigitChar(c as nat / 16), DigitChar(c as nat % 16)];
    ScanConcat(Inside, "\\u00", digits);
    assert Scan(Inside, "\\u00") == Scan(Escaping, "u00") == Scan(Inside, "00") == Scan(Inside, "0") == Inside;
    assert Scan(Inside, digits) == Scan(Inside, digits[1..]) == Inside;
  }

  lemma QuoteReturnsOutside(s: string)
    ensures Scan(Outside, Quote(s)) == Outside
  {
    var body := EscapeAll(s);
    EscapesStayInside(s);
    ScanConcat(Outside, "\"", body);
    ScanConcat(Outside, "\"" + body, "\"");
    assert Scan(Outside, "\"") == Inside && Scan(Inside, "\"") == Outside;
  }

  lemma ScanThree(state: Lexical, a: string, b: string, c: string)
    ensures Scan(state, a + b + c) == Scan(Scan(Scan(state, a), b), c)
  {
    ScanConcat(state, a, b);
    ScanConcat(state, a + b, c);
  }

  lemma PunctuationStaysOutside()
    ensures Scan(Outside, ", ") == Outside && Scan(Outside, ": ") == Outside
    ensures Scan(Outside, "[") == Scan(Outside, "]") == Scan(Outside, "{") == Scan(Outside, "}") == Outside
    ensures Scan(Outside, "null") == Scan(Outside, "true") == Scan(Outside, "false") == Outside
  {
    assert Scan(Outside, ", ") == Scan(Outside, " ") == Outside;
    assert Scan(Outside, ": ") == Scan(AfterColon, " ") == Outside;
    WordsStayOutside("null");
    WordsStayOutside("true");
    WordsStayOutside("false");
  }

  lemma {:induction false} WordsStayOutside(s: string)
    requires forall i | 0 <= i < |s| :: s[i] !in "\"\\:"
    ensures Scan(Outside, s) == Outside
  {
    if s == [] {
    } else {
      WordsStayOutside(s[1..]);
    }
  }

  lemma {:induction false} PrintReturnsOutside(v: Value)
    ensures Scan(Outside, Print(v)) == Outside
  {
    PunctuationStaysOutside();
    match v
    case Arr(items) =>
      ScanThree(Outside, "[", PrintItems(items), "]");
      ItemsReturnOutside(items);
    case Obj(fields) =>
      ScanThree(Outside, "{", PrintFields(fields), "}");
      FieldsReturnOutside(fields);
    case Number(n) => NumbersStayOutside(NumberText(n));
    case Str(text) => QuoteReturnsOutside(text);
    case _ =>
  }

  lemma {:induction false} ItemsReturnOutside(items: seq<Value>)
    ensures Scan(Outside, PrintItems(items)) == Outside
  {
    if items == [] {
    } else {
      PunctuationStaysOutside();
      PrintReturnsOutside(items[0]);
      if |items| > 1 {
        ItemsReturnOutside(items[1..]);
        ScanThree(Outside, Print(items[0]), ", ", PrintItems(items[1..]));
      }
    }
  }

  lemma {:induction false} FieldsReturnOutside(fields: seq<Field>)
    ensures Scan(Outside, PrintFields(fields)) == Outside
  {
    if fields == [] {
    } else {
      PunctuationStaysOutside();
      var entry := Quote(fields[0].key) + ": " + Print(fields[0].value);
      QuoteReturnsOutside(fields[0].key);
      PrintReturnsOutside(fields[0].value);
      ScanThree(Outside, Quote(fields[0].key), ": ", Print(fields[0].value));
      if |fields| > 1 {
        FieldsReturnOutside(fields[1..]);
        ScanThree(Outside, entry, ", ", PrintFields(fields[1..]));
      }
    }
  }

  // ----- two readings of the same text that disagree about quotes disagree to the end

  predicate Apart(x: Lexical, y: Lexical) {
    || x == Impossible || y == Impossible
    || (x == Inside && (y == Outside || y == AfterColon))
    || (y == Inside && (x == Outside || x == AfterColon))
  }

  lemma {:induction false} ReadingsStayApart(x: Lexical, y: Lexical, s: string)
    requires Apart(x, y)
    ensures Apart(Scan(x, s), Scan(y, s))
    decreases |s|
  {
    if s == [] {
    } else {
      ReadingsStayApart(Step(x, s[0]), Step(y, s[0]), s[1..]);
    }
  }

  /** No printed value ends in a colon followed by a whole printed value. */
  lemma NoValueAfterAnInnerColon(v: Value, w: Value, before: string)
    ensures Print(v) != before + ":" + Print(w)
  {
    if Print(v) == before + ":" + Print(w) {
      var at := Scan(Outside, before);
      PrintReturnsOutside(v);
      PrintReturnsOutside(w);
      ScanThree(Outside, before, ":", Print(w));
      assert Scan(at, ":") == Step(at, ':');
      if at == Inside {
        ReadingsStayApart(Inside, Outside, Print(w));
        assert false;
      } else {
        PrintStartsAValue(w);
        assert Step(Step(at, ':'), Print(w)[0]) == Impossible;
        ScanImpossible(Print(w)[1..]);
        assert false;
      }
    }
  }

  lemma KeysOfDifferentLengthNames(a: string, v: Value, b: string, w: Value)
    requires |a| < |b|
    ensures a + ":" + Print(v) != b + ":" + Print(w)
  {
    var s := a + ":" + Print(v);
    if s == b + ":" + Print(w) {
      var before := b[|a| + 1..];
      assert Print(v) == s[|a| + 1..];
      assert (b + ":" + Print(w))[|a| + 1..] == before + ":" + Print(w);
      NoValueAfterAnInnerColon(v, w, before);
      assert false;
    }
  }

  /** Two calls share a key exactly when they name the same tool and pass equal inputs. */
  lemma CallKeyIsInjective(a: string, v: Value, b: string, w: Value)
    requires Valid(v) && Valid(w)
    ensures CallKey(a, v) == CallKey(b, w) <==> a == b && Equivalent(v, w)
  {
    DumpsPrintsCanon(v);
    DumpsPrintsCanon(w);
    DumpsIsCanonical(v, w);
    if CallKey(a, v) == CallKey(b, w) {
      if |a| < |b| {
        KeysOfDifferentLengthNames(a, Canon(v), b, Canon(w));
      } else if |b| < |a| {
        KeysOfDifferentLengthNames(b, Canon(w), a, Canon(v));
      } else {
        assert a == CallKey(a, v)[..|a|] == CallKey(b, w)[..|b|] == b;
        assert Dumps(v) == CallKey(a, v)[|a| + 1..] == CallKey(b, w)[|b| + 1..] == Dumps(w);
      }
    }
  }
}
