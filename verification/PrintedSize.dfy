/**
 How many bytes the canonical printer needs: exact sizes of printed strings and of objects with two
 fields, from which token estimates are bounded.
 */
module PrintedSize {
  import opened Sorting
  import opened Json
  import opened ContextItems

  lemma {:induction false} SizeConcat(a: string, b: string)
    ensures Utf8Size(a + b) == Utf8Size(a) + Utf8Size(b)
  {
    if a == [] {
      assert a + b == b;
    } else {
      assert (a + b)[1..] == a[1..] + b;
      SizeConcat(a[1..], b);
    }
  }

  lemma {:induction false} AsciiSize(s: string)
    requires forall i | 0 <= i < |s| :: s[i] < '\U{80}'
    ensures Utf8Size(s) == |s|
  {
    if s == [] {
    } else {
      AsciiSize(s[1..]);
    }
  }

  lemma EscapeSize(c: char)
    ensures Utf8Width(c) <= Utf8Size(Escape(c)) <= 6 * Utf8Width(c)
  {
    if |Escape(c)| > 1 {
      AsciiSize(Escape(c));
    } else {
      assert Escape(c) == [c] && Escape(c)[1..] == [];
    }
  }

  /** Escaping makes text at most six times as long, and never shorter. */
  lemma {:induction false} EscapeAllSize(s: string)
    ensures Utf8Size(s) <= Utf8Size(EscapeAll(s)) <= 6 * Utf8Size(s)
  {
    hide Escape;
    if s == [] {
    } else {
      EscapeSize(s[0]);
      EscapeAllSize(s[1..]);
      SizeConcat(Escape(s[0]), EscapeAll(s[1..]));
    }
  }

  lemma QuoteSize(s: string)
    ensures Utf8Size(s) + 2 <= Utf8Size(Quote(s)) <= 6 * Utf8Size(s) + 2
  {
    hide EscapeAll;
    EscapeAllSize(s);
    AsciiSize("\"");
    SizeConcat("\"", EscapeAll(s));
    SizeConcat("\"" + EscapeAll(s), "\"");
  }

  /** What a printed entry weighs. */
  lemma EntrySize(key: string, value: string)
    ensures Utf8Size(key) + Utf8Size(value) <= Utf8Size(Quote(key) + ": " + Quote(value))
              <= 6 * Utf8Size(key) + 6 * Utf8Size(value) + 6
  {
    hide Quote;
    QuoteSize(key);
    QuoteSize(value);
    AsciiSize(": ");
    SizeConcat(Quote(key), ": ");
    SizeConcat(Quote(key) + ": ", Quote(value));
  }

  lemma TwoKeys(x: Field, y: Field)
    requires !KeyLeq(y.key, x.key)
    ensures SortedKeys([x, y]) == SortedKeys([y, x]) == [x.key, y.key]
  {
    KeyLeqTotal(x.key, y.key);
    hide KeyLeq;
    TwoSorted(x.key, y.key);
    assert Keys([x, y]) == [x.key, y.key] && Keys([y, x]) == [y.key, x.key];
  }

  lemma TwoSorted(a: string, b: string)
    requires KeyLeq(a, b) && !KeyLeq(b, a)
    ensures Sort([a, b], KeyLeq) == Sort([b, a], KeyLeq) == [a, b]
  {
    hide KeyLeq;
    assert [a, b][1..] == [b] && [b, a][1..] == [a];
    assert Sort([a], KeyLeq) == [a] && Sort([b], KeyLeq) == [b];
    assert Insert(b, [a], KeyLeq) == [a] + Insert(b, [], KeyLeq);
  }

  function Entry(field: Field): string {
    Quote(field.key) + ": " + Dumps(field.value)
  }

  /** Two fields are printed in the order of their keys. */
  lemma TwoFieldsText(x: Field, y: Field)
    requires !KeyLeq(y.key, x.key)
    ensures Dumps(Obj([y, x])) == Dumps(Obj([x, y])) == "{" + (Entry(x) + ", " + Entry(y)) + "}"
  {
    hide Quote, SortedKeys;
    KeyLeqTotal(x.key, x.key);
    TwoKeys(x, y);
    TwoEntries(x, y, [x, y]);
    TwoEntries(x, y, [y, x]);
  }

  lemma TwoEntries(x: Field, y: Field, fields: seq<Field>)
    requires (fields == [x, y] || fields == [y, x]) && x.key != y.key
    ensures HasKey(fields, x.key) && HasKey(fields, y.key)
    ensures DumpsKeys([x.key, y.key], fields) == Entry(x) + ", " + Entry(y)
  {
    hide Quote, Dumps;
    assert fields[0].key in {x.key, y.key} && fields[1].key in {x.key, y.key};
    var keys := [x.key, y.key];
    assert keys[1..] == [y.key];
    assert HasKey(fields, x.key) && HasKey(fields, y.key);
    assert fields[FieldIndex(fields, x.key)] == x && fields[FieldIndex(fields, y.key)] == y;
    assert DumpsKeys(keys[1..], fields) == Entry(y);
  }

  /** What an object with two fields of ASCII keys that need no escape weighs. */
  lemma TwoFieldsSize(x: Field, y: Field)
    requires !KeyLeq(y.key, x.key)
    ensures Utf8Size(Dumps(Obj([y, x]))) == Utf8Size(Dumps(Obj([x, y])))
         == Utf8Size(Quote(x.key)) + Utf8Size(Dumps(x.value)) + Utf8Size(Quote(y.key)) + Utf8Size(Dumps(y.value)) + 8
  {
    hide Utf8Size, Quote, Dumps;
    TwoFieldsText(x, y);
    hide KeyLeq;
    AsciiSize(": ");
    AsciiSize(", ");
    AsciiSize("{");
    AsciiSize("}");
    SizeConcat(Quote(x.key), ": ");
    SizeConcat(Quote(x.key) + ": ", Dumps(x.value));
    SizeConcat(Quote(y.key), ": ");
    SizeConcat(Quote(y.key) + ": ", Dumps(y.value));
    SizeConcat(Entry(x), ", ");
    SizeConcat(Entry(x) + ", ", Entry(y));
    SizeConcat("{", Entry(x) + ", " + Entry(y));
    SizeConcat("{" + (Entry(x) + ", " + Entry(y)), "}");
  }

  /** A key without quotes, backslashes or control characters is printed as it is. */
  lemma {:induction false} PlainQuote(s: string)
    requires forall i | 0 <= i < |s| :: '\U{20}' <= s[i] < '\U{7F}' && s[i] != '"' && s[i] != '\\'
    ensures EscapeAll(s) == s && Utf8Size(Quote(s)) == |s| + 2
  {
    if s == [] {
      AsciiSize("\"\"");
      assert Quote(s) == "\"\"";
    } else {
      PlainQuote(s[1..]);
      assert s == [s[0]] + s[1..];
      AsciiSize(Quote(s));
    }
  }

  /** Items of an array are separated by a comma and a space. */
  lemma ArrayText(first: Value, others: seq<Value>)
    ensures Dumps(Arr([])) == "[]" && Dumps(Obj([])) == "{}"
    ensures Dumps(Arr([first] + others)) ==
      if others == [] then "[" + Dumps(first) + "]" else "[" + (Dumps(first) + ", " + DumpsItems(others)) + "]"
    ensures Dumps(Arr(others)) == "[" + DumpsItems(others) + "]"
  {
    hide SortedKeys;
    ItemsText(first, others);
    NothingPrinted();
    hide DumpsItems;
  }

  lemma ItemsText(first: Value, others: seq<Value>)
    ensures DumpsItems([first] + others) ==
      if others == [] then Dumps(first) else Dumps(first) + ", " + DumpsItems(others)
  {
    hide Dumps;
    assert ([first] + others)[1..] == others && ([first] + others)[0] == first;
  }

  lemma NothingPrinted()
    ensures Dumps(Arr([])) == "[]" && Dumps(Obj([])) == "{}"
  {
  }
}
