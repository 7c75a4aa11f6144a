/**
 JSON values and the canonical printer `stable_json_dumps` (src/core.rs:5165-5198), on which every
 context hash, every token estimate and the doom-loop key rest.

 An object is the list of its fields in whatever order the map type iterates them, so that
 "key order never matters" is a statement about the printer. Integers are integers; any other
 number is its printed text, which is how the number type of the source identifies it here.
 */
module Json {
  import opened Prelude
  import opened Sorting

  datatype Value =
    | Null
    | Bool(flag: bool)
    | Number(number: Num)
    | Str(text: string)
    | Arr(items: seq<Value>)
    | Obj(fields: seq<Field>)
  {
    function AsStr(): Option<string> {
      if Str? then Some(text) else None
    }

    function AsBool(): Option<bool> {
      if Bool? then Some(flag) else None
    }

    /** Integers of the source fit 64 bits, so a non-negative one is a `u64`. */
    function AsU64(): Option<nat> {
      if Number? && number.Int? && 0 <= number.n then Some(number.n) else None
    }
  }

  datatype Field = Field(key: string, value: Value)

  datatype Num = Int(n: int) | Float(lexeme: FloatText)

  /** The printed form of a number that is not an integer: a number token with a fraction or an exponent. */
  type FloatText = s: string | IsFloatText(s) witness ZeroText()

  predicate IsFloatText(s: string) {
    IsNumber(s) && DigitSpan(Unsigned(s)) < |Unsigned(s)|
  }

  function ZeroText(): (s: string)
    ensures IsFloatText(s)
  {
    var s := "0.0";
    assert s[1..] == ".0" && DigitSpan(s[1..]) == 0 && DigitSpan(s) == 1;
    assert s[1..][1..] == "0" && DigitSpan("0") == 1 && s[1..][2..] == [];
    s
  }

  // ----- number tokens, section 6 of RFC 8259

  function Unsigned(s: string): string {
    if s != [] && s[0] == '-' then s[1..] else s
  }

  function DigitSpan(s: string): (n: nat)
    ensures n <= |s| && (forall i | 0 <= i < n :: IsDigit(s[i])) && (n < |s| ==> !IsDigit(s[n]))
  {
    if s != [] && IsDigit(s[0]) then 1 + DigitSpan(s[1..]) else 0
  }

  /** An optional minus, an integer part without leading zeros, an optional fraction, an optional exponent. */
  predicate IsNumber(s: string) {
    var t := Unsigned(s);
    var n := DigitSpan(t);
    n > 0 && (t[0] == '0' ==> n == 1) && IsFractionAndExponent(t[n..])
  }

  predicate IsFractionAndExponent(s: string) {
    if s != [] && s[0] == '.' then
      var n := DigitSpan(s[1..]);
      n > 0 && IsExponent(s[1 + n..])
    else IsExponent(s)
  }

  predicate IsExponent(s: string) {
    s == [] ||
    (s[0] in "eE" &&
     var t := if |s| > 1 && s[1] in "+-" then s[2..] else s[1..];
     t != [] && DigitSpan(t) == |t|)
  }

  lemma ExponentChars(s: string)
    requires IsExponent(s)
    ensures forall i | 0 <= i < |s| :: IsNumberChar(s[i])
  {
    if s != [] {
      var k := if |s| > 1 && s[1] in "+-" then 2 else 1;
      assert forall i | k <= i < |s| :: s[i] == s[k..][i - k];
    }
  }

  lemma FractionChars(s: string)
    requires IsFractionAndExponent(s)
    ensures forall i | 0 <= i < |s| :: IsNumberChar(s[i])
  {
    if s != [] && s[0] == '.' {
      var n := DigitSpan(s[1..]);
      ExponentChars(s[1 + n..]);
      assert forall i | 1 <= i < 1 + n :: s[i] == s[1..][i - 1];
      assert forall i | 1 + n <= i < |s| :: s[i] == s[1 + n..][i - 1 - n];
    } else {
      ExponentChars(s);
    }
  }

  lemma NumberChars(s: string)
    requires IsNumber(s)
    ensures s != [] && (IsDigit(s[0]) || s[0] == '-') && forall i | 0 <= i < |s| :: IsNumberChar(s[i])
  {
    hide IsFractionAndExponent;
    var t := Unsigned(s);
    var n := DigitSpan(t);
    FractionChars(t[n..]);
    forall i | 0 <= i < |t| ensures IsNumberChar(t[i]) {
      assert i >= n ==> t[i] == t[n..][i - n];
    }
    forall i | 0 <= i < |s| ensures IsNumberChar(s[i]) {
      assert s != t && i > 0 ==> s[i] == t[i - 1];
    }
  }

  lemma {:induction false} AllDigits(s: string)
    requires forall i | 0 <= i < |s| :: IsDigit(s[i])
    ensures DigitSpan(s) == |s|
  {
    if s == [] {
    } else {
      AllDigits(s[1..]);
    }
  }

  lemma IntegerIsNumber(s: string)
    requires s != [] && (forall i | 0 <= i < |s| :: IsDigit(s[i])) && (s[0] == '0' ==> |s| == 1)
    ensures IsNumber(s) && IsNumber("-" + s) && Unsigned(s) == s && Unsigned("-" + s) == s && DigitSpan(s) == |s|
  {
    AllDigits(s);
    assert ("-" + s)[1..] == s;
    assert s[|s|..] == [];
  }

  predicate IsDigit(c: char) {
    '0' <= c <= '9'
  }

  predicate IsNumberChar(c: char) {
    IsDigit(c) || c in "+-.eE"
  }

  // ----- objects

  predicate HasKey(fields: seq<Field>, key: string) {
    exists i | 0 <= i < |fields| :: fields[i].key == key
  }

  function FieldIndex(fields: seq<Field>, key: string): (i: nat)
    requires HasKey(fields, key)
    ensures i < |fields| && fields[i].key == key
    ensures forall j | 0 <= j < i :: fields[j].key != key
  {
    if fields[0].key == key then 0
    else
      assert HasKey(fields[1..], key) by {
        var i :| 0 <= i < |fields| && fields[i].key == key;
        assert fields[1..][i - 1].key == key;
      }
      1 + FieldIndex(fields[1..], key)
  }

  function Get(fields: seq<Field>, key: string): Option<Value> {
    if HasKey(fields, key) then Some(fields[FieldIndex(fields, key)].value) else None
  }

  /** `Value::get`: nothing but an object has fields. */
  function FieldOf(v: Value, key: string): Option<Value> {
    if v.Obj? then Get(v.fields, key) else None
  }

  function Keys(fields: seq<Field>): (keys: seq<string>)
    ensures |keys| == |fields|
    ensures forall i | 0 <= i < |keys| :: keys[i] == fields[i].key
  {
    seq(|fields|, i requires 0 <= i < |fields| => fields[i].key)
  }

  predicate Distinct<T(==)>(s: seq<T>) {
    forall i, j | 0 <= i < j < |s| :: s[i] != s[j]
  }

  /** A map holds each key once, at every depth. */
  ghost predicate Valid(v: Value) {
    match v
    case Arr(items) => forall i | 0 <= i < |items| :: Valid(items[i])
    case Obj(fields) =>
      && Distinct(Keys(fields))
      && forall i | 0 <= i < |fields| :: Valid(fields[i].value)
    case _ => true
  }

  /** Equality of JSON values: like equality, except that an object is a map and has no field order. */
  ghost predicate Equivalent(v: Value, w: Value) {
    match (v, w)
    case (Arr(a), Arr(b)) =>
      |a| == |b| && forall i | 0 <= i < |a| :: Equivalent(a[i], b[i])
    case (Obj(a), Obj(b)) =>
      && |a| == |b|
      && (forall i | 0 <= i < |a| :: HasKey(b, a[i].key))
      && (forall i, j | 0 <= i < |a| && 0 <= j < |b| && a[i].key == b[j].key ::
            Equivalent(a[i].value, b[j].value))
    case _ => v == w
  }

  // ----- key order

  /** Byte order on UTF-8 keys, which is scalar-value order on their characters. */
  predicate KeyLeq(a: string, b: string) {
    a == [] || (b != [] && (a[0] < b[0] || (a[0] == b[0] && KeyLeq(a[1..], b[1..]))))
  }

  lemma {:induction false} KeyLeqTotal(a: string, b: string)
    ensures KeyLeq(a, b) || KeyLeq(b, a)
    ensures KeyLeq(a, b) && KeyLeq(b, a) ==> a == b
  {
    if a == [] || b == [] {
    } else {
      KeyLeqTotal(a[1..], b[1..]);
      assert a == [a[0]] + a[1..] && b == [b[0]] + b[1..];
    }
  }

  lemma {:induction false} KeyLeqTransitive(a: string, b: string, c: string)
    requires KeyLeq(a, b) && KeyLeq(b, c)
    ensures KeyLeq(a, c)
  {
    if a != [] && a[0] == b[0] == c[0] {
      KeyLeqTransitive(a[1..], b[1..], c[1..]);
    }
  }

  /** The order of a dictionary: a beginning comes first, else the first different character decides. */
  lemma {:induction false} KeyLeqIsLexicographic(a: string, b: string)
    ensures KeyLeq(a, b) <==> a <= b || exists k | 0 <= k < |a| && k < |b| :: a[..k] == b[..k] && a[k] < b[k]
  {
    if a == [] || b == [] {
    } else if a[0] != b[0] {
      assert a[..0] == b[..0];
      assert forall k | 0 < k < |a| && k < |b| :: a[..k][0] != b[..k][0];
    } else {
      KeyLeqIsLexicographic(a[1..], b[1..]);
      assert a == [a[0]] + a[1..] && b == [b[0]] + b[1..];
      if k :| 0 <= k < |a| - 1 && k < |b| - 1 && a[1..][..k] == b[1..][..k] && a[1..][k] < b[1..][k] {
        assert a[..k + 1] == [a[0]] + a[1..][..k] && b[..k + 1] == [b[0]] + b[1..][..k];
        assert a[k + 1] < b[k + 1];
      }
      if k :| 0 <= k < |a| && k < |b| && a[..k] == b[..k] && a[k] < b[k] {
        assert k > 0 && a[1..][..k - 1] == a[..k][1..] && b[1..][..k - 1] == b[..k][1..];
        assert a[1..][k - 1] < b[1..][k - 1];
      }
    }
  }

  lemma KeyOrder()
    ensures TotalOrder(KeyLeq)
  {
    forall a, b ensures (KeyLeq(a, b) || KeyLeq(b, a)) && (KeyLeq(a, b) && KeyLeq(b, a) ==> a == b) {
      KeyLeqTotal(a, b);
    }
    forall a, b, c | KeyLeq(a, b) && KeyLeq(b, c) ensures KeyLeq(a, c) {
      KeyLeqTransitive(a, b, c);
    }
  }

  function SortedKeys(fields: seq<Field>): (keys: seq<string>)
    ensures |keys| == |fields|
    ensures forall k | 0 <= k < |keys| :: HasKey(fields, keys[k])
    ensures multiset(keys) == multiset(Keys(fields))
  {
    KeyOrder();
    SortIsCorrect(Keys(fields), KeyLeq);
    var keys := Sort(Keys(fields), KeyLeq);
    assert forall k | 0 <= k < |keys| :: HasKey(fields, keys[k]) by {
      forall k | 0 <= k < |keys| ensures HasKey(fields, keys[k]) {
        assert keys[k] in multiset(keys);
        assert keys[k] in Keys(fields);
      }
    }
    keys
  }

  // ----- printing

  function DigitChar(d: nat): (c: char)
    requires d < 16
    ensures d < 10 ==> c == '0' + d as char
  {
    if d < 10 then '0' + d as char else 'a' + (d - 10) as char
  }

  function Decimal(n: nat): (s: string)
    ensures |s| > 0 && (forall i | 0 <= i < |s| :: IsDigit(s[i])) && (s[0] == '0' <==> n == 0)
    ensures n == 0 ==> |s| == 1
  {
    if n < 10 then [DigitChar(n)] else Decimal(n / 10) + [DigitChar(n % 10)]
  }

  function NumberText(n: Num): (s: string)
    ensures IsNumber(s)
    ensures |s| > 0 && (IsDigit(s[0]) || s[0] == '-') && forall i | 0 <= i < |s| :: IsNumberChar(s[i])
  {
    match n
    case Int(i) => IntegerIsNumber(Decimal(if i < 0 then -i else i)); if i < 0 then "-" + Decimal(-i) else Decimal(i)
    case Float(lexeme) => NumberChars(lexeme); lexeme
  }

  /** String escapes as in section 7 of RFC 8259, in the short forms serde_json chooses. */
  function Escape(c: char): (s: string)
    ensures |s| > 0
  {
    if c == '"' then "\\\""
    else if c == '\\' then "\\\\"
    else if c == '\U{8}' then "\\b"
    else if c == '\U{9}' then "\\t"
    else if c == '\U{A}' then "\\n"
    else if c == '\U{C}' then "\\f"
    else if c == '\U{D}' then "\\r"
    else if c < '\U{20}' then "\\u00" + [DigitChar(c as nat / 16), DigitChar(c as nat % 16)]
    else [c]
  }

  function EscapeAll(s: string): string {
    if s == [] then [] else Escape(s[0]) + EscapeAll(s[1..])
  }

  function Quote(s: string): string {
    "\"" + EscapeAll(s) + "\""
  }

  function ScalarText(v: Value): string
    requires !v.Arr? && !v.Obj?
  {
    match v
    case Null => "null"
    case Bool(flag) => if flag then "true" else "false"
    case Number(n) => NumberText(n)
    case Str(s) => Quote(s)
  }

  /** `stable_json_dumps`: sort the keys, then look each one up. */
  function Dumps(v: Value): string {
    match v
    case Arr(items) => "[" + DumpsItems(items) + "]"
    case Obj(fields) => "{" + DumpsKeys(SortedKeys(fields), fields) + "}"
    case _ => ScalarText(v)
  }

  function DumpsItems(items: seq<Value>): string {
    if items == [] then ""
    else if |items| == 1 then Dumps(items[0])
    else Dumps(items[0]) + ", " + DumpsItems(items[1..])
  }

  function DumpsKeys(keys: seq<string>, fields: seq<Field>): string
    requires forall k | 0 <= k < |keys| :: HasKey(fields, keys[k])
    decreases fields, |keys|
  {
    if keys == [] then ""
    else
      var entry := Quote(keys[0]) + ": " + Dumps(fields[FieldIndex(fields, keys[0])].value);
      if |keys| == 1 then entry else entry + ", " + DumpsKeys(keys[1..], fields)
  }
}
