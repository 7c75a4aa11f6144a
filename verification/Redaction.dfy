/**
 Redacting a captured replay (eval/src/bad_case.rs:476-557). The regular expressions that clean a
 string are not modelled: `clean` is any function that settles after one application and leaves the
 placeholder alone.
 */
module Redaction {
  import opened Prelude
  import opened Json

  const PLACEHOLDER: string := "[REDACTED]"

  type Cleaner = string -> string

  ghost predicate Settles(clean: Cleaner) {
    clean(PLACEHOLDER) == PLACEHOLDER && forall s :: clean(clean(s)) == clean(s)
  }

  function LowerAscii(s: string): (r: string)
    ensures |r| == |s|
  {
    seq(|s|, i requires 0 <= i < |s| => if 'A' <= s[i] <= 'Z' then s[i] - 'A' + 'a' else s[i])
  }

  const SENSITIVE_WORDS: seq<string> := [
    "api_key", "apikey", "authorization", "cookie", "credential", "password",
    "private_key", "refresh_token", "secret", "session_token", "token"]

  predicate EndsWith(s: string, suffix: string) {
    |suffix| <= |s| && s[|s| - |suffix|..] == suffix
  }

  /** Case does not matter; the word is the whole key or its last part after an underscore. */
  predicate SensitiveKey(key: string) {
    exists i | 0 <= i < |SENSITIVE_WORDS| ::
      LowerAscii(key) == SENSITIVE_WORDS[i] || EndsWith(LowerAscii(key), "_" + SENSITIVE_WORDS[i])
  }

  // ----- what sanitising returns and records

  function SanitizeField(field: Field, clean: Cleaner): Field {
    Field(field.key, if SensitiveKey(field.key) then Str(PLACEHOLDER) else Sanitize(field.value, clean))
  }

  function Sanitize(v: Value, clean: Cleaner): Value {
    match v
    case Obj(fields) => Obj(seq(|fields|, i requires 0 <= i < |fields| => SanitizeField(fields[i], clean)))
    case Arr(items) => Arr(seq(|items|, i requires 0 <= i < |items| => Sanitize(items[i], clean)))
    case Str(s) => Str(clean(s))
    case _ => v
  }

  function FieldPath(path: string, key: string): string {
    path + "." + key
  }

  function ItemPath(path: string, index: nat): string {
    path + "[" + Decimal(index) + "]"
  }

  /** The recorded paths, in the order of the walk. */
  function RedactedPaths(v: Value, path: string, clean: Cleaner): seq<string> {
    match v
    case Obj(fields) => FieldPaths(fields, path, clean)
    case Arr(items) => ItemPaths(items, path, |items|, clean)
    case Str(s) => if clean(s) != s then [path] else []
    case _ => []
  }

  function FieldPaths(fields: seq<Field>, path: string, clean: Cleaner): seq<string> {
    if fields == [] then []
    else
      FieldPaths(fields[..|fields| - 1], path, clean) + OneFieldPaths(fields[|fields| - 1], path, clean)
  }

  function OneFieldPaths(field: Field, path: string, clean: Cleaner): seq<string> {
    if SensitiveKey(field.key) then [FieldPath(path, field.key)]
    else RedactedPaths(field.value, FieldPath(path, field.key), clean)
  }

  function ItemPaths(items: seq<Value>, path: string, n: nat, clean: Cleaner): seq<string>
    requires n <= |items|
    decreases items, n
  {
    if n == 0 then []
    else ItemPaths(items, path, n - 1, clean) + RedactedPaths(items[n - 1], ItemPath(path, n - 1), clean)
  }

  predicate ContainsSensitive(v: Value, clean: Cleaner) {
    match v
    case Obj(fields) => exists i | 0 <= i < |fields| ::
        || (SensitiveKey(fields[i].key) && fields[i].value != Str(PLACEHOLDER))
        || ContainsSensitive(fields[i].value, clean)
    case Arr(items) => exists i | 0 <= i < |items| :: ContainsSensitive(items[i], clean)
    case Str(s) => clean(s) != s
    case _ => false
  }

  // ----- the walk itself

  /** The list of paths that the recursion appends to. */
  class PathLog {
    var paths: seq<string>

    constructor ()
      ensures paths == []
    {
      paths := [];
    }
  }

  method SanitizeValue(v: Value, path: string, clean: Cleaner, log: PathLog) returns (r: Value)
    modifies log
    ensures r == Sanitize(v, clean)
    ensures log.paths == old(log.paths) + RedactedPaths(v, path, clean)
    decreases v, 1
  {
    hide SensitiveKey, FieldPath, ItemPath;
    match v
    case Obj(fields) =>
      var out := SanitizeFields(fields, path, clean, log);
      r := Obj(out);
    case Arr(items) =>
      var out := SanitizeItems(items, path, clean, log);
      r := Arr(out);
    case Str(raw) =>
      var sanitized := clean(raw);
      if sanitized != raw {
        log.paths := log.paths + [path];
      }
      r := Str(sanitized);
    case _ =>
      r := v;
  }

  method SanitizeFields(fields: seq<Field>, path: string, clean: Cleaner, log: PathLog) returns (out: seq<Field>)
    modifies log
    ensures out == seq(|fields|, i requires 0 <= i < |fields| => SanitizeField(fields[i], clean))
    ensures log.paths == old(log.paths) + FieldPaths(fields, path, clean)
    decreases fields, 0
  {
    hide SensitiveKey, FieldPath, Sanitize, RedactedPaths;
    out := [];
    for i := 0 to |fields|
      invariant |out| == i && forall k | 0 <= k < i :: out[k] == SanitizeField(fields[k], clean)
      invariant log.paths == old(log.paths) + FieldPaths(fields[..i], path, clean)
    {
      var childPath := FieldPath(path, fields[i].key);
      MoreFieldPaths(fields, i, path, clean);
      if SensitiveKey(fields[i].key) {
        log.paths := log.paths + [childPath];
        out := out + [Field(fields[i].key, Str(PLACEHOLDER))];
      } else {
        var child := SanitizeValue(fields[i].value, childPath, clean, log);
        out := out + [Field(fields[i].key, child)];
      }
    }
    assert fields[..|fields|] == fields;
  }

  lemma MoreFieldPaths(fields: seq<Field>, i: nat, path: string, clean: Cleaner)
    requires i < |fields|
    ensures FieldPaths(fields[..i + 1], path, clean)
         == FieldPaths(fields[..i], path, clean) + OneFieldPaths(fields[i], path, clean)
  {
    assert fields[..i + 1][..i] == fields[..i];
  }

  method SanitizeItems(items: seq<Value>, path: string, clean: Cleaner, log: PathLog) returns (out: seq<Value>)
    modifies log
    ensures out == seq(|items|, i requires 0 <= i < |items| => Sanitize(items[i], clean))
    ensures log.paths == old(log.paths) + ItemPaths(items, path, |items|, clean)
    decreases items, 0
  {
    hide ItemPath, Sanitize, RedactedPaths;
    out := [];
    for i := 0 to |items|
      invariant |out| == i && forall k | 0 <= k < i :: out[k] == Sanitize(items[k], clean)
      invariant log.paths == old(log.paths) + ItemPaths(items, path, i, clean)
    {
      var child := SanitizeValue(items[i], ItemPath(path, i), clean, log);
      out := out + [child];
    }
  }

  // ----- redaction is complete, settles, and shows where it happened

  /** Nothing sensitive is left. */
  lemma {:induction false} SanitizedIsClean(v: Value, clean: Cleaner)
    requires Settles(clean)
    ensures !ContainsSensitive(Sanitize(v, clean), clean)
  {
    hide SensitiveKey;
    match v
    case Obj(fields) =>
      forall i | 0 <= i < |fields|
        ensures var field := SanitizeField(fields[i], clean);
          (SensitiveKey(field.key) ==> field.value == Str(PLACEHOLDER)) && !ContainsSensitive(field.value, clean)
      {
        SanitizedIsClean(fields[i].value, clean);
      }
    case Arr(items) =>
      forall i | 0 <= i < |items| ensures !ContainsSensitive(Sanitize(items[i], clean), clean) {
        SanitizedIsClean(items[i], clean);
      }
    case _ =>
  }

  /** Clean values are exactly those that sanitising leaves alone. */
  lemma {:induction false} CleanIffUnchanged(v: Value, clean: Cleaner)
    requires Settles(clean)
    ensures !ContainsSensitive(v, clean) <==> Sanitize(v, clean) == v
  {
    hide SensitiveKey;
    if Sanitize(v, clean) == v {
      SanitizedIsClean(v, clean);
    }
    if !ContainsSensitive(v, clean) {
      match v
      case Obj(fields) =>
        forall i | 0 <= i < |fields| ensures SanitizeField(fields[i], clean) == fields[i] {
          CleanIffUnchanged(fields[i].value, clean);
        }
        assert Sanitize(v, clean).fields == fields;
      case Arr(items) =>
        forall i | 0 <= i < |items| ensures Sanitize(items[i], clean) == items[i] {
          CleanIffUnchanged(items[i], clean);
        }
        assert Sanitize(v, clean).items == items;
      case _ =>
    }
  }

  lemma SanitizeIsIdempotent(v: Value, clean: Cleaner)
    requires Settles(clean)
    ensures Sanitize(Sanitize(v, clean), clean) == Sanitize(v, clean)
  {
    SanitizedIsClean(v, clean);
    CleanIffUnchanged(Sanitize(v, clean), clean);
  }

  /** No sensitive key outside what is redacted as a whole. */
  ghost predicate NoSensitiveKey(v: Value) {
    match v
    case Obj(fields) => forall i | 0 <= i < |fields| :: !SensitiveKey(fields[i].key) && NoSensitiveKey(fields[i].value)
    case Arr(items) => forall i | 0 <= i < |items| :: NoSensitiveKey(items[i])
    case _ => true
  }

  /**
   Nothing is recorded exactly when nothing changed and there was no sensitive key; an already redacted
   one is recorded although it does not change.
   */
  lemma {:induction false} NothingRecordedIff(v: Value, path: string, clean: Cleaner)
    ensures RedactedPaths(v, path, clean) == [] <==> Sanitize(v, clean) == v && NoSensitiveKey(v)
    decreases v, 1
  {
    hide SensitiveKey, FieldPath, ItemPath;
    match v
    case Obj(fields) =>
      NoFieldRecordedIff(fields, path, clean, |fields|);
      assert fields[..|fields|] == fields;
      if forall i | 0 <= i < |fields| :: SanitizeField(fields[i], clean) == fields[i] {
        assert Sanitize(v, clean).fields == fields;
      }
      if Sanitize(v, clean) == v {
        forall i | 0 <= i < |fields| ensures SanitizeField(fields[i], clean) == fields[i] {
          assert Sanitize(v, clean).fields[i] == fields[i];
        }
      }
    case Arr(items) =>
      NoItemRecordedIff(items, path, clean, |items|);
      if forall i | 0 <= i < |items| :: Sanitize(items[i], clean) == items[i] {
        assert Sanitize(v, clean).items == items;
      }
      if Sanitize(v, clean) == v {
        forall i | 0 <= i < |items| ensures Sanitize(items[i], clean) == items[i] {
          assert Sanitize(v, clean).items[i] == items[i];
        }
      }
    case _ =>
  }

  lemma {:induction false} NoFieldRecordedIff(fields: seq<Field>, path: string, clean: Cleaner, n: nat)
    requires n <= |fields|
    ensures FieldPaths(fields[..n], path, clean) == [] <==>
      forall i | 0 <= i < n ::
        SanitizeField(fields[i], clean) == fields[i] && !SensitiveKey(fields[i].key) && NoSensitiveKey(fields[i].value)
    decreases fields, 0, n
  {
    hide SensitiveKey, FieldPath, ItemPath;
    if n == 0 {
    } else {
      NoFieldRecordedIff(fields, path, clean, n - 1);
      assert fields[..n][..n - 1] == fields[..n - 1];
      var last := fields[n - 1];
      NothingRecordedIff(last.value, FieldPath(path, last.key), clean);
      assert OneFieldPaths(last, path, clean) == [] <==>
        SanitizeField(last, clean) == last && !SensitiveKey(last.key) && NoSensitiveKey(last.value);
    }
  }

  lemma {:induction false} NoItemRecordedIff(items: seq<Value>, path: string, clean: Cleaner, n: nat)
    requires n <= |items|
    ensures ItemPaths(items, path, n, clean) == [] <==>
      forall i | 0 <= i < n :: Sanitize(items[i], clean) == items[i] && NoSensitiveKey(items[i])
    decreases items, 0, n
  {
    hide SensitiveKey, ItemPath;
    if n == 0 {
    } else {
      NoItemRecordedIff(items, path, clean, n - 1);
      NothingRecordedIff(items[n - 1], ItemPath(path, n - 1), clean);
    }
  }

  // ----- and touches nothing else

  /** A path of child positions from the root. */
  function At(v: Value, path: seq<nat>): Option<Value>
    decreases path
  {
    if path == [] then Some(v)
    else
      match v
      case Obj(fields) => if path[0] < |fields| then At(fields[path[0]].value, path[1..]) else None
      case Arr(items) => if path[0] < |items| then At(items[path[0]], path[1..]) else None
      case _ => None
  }

  /** Some object key on the way is sensitive. */
  predicate PassesSensitiveKey(v: Value, path: seq<nat>)
    decreases path
  {
    && path != []
    && match v
       case Obj(fields) => path[0] < |fields| &&
         (SensitiveKey(fields[path[0]].key) || PassesSensitiveKey(fields[path[0]].value, path[1..]))
       case Arr(items) => path[0] < |items| && PassesSensitiveKey(items[path[0]], path[1..])
       case _ => false
  }

  /**
   Away from sensitive keys the tree keeps its shape: keys, lengths, numbers, booleans and nulls stay,
   and a string becomes its cleaned form.
   */
  lemma {:induction false} OnlySensitivePartsChange(v: Value, path: seq<nat>, clean: Cleaner)
    requires At(v, path).Some? && !PassesSensitiveKey(v, path)
    ensures At(Sanitize(v, clean), path).Some?
    ensures var before, after := At(v, path).value, At(Sanitize(v, clean), path).value;
      match before
      case Str(s) => after == Str(clean(s))
      case Arr(items) => after.Arr? && |after.items| == |items|
      case Obj(fields) => after.Obj? && Keys(after.fields) == Keys(fields)
      case _ => after == before
    decreases path
  {
    hide SensitiveKey;
    if path == [] {
      if v.Obj? {
        assert Keys(Sanitize(v, clean).fields) == Keys(v.fields);
      }
    } else {
      match v
      case Obj(fields) =>
        OnlySensitivePartsChange(fields[path[0]].value, path[1..], clean);
        assert Sanitize(v, clean).fields[path[0]] == SanitizeField(fields[path[0]], clean);
      case Arr(items) =>
        OnlySensitivePartsChange(items[path[0]], path[1..], clean);
        assert Sanitize(v, clean).items[path[0]] == Sanitize(items[path[0]], clean);
      case _ =>
    }
  }

  /** Under a sensitive key there is nothing but the placeholder, as long as no other such key is above it. */
  lemma {:induction false} SensitiveValuesAreReplaced(v: Value, path: seq<nat>, clean: Cleaner, i: nat)
    requires At(v, path).Some? && At(v, path).value.Obj? && !PassesSensitiveKey(v, path)
    requires i < |At(v, path).value.fields| && SensitiveKey(At(v, path).value.fields[i].key)
    ensures At(Sanitize(v, clean), path).Some? && At(Sanitize(v, clean), path).value.Obj?
    ensures var before, after := At(v, path).value.fields, At(Sanitize(v, clean), path).value.fields;
      |after| == |before| && after[i] == Field(before[i].key, Str("[REDACTED]"))
    decreases path
  {
    hide SensitiveKey;
    if path == [] {
      assert Sanitize(v, clean).fields[i] == SanitizeField(v.fields[i], clean);
    } else {
      match v
      case Obj(fields) =>
        SensitiveValuesAreReplaced(fields[path[0]].value, path[1..], clean, i);
        assert Sanitize(v, clean).fields[path[0]] == SanitizeField(fields[path[0]], clean);
      case Arr(items) =>
        SensitiveValuesAreReplaced(items[path[0]], path[1..], clean, i);
        assert Sanitize(v, clean).items[path[0]] == Sanitize(items[path[0]], clean);
      case _ =>
    }
  }

  // ----- which keys are sensitive

  predicate IsUpper(c: char) {
    'A' <= c <= 'Z'
  }

  /** Equal but for the case of ASCII letters in `s`. */
  ghost predicate SpellsInAnyCase(s: string, word: string) {
    |s| == |word| && forall i | 0 <= i < |s| :: (if IsUpper(s[i]) then (s[i] as int + 32) as char else s[i]) == word[i]
  }

  /** The key is the word, in any case, or ends in it behind an underscore. */
  ghost predicate EndsInAnyCase(key: string, word: string) {
    && |word| <= |key| && SpellsInAnyCase(key[|key| - |word|..], word)
    && (|word| == |key| || key[|key| - |word| - 1] == '_')
  }

  /** The sensitive keys are those that end in one of eleven words. */
  lemma SensitiveKeyIff(key: string)
    ensures SensitiveKey(key) <==>
      exists word | word in [
        "api_key", "apikey", "authorization", "cookie", "credential", "password",
        "private_key", "refresh_token", "secret", "session_token", "token"] :: EndsInAnyCase(key, word)
  {
    hide EndsInAnyCase, LowerAscii, EndsWith;
    var words := SENSITIVE_WORDS;
    forall i | 0 <= i < |words|
      ensures LowerAscii(key) == words[i] || EndsWith(LowerAscii(key), "_" + words[i]) <==> EndsInAnyCase(key, words[i])
    {
      EndsInWord(key, words[i]);
    }
    if SensitiveKey(key) {
      var i :| 0 <= i < |words|
        && (LowerAscii(key) == words[i] || EndsWith(LowerAscii(key), "_" + words[i]));
      assert words[i] in words;
    }
    if word :| word in words && EndsInAnyCase(key, word) {
      var i :| 0 <= i < |words| && words[i] == word;
      assert LowerAscii(key) == words[i] || EndsWith(LowerAscii(key), "_" + words[i]);
    }
  }

  lemma EndsInWord(key: string, word: string)
    ensures LowerAscii(key) == word || EndsWith(LowerAscii(key), "_" + word) <==> EndsInAnyCase(key, word)
  {
    var low := LowerAscii(key);
    if |word| <= |key| {
      var n := |key| - |word|;
      SpelledBy(key, word, n);
      if n > 0 {
        assert low[n - 1..] == [low[n - 1]] + low[n..];
        assert low[n - 1..] == "_" + word <==> low[n - 1] == '_' && low[n..] == word by {
          assert ("_" + word)[0] == '_' && ("_" + word)[1..] == word;
          assert low[n - 1..][1..] == low[n..];
        }
      } else {
        assert low[0..] == low && key[0..] == key;
      }
    }
  }

  lemma SpelledBy(key: string, word: string, n: nat)
    requires n + |word| == |key|
    ensures LowerAscii(key)[n..] == word <==> SpellsInAnyCase(key[n..], word)
  {
    var low := LowerAscii(key);
    forall i | 0 <= i < |word|
      ensures low[n..][i] == if IsUpper(key[n..][i]) then (key[n..][i] as int + 32) as char else key[n..][i]
    {
    }
  }

  // ----- which paths are recorded

  /** How the place at the end of a path of child positions is written. */
  function PathText(v: Value, path: seq<nat>, prefix: string): string
    decreases path
  {
    if path == [] then prefix
    else
      match v
      case Obj(fields) =>
        if path[0] < |fields| then PathText(fields[path[0]].value, path[1..], prefix + "." + fields[path[0]].key)
        else prefix
      case Arr(items) =>
        if path[0] < |items| then PathText(items[path[0]], path[1..], prefix + "[" + Decimal(path[0]) + "]")
        else prefix
      case _ => prefix
  }

  /** The path leads, past no sensitive key, to a sensitive key or to a string that cleaning changes. */
  ghost predicate IsRedactedAt(v: Value, path: seq<nat>, clean: Cleaner)
    decreases path
  {
    if path == [] then v.Str? && clean(v.text) != v.text
    else
      match v
      case Obj(fields) => path[0] < |fields| &&
        if SensitiveKey(fields[path[0]].key) then |path| == 1
        else IsRedactedAt(fields[path[0]].value, path[1..], clean)
      case Arr(items) => path[0] < |items| && IsRedactedAt(items[path[0]], path[1..], clean)
      case _ => false
  }

  lemma {:induction false} InFieldPaths(fields: seq<Field>, prefix: string, clean: Cleaner, p: string)
    ensures p in FieldPaths(fields, prefix, clean) <==>
      exists i | 0 <= i < |fields| :: p in OneFieldPaths(fields[i], prefix, clean)
  {
    hide OneFieldPaths;
    if fields == [] {
    } else {
      var n := |fields| - 1;
      InFieldPaths(fields[..n], prefix, clean, p);
      assert forall i | 0 <= i < n :: fields[..n][i] == fields[i];
    }
  }

  lemma {:induction false} InItemPaths(items: seq<Value>, prefix: string, n: nat, clean: Cleaner, p: string)
    requires n <= |items|
    ensures p in ItemPaths(items, prefix, n, clean) <==>
      exists i | 0 <= i < n :: p in RedactedPaths(items[i], ItemPath(prefix, i), clean)
  {
    hide RedactedPaths, ItemPath;
    if n == 0 {
    } else {
      InItemPaths(items, prefix, n - 1, clean, p);
    }
  }

  /** Every redaction is recorded. */
  lemma {:induction false} RedactionsAreRecorded(v: Value, path: seq<nat>, prefix: string, clean: Cleaner)
    requires IsRedactedAt(v, path, clean)
    ensures PathText(v, path, prefix) in RedactedPaths(v, prefix, clean)
    decreases path
  {
    hide SensitiveKey, FieldPaths, ItemPaths;
    if path == [] {
    } else {
      var i := path[0];
      match v
      case Obj(fields) =>
        InFieldPaths(fields, prefix, clean, PathText(v, path, prefix));
        if SensitiveKey(fields[i].key) {
          assert path[1..] == [];
        } else {
          RedactionsAreRecorded(fields[i].value, path[1..], FieldPath(prefix, fields[i].key), clean);
        }
        assert PathText(v, path, prefix) in OneFieldPaths(fields[i], prefix, clean);
      case Arr(items) =>
        InItemPaths(items, prefix, |items|, clean, PathText(v, path, prefix));
        RedactionsAreRecorded(items[i], path[1..], ItemPath(prefix, i), clean);
      case _ =>
    }
  }

  /** Nothing else is. */
  lemma {:induction false} RecordsAreRedactions(v: Value, prefix: string, clean: Cleaner, p: string)
    returns (path: seq<nat>)
    requires p in RedactedPaths(v, prefix, clean)
    ensures IsRedactedAt(v, path, clean) && PathText(v, path, prefix) == p
    decreases v
  {
    hide SensitiveKey, FieldPaths, ItemPaths;
    match v
    case Obj(fields) =>
      InFieldPaths(fields, prefix, clean, p);
      var i :| 0 <= i < |fields| && p in OneFieldPaths(fields[i], prefix, clean);
      if SensitiveKey(fields[i].key) {
        path := [i];
        assert path[1..] == [];
      } else {
        var rest := RecordsAreRedactions(fields[i].value, FieldPath(prefix, fields[i].key), clean, p);
        path := [i] + rest;
        assert path[1..] == rest;
      }
    case Arr(items) =>
      InItemPaths(items, prefix, |items|, clean, p);
      var i :| 0 <= i < |items| && p in RedactedPaths(items[i], ItemPath(prefix, i), clean);
      var rest := RecordsAreRedactions(items[i], ItemPath(prefix, i), clean, p);
      path := [i] + rest;
      assert path[1..] == rest;
    case _ =>
      path := [];
  }
}
