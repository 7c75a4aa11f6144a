/**
 What it is for two items to mean the same (src/core.rs:1842-1868).
 */
module Meaning {
  import opened Prelude
  import opened Json
  import opened JsonParser
  import opened Utf8Text
  import opened ContextItems

  /**
   `normalize` unifies line ends, trims every line at its end and then the whole; it leaves nothing
   exactly of blank content. `digest` is SHA-1. Both are arbitrary here.
   */
  datatype Reading = Reading(normalize: Text -> string, digest: string -> string)

  /** System messages count as instructions. */
  function SemanticKind(item: ContextItem): string {
    if item.kind == "message" && item.MetaStr("role") == Some("system") then "instruction" else item.kind
  }

  function DeliveryName(delivery: Delivery): string {
    match delivery
    case Message => "message"
    case ToolManifest => "tool_manifest"
    case TraceOnly => "trace_only"
  }

  function MeaningValue(reading: Reading, item: ContextItem): Value {
    Obj([Field("kind", Str(SemanticKind(item))),
         Field("delivery", Str(DeliveryName(item.delivery))),
         Field("content", Str(reading.normalize(item.content)))])
  }

  /** `semantic_context_fingerprint`: only stable items with some content have one. */
  function SemanticFingerprint(reading: Reading, item: ContextItem): Option<string> {
    if !item.stablePrefix || reading.normalize(item.content) == "" then None
    else Some("sha1:" + reading.digest(Dumps(MeaningValue(reading, item))))
  }

  /** The digest does not confuse these two items. */
  ghost predicate ToldApart(reading: Reading, x: ContextItem, y: ContextItem) {
    var a, b := Dumps(MeaningValue(reading, x)), Dumps(MeaningValue(reading, y));
    reading.digest(a) == reading.digest(b) ==> a == b
  }

  predicate IsSystemMessage(item: ContextItem) {
    item.kind == "message" && item.MetaStr("role") == Some("system")
  }

  /** Of one kind, or both instructions, of which a system message is one. */
  predicate SameSort(x: ContextItem, y: ContextItem) {
    if IsSystemMessage(x) then IsSystemMessage(y) || y.kind == "instruction"
    else if IsSystemMessage(y) then x.kind == "instruction"
    else x.kind == y.kind
  }

  lemma KindsInWords(x: ContextItem, y: ContextItem)
    ensures SemanticKind(x) == SemanticKind(y) <==> SameSort(x, y)
  {
    assert |"message"| == 7 && |"instruction"| == 11;
  }

  /**
   As long as the digest does not confuse them, two items share a fingerprint exactly when both have a
   meaning and agree in kind, delivery and normalised content.
   */
  lemma SameMeaningIff(reading: Reading, x: ContextItem, y: ContextItem)
    requires ToldApart(reading, x, y)
    ensures SemanticFingerprint(reading, x).Some?
            && SemanticFingerprint(reading, x) == SemanticFingerprint(reading, y) <==>
      && x.stablePrefix && y.stablePrefix && x.delivery == y.delivery && SameSort(x, y)
      && reading.normalize(x.content) == reading.normalize(y.content) != ""
  {
    hide Dumps, SemanticKind, SameSort;
    KindsInWords(x, y);
    var v, w := MeaningValue(reading, x), MeaningValue(reading, y);
    MeaningValuesAreValid(reading, x);
    MeaningValuesAreValid(reading, y);
    DumpsIsCanonical(v, w);
    EquivalentMeanings(reading, x, y);
    if SemanticFingerprint(reading, x).Some? && SemanticFingerprint(reading, x) == SemanticFingerprint(reading, y) {
      var a, b := reading.digest(Dumps(v)), reading.digest(Dumps(w));
      assert ("sha1:" + a)[5..] == a && ("sha1:" + b)[5..] == b;
    }
  }

  lemma MeaningValuesAreValid(reading: Reading, item: ContextItem)
    ensures Valid(MeaningValue(reading, item))
  {
    var keys := Keys(MeaningValue(reading, item).fields);
    assert |keys[0]| == 4 && |keys[1]| == 8 && |keys[2]| == 7;
  }

  lemma EquivalentMeanings(reading: Reading, x: ContextItem, y: ContextItem)
    ensures Equivalent(MeaningValue(reading, x), MeaningValue(reading, y)) <==>
      && SemanticKind(x) == SemanticKind(y) && x.delivery == y.delivery
      && reading.normalize(x.content) == reading.normalize(y.content)
  {
    hide SemanticKind;
    var a, b := MeaningValue(reading, x).fields, MeaningValue(reading, y).fields;
    assert |a[0].key| == 4 && |a[1].key| == 8 && |a[2].key| == 7;
    assert |b[0].key| == 4 && |b[1].key| == 8 && |b[2].key| == 7;
    assert forall i | 0 <= i < 3 :: a[i].key == b[i].key;
    assert Equivalent(a[0].value, b[0].value) <==> SemanticKind(x) == SemanticKind(y);
    DeliveryNamesDiffer(x.delivery, y.delivery);
    assert Equivalent(a[1].value, b[1].value) <==> x.delivery == y.delivery;
    assert Equivalent(a[2].value, b[2].value) <==> reading.normalize(x.content) == reading.normalize(y.content);
  }

  lemma DeliveryNamesDiffer(x: Delivery, y: Delivery)
    ensures DeliveryName(x) == DeliveryName(y) <==> x == y
  {
    assert |DeliveryName(Message)| == 7 && |DeliveryName(ToolManifest)| == 13 && |DeliveryName(TraceOnly)| == 10;
  }
}
