/**
 Text as its UTF-8 bytes, with the well-formedness rule of section 4 of RFC 3629 and the two cuts
 that may only happen between characters (src/core.rs:2190-2204).
 */
module Utf8Text {

  newtype Byte = x: int | 0 <= x < 0x100

  type Text = seq<Byte>

  predicate IsContinuation(b: Byte) {
    0x80 <= b <= 0xBF
  }

  /** The length of the well-formed character that starts `t`, or 0 if none does. */
  function CharLength(t: Text): (n: nat)
    ensures n <= |t| && n <= 4
    ensures n > 0 ==> !IsContinuation(t[0])
    ensures forall i | 1 <= i < n :: IsContinuation(t[i])
  {
    if |t| >= 1 && t[0] <= 0x7F then 1
    else if |t| >= 2 && 0xC2 <= t[0] <= 0xDF && IsContinuation(t[1]) then 2
    else if |t| >= 3 && IsThreeByteLead(t[0], t[1]) && IsContinuation(t[2]) then 3
    else if |t| >= 4 && IsFourByteLead(t[0], t[1]) && IsContinuation(t[2]) && IsContinuation(t[3]) then 4
    else 0
  }

  predicate IsThreeByteLead(first: Byte, second: Byte) {
    || (first == 0xE0 && 0xA0 <= second <= 0xBF)
    || (0xE1 <= first <= 0xEC && IsContinuation(second))
    || (first == 0xED && 0x80 <= second <= 0x9F)
    || (0xEE <= first <= 0xEF && IsContinuation(second))
  }

  predicate IsFourByteLead(first: Byte, second: Byte) {
    || (first == 0xF0 && 0x90 <= second <= 0xBF)
    || (0xF1 <= first <= 0xF3 && IsContinuation(second))
    || (first == 0xF4 && 0x80 <= second <= 0x8F)
  }

  /** RFC 3629: a sequence of well-formed characters and nothing else. */
  predicate ValidUtf8(t: Text) {
    t == [] || (CharLength(t) > 0 && ValidUtf8(t[CharLength(t)..]))
  }

  /** `str::is_char_boundary`: the byte test the source cuts by. */
  predicate IsCharBoundary(t: Text, k: nat)
    requires k <= |t|
  {
    k == 0 || k == |t| || !IsContinuation(t[k])
  }

  /** Only its own bytes decide where the first character ends. */
  lemma CharLengthIsLocal(t: Text, u: Text)
    requires CharLength(t) > 0 && CharLength(t) <= |u|
    requires forall i | 0 <= i < CharLength(t) :: u[i] == t[i]
    ensures CharLength(u) == CharLength(t)
  {
    var n := CharLength(t);
    if n >= 2 {
      assert u[0] == t[0] && u[1] == t[1];
      if n >= 3 {
        assert u[2] == t[2];
        if n == 4 {
          assert u[3] == t[3];
        }
      }
    }
  }

  lemma {:induction false} ConcatIsValid(a: Text, b: Text)
    requires ValidUtf8(a) && ValidUtf8(b)
    ensures ValidUtf8(a + b)
  {
    hide CharLength;
    if a == [] {
      assert a + b == b;
    } else {
      var n := CharLength(a);
      var whole := a + b;
      CharLengthIsLocal(a, whole);
      ConcatIsValid(a[n..], b);
      assert whole[n..] == a[n..] + b;
      assert ValidUtf8(whole);
    }
  }

  /** The byte test is enough: cutting well-formed text at a boundary leaves two well-formed halves. */
  lemma {:induction false} SplitAtBoundary(t: Text, k: nat)
    requires k <= |t| && ValidUtf8(t) && IsCharBoundary(t, k)
    ensures ValidUtf8(t[..k]) && ValidUtf8(t[k..])
  {
    hide CharLength;
    if k == 0 {
      assert t[..k] == [] && t[k..] == t;
    } else {
      var n := CharLength(t);
      assert n <= k;
      var rest := t[n..];
      assert k - n < |rest| ==> rest[k - n] == t[k];
      SplitAtBoundary(rest, k - n);
      CharLengthIsLocal(t, t[..k]);
      assert t[..k][n..] == rest[..k - n];
      assert t[k..] == rest[k - n..];
    }
  }

  /** Where a character of well-formed text starts: at, or up to three bytes before, every byte. */
  lemma {:induction false} BoundaryIsNear(t: Text, k: nat) returns (lo: nat, hi: nat)
    requires k <= |t| && ValidUtf8(t)
    ensures lo <= k <= hi <= |t| && k - lo < 4 && hi - k < 4
    ensures IsCharBoundary(t, lo) && IsCharBoundary(t, hi)
  {
    var n := CharLength(t);
    if k == 0 {
      lo, hi := 0, 0;
    } else if k < n {
      lo, hi := 0, n;
      assert IsCharBoundary(t, n) by {
        assert n < |t| ==> CharLength(t[n..]) > 0 && t[n..][0] == t[n];
      }
    } else {
      var lo', hi' := BoundaryIsNear(t[n..], k - n);
      lo, hi := lo' + n, hi' + n;
      assert n < |t| ==> CharLength(t[n..]) > 0 && t[n..][0] == t[n];
      assert lo < |t| ==> t[lo] == t[n..][lo'];
      assert hi < |t| ==> t[hi] == t[n..][hi'];
    }
  }

  /** The last boundary at or before `k`. */
  function FloorBoundary(t: Text, k: nat): (end: nat)
    requires k <= |t|
    ensures end <= k && IsCharBoundary(t, end)
  {
    if IsCharBoundary(t, k) then k else FloorBoundary(t, k - 1)
  }

  /** The first boundary at or after `k`. */
  function CeilBoundary(t: Text, k: nat): (start: nat)
    requires k <= |t|
    ensures k <= start <= |t| && IsCharBoundary(t, start)
    decreases |t| - k
  {
    if IsCharBoundary(t, k) then k else CeilBoundary(t, k + 1)
  }

  lemma {:induction false} FloorIsLast(t: Text, k: nat, i: nat)
    requires i <= k <= |t| && IsCharBoundary(t, i)
    ensures i <= FloorBoundary(t, k)
  {
    if IsCharBoundary(t, k) {
    } else {
      FloorIsLast(t, k - 1, i);
    }
  }

  lemma {:induction false} CeilIsFirst(t: Text, k: nat, i: nat)
    requires k <= i <= |t| && IsCharBoundary(t, i)
    ensures CeilBoundary(t, k) <= i
    decreases |t| - k
  {
    if IsCharBoundary(t, k) {
    } else {
      CeilIsFirst(t, k + 1, i);
    }
  }

  function Min(a: nat, b: nat): nat {
    if a <= b then a else b
  }

  /** `saturating_sub` on the unsigned integers of the source. */
  function SaturatingSub(a: nat, b: nat): nat {
    if a <= b then 0 else a - b
  }

  function Prefix(t: Text, maxBytes: nat): Text {
    t[..FloorBoundary(t, Min(maxBytes, |t|))]
  }

  function Suffix(t: Text, maxBytes: nat): Text {
    t[CeilBoundary(t, SaturatingSub(|t|, maxBytes))..]
  }

  /** The loop that walks back to a boundary takes the longest prefix that fits and ends at one. */
  method Utf8Prefix(t: Text, maxBytes: nat) returns (p: Text)
    ensures p == Prefix(t, maxBytes)
    ensures p <= t && |p| <= maxBytes && IsCharBoundary(t, |p|)
    ensures forall i | |p| < i <= |t| && i <= maxBytes :: !IsCharBoundary(t, i)
  {
    var end := Min(maxBytes, |t|);
    while end > 0 && !IsCharBoundary(t, end)
      invariant 0 <= end <= Min(maxBytes, |t|)
      invariant forall i | end < i <= Min(maxBytes, |t|) :: !IsCharBoundary(t, i)
    {
      end := end - 1;
    }
    p := t[..end];
    FloorIsLast(t, Min(maxBytes, |t|), end);
  }

  /** The loop that walks forward to a boundary takes the longest suffix that fits and starts at one. */
  method Utf8Suffix(t: Text, maxBytes: nat) returns (s: Text)
    ensures s == Suffix(t, maxBytes)
    ensures |s| <= |t| && s == t[|t| - |s|..] && |s| <= maxBytes && IsCharBoundary(t, |t| - |s|)
    ensures forall i: nat | SaturatingSub(|t|, maxBytes) <= i < |t| - |s| :: !IsCharBoundary(t, i)
  {
    var start := SaturatingSub(|t|, maxBytes);
    while start < |t| && !IsCharBoundary(t, start)
      invariant SaturatingSub(|t|, maxBytes) <= start <= |t|
      invariant forall i: nat | SaturatingSub(|t|, maxBytes) <= i < start :: !IsCharBoundary(t, i)
    {
      start := start + 1;
    }
    s := t[start..];
    CeilIsFirst(t, SaturatingSub(|t|, maxBytes), start);
  }

  /** A prefix cut keeps text well formed and, unless it keeps everything, loses under 4 bytes. */
  lemma PrefixIsTight(t: Text, maxBytes: nat)
    requires ValidUtf8(t)
    ensures ValidUtf8(Prefix(t, maxBytes))
    ensures |Prefix(t, maxBytes)| == |t| || maxBytes - |Prefix(t, maxBytes)| < 4
  {
    hide ValidUtf8;
    var k := Min(maxBytes, |t|);
    var lo, _ := BoundaryIsNear(t, k);
    FloorIsLast(t, k, lo);
    SplitAtBoundary(t, FloorBoundary(t, k));
  }

  lemma SuffixIsTight(t: Text, maxBytes: nat)
    requires ValidUtf8(t)
    ensures ValidUtf8(Suffix(t, maxBytes))
    ensures |Suffix(t, maxBytes)| == |t| || maxBytes - |Suffix(t, maxBytes)| < 4
  {
    hide ValidUtf8;
    var k := SaturatingSub(|t|, maxBytes);
    var _, hi := BoundaryIsNear(t, k);
    CeilIsFirst(t, k, hi);
    SplitAtBoundary(t, CeilBoundary(t, k));
  }

  /** Program constants are ASCII; this is their text. */
  function Ascii(s: string): (t: Text)
    ensures |t| == |s| && forall i | 0 <= i < |t| :: t[i] <= 0x7F
  {
    seq(|s|, i requires 0 <= i < |s| => if s[i] < 128 as char then s[i] as Byte else '?' as Byte)
  }

  lemma {:induction false} AsciiIsValid(t: Text)
    requires forall i | 0 <= i < |t| :: t[i] <= 0x7F
    ensures ValidUtf8(t)
  {
    if t == [] {
    } else {
      AsciiIsValid(t[1..]);
    }
  }

  /** `str::find` for one ASCII character. */
  function Find(t: Text, b: Byte): (at: nat)
    ensures at <= |t| && (at < |t| ==> t[at] == b) && b !in t[..at]
  {
    if t == [] || t[0] == b then 0 else 1 + Find(t[1..], b)
  }

  predicate OccursAt(t: Text, pattern: Text, at: nat) {
    at + |pattern| <= |t| && t[at..at + |pattern|] == pattern
  }

  /** `str::find` for a pattern: its first occurrence, or |t| + 1 when there is none. */
  function FindPattern(t: Text, pattern: Text, from: nat): (at: nat)
    requires from <= |t|
    ensures from <= at <= |t| + 1
    ensures at <= |t| ==> OccursAt(t, pattern, at)
    ensures forall i | from <= i < at :: !OccursAt(t, pattern, i)
    decreases |t| - from
  {
    if OccursAt(t, pattern, from) then from
    else if from == |t| then |t| + 1
    else FindPattern(t, pattern, from + 1)
  }
}
