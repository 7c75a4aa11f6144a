/** Result types and the trimming of text, shared by the other modules. */
module Prelude {

  datatype Option<+T> = None | Some(value: T) {
    function GetOr(default: T): T {
      match this
      case Some(v) => v
      case None => default
    }
  }

  /** The Rust source reports errors as text; the text itself is not modelled further. */
  datatype Result<+T> = Ok(value: T) | Err(message: string) {
    predicate IsFailure() {
      Err?
    }

    function PropagateFailure<U>(): Result<U>
      requires Err?
    {
      Err(message)
    }

    function Extract(): T
      requires Ok?
    {
      value
    }
  }

  /** Unicode White_Space, which is what `str::trim` removes. */
  predicate IsSpace(c: char) {
    || '\U{9}' <= c <= '\U{D}' || c == ' ' || c == '\U{85}' || c == '\U{A0}' || c == '\U{1680}'
    || '\U{2000}' <= c <= '\U{200A}' || c == '\U{2028}' || c == '\U{2029}' || c == '\U{202F}'
    || c == '\U{205F}' || c == '\U{3000}'
  }

  function TrimStart(s: string): string {
    if s != [] && IsSpace(s[0]) then TrimStart(s[1..]) else s
  }

  function TrimEnd(s: string): string {
    if s != [] && IsSpace(s[|s| - 1]) then TrimEnd(s[..|s| - 1]) else s
  }

  function Trim(s: string): string {
    TrimEnd(TrimStart(s))
  }

  /** What is trimmed off is white space, and what is left neither starts nor ends with any. */
  ghost predicate IsTrimmed(s: string, from: nat, to: nat) {
    && from <= to <= |s|
    && (forall i | 0 <= i < from || to <= i < |s| :: IsSpace(s[i]))
    && (from < to ==> !IsSpace(s[from]) && !IsSpace(s[to - 1]))
  }

  lemma {:induction false} StartIsTrimmed(s: string) returns (from: nat)
    ensures from <= |s| && TrimStart(s) == s[from..] && (from < |s| ==> !IsSpace(s[from]))
    ensures forall i | 0 <= i < from :: IsSpace(s[i])
  {
    if s == [] || !IsSpace(s[0]) {
      from := 0;
    } else {
      from := StartIsTrimmed(s[1..]);
      assert s[1..][from..] == s[from + 1..];
      assert forall i | 1 <= i < from + 1 :: s[i] == s[1..][i - 1];
      from := from + 1;
    }
  }

  lemma {:induction false} EndIsTrimmed(s: string) returns (to: nat)
    ensures to <= |s| && TrimEnd(s) == s[..to] && (to > 0 ==> !IsSpace(s[to - 1]))
    ensures forall i | to <= i < |s| :: IsSpace(s[i])
  {
    if s == [] || !IsSpace(s[|s| - 1]) {
      to := |s|;
      assert s[..to] == s;
    } else {
      to := EndIsTrimmed(s[..|s| - 1]);
      assert s[..|s| - 1][..to] == s[..to];
    }
  }

  lemma TrimIsExact(s: string) returns (from: nat, to: nat)
    ensures IsTrimmed(s, from, to) && Trim(s) == s[from..to]
  {
    hide IsSpace;
    from := StartIsTrimmed(s);
    var length := EndIsTrimmed(s[from..]);
    to := from + length;
    assert s[from..][..length] == s[from..to];
    assert forall i | to <= i < |s| :: s[i] == s[from..][i - from];
    assert from < to ==> s[to - 1] == s[from..][length - 1];
  }
}
