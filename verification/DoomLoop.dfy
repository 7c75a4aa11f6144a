/**
 When the doom-loop detector fires (src/core.rs:3936-3950), told over the whole history of recorded
 calls, although the loop keeps only the last few keys.
 */
module DoomLoop {
  import opened Json
  import opened DoomKey
  import opened EventStream

  function KeyOf(call: ToolCall): string {
    CallKey(call.name, call.input)
  }

  /** The last `threshold` of the recorded calls all have one key. */
  ghost predicate Fires(calls: seq<ToolCall>, threshold: nat) {
    && 1 <= threshold <= |calls|
    && forall i | |calls| - threshold <= i < |calls| :: KeyOf(calls[i]) == KeyOf(calls[|calls| - threshold])
  }

  /** The bounded history: the keys of the last `threshold` calls. */
  function LastKeys(calls: seq<ToolCall>, threshold: nat): (keys: seq<string>)
    ensures |keys| == if |calls| <= threshold then |calls| else threshold
    ensures forall i | 0 <= i < |keys| :: keys[i] == KeyOf(calls[|calls| - |keys| + i])
  {
    var n := if |calls| <= threshold then |calls| else threshold;
    seq(n, i requires 0 <= i < n => KeyOf(calls[|calls| - n + i]))
  }

  /** Pushing one key and dropping the oldest beyond the threshold keeps the bounded history. */
  lemma PushKeepsLastKeys(calls: seq<ToolCall>, call: ToolCall, threshold: nat)
    ensures var pushed := LastKeys(calls, threshold) + [KeyOf(call)];
      LastKeys(calls + [call], threshold) == if |pushed| > threshold then pushed[1..] else pushed
  {
    var pushed := LastKeys(calls, threshold) + [KeyOf(call)];
    var next := if |pushed| > threshold then pushed[1..] else pushed;
    var expected := LastKeys(calls + [call], threshold);
    assert |next| == |expected|;
    forall i | 0 <= i < |next| ensures next[i] == expected[i] {
    }
  }

  /** No prefix of the calls made the detector fire. */
  ghost predicate NeverFired(calls: seq<ToolCall>, threshold: nat) {
    forall n | 0 <= n <= |calls| :: !Fires(calls[..n], threshold)
  }

  lemma NeverFiredStep(calls: seq<ToolCall>, call: ToolCall, threshold: nat)
    requires NeverFired(calls, threshold) && !Fires(calls + [call], threshold)
    ensures NeverFired(calls + [call], threshold)
  {
    var more := calls + [call];
    forall n | 0 <= n <= |more| ensures !Fires(more[..n], threshold) {
      if n <= |calls| {
        assert more[..n] == calls[..n];
      } else {
        assert more[..n] == more;
      }
    }
  }

  /** The same tool with equal inputs, as a reader would say it. */
  ghost predicate SameCall(a: ToolCall, b: ToolCall) {
    a.name == b.name && Equivalent(a.input, b.input)
  }

  /** A map of the source holds each key once, so every input it passes is valid. */
  ghost predicate ValidCalls(calls: seq<ToolCall>) {
    forall i | 0 <= i < |calls| :: Valid(calls[i].input)
  }

  /** From `at` on there are `threshold` equal calls. */
  ghost predicate RepeatsAt(calls: seq<ToolCall>, at: nat, threshold: nat) {
    at + threshold <= |calls| && forall i | at <= i < at + threshold :: SameCall(calls[i], calls[at])
  }

  /** The detector fires exactly on a run of calls to one tool with equal inputs. */
  lemma FiresOnRepeatedCalls(calls: seq<ToolCall>, threshold: nat)
    requires ValidCalls(calls)
    ensures Fires(calls, threshold) <==> 1 <= threshold <= |calls| && RepeatsAt(calls, |calls| - threshold, threshold)
  {
    hide CallKey, Valid, Equivalent;
    if 1 <= threshold <= |calls| {
      var first := calls[|calls| - threshold];
      forall i | |calls| - threshold <= i < |calls|
        ensures KeyOf(calls[i]) == KeyOf(first) <==> SameCall(calls[i], first)
      {
        CallKeyIsInjective(calls[i].name, calls[i].input, first.name, first.input);
      }
    }
  }

  /** No prefix made the detector fire exactly when there is no run of `threshold` equal calls anywhere. */
  lemma NoRepeatedRun(calls: seq<ToolCall>, threshold: nat)
    requires ValidCalls(calls) && threshold >= 1
    ensures NeverFired(calls, threshold) <==> forall at: nat :: !RepeatsAt(calls, at, threshold)
  {
    hide KeyOf, Valid, SameCall, Fires, RepeatsAt;
    forall n | 0 <= n <= |calls|
      ensures Fires(calls[..n], threshold) <==> threshold <= n && RepeatsAt(calls, n - threshold, threshold)
    {
      FiresOnRepeatedCalls(calls[..n], threshold);
      if threshold <= n {
        RepeatsInPrefix(calls, n, n - threshold, threshold);
      }
    }
    if NeverFired(calls, threshold) {
      forall at: nat ensures !RepeatsAt(calls, at, threshold) {
        RepeatsFit(calls, at, threshold);
        var n := at + threshold;
        assert n <= |calls| ==> !Fires(calls[..n], threshold) && n - threshold == at;
      }
    }
    if forall at: nat :: !RepeatsAt(calls, at, threshold) {
      forall n | 0 <= n <= |calls| ensures !Fires(calls[..n], threshold) {
        assert threshold <= n ==> !RepeatsAt(calls, n - threshold, threshold);
      }
    }
  }

  lemma RepeatsInPrefix(calls: seq<ToolCall>, n: nat, at: nat, threshold: nat)
    requires at + threshold <= n <= |calls|
    ensures RepeatsAt(calls[..n], at, threshold) <==> RepeatsAt(calls, at, threshold)
  {
    hide SameCall;
  }

  lemma RepeatsFit(calls: seq<ToolCall>, at: nat, threshold: nat)
    ensures RepeatsAt(calls, at, threshold) ==> at + threshold <= |calls|
  {
  }

  lemma ThresholdZeroNeverFires(calls: seq<ToolCall>)
    ensures !Fires(calls, 0) && LastKeys(calls, 0) == []
  {
  }
}
