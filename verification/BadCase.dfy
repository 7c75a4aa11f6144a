/**
 The life of a captured bad case (eval/src/bad_case.rs:51-63, 216-474): capture, five forward steps to
 a regression fixture, and rejection from anywhere. Fingerprints are arbitrary functions of what they
 are taken of.
 */
module BadCase {
  import opened Prelude
  import opened Sorting
  import opened Json
  import opened Redaction

  datatype Category =
    | RequirementMismatch | ProviderFailure | ToolFailure | PermissionFailure | DeadlineOrBudget
    | QualityRegression | SafetyOrPrivacy | RecoveryFailure | ObservabilityGap | OtherCategory

  datatype Severity = Low | Medium | High | Critical

  datatype CaseState = Captured | Triaged | FixtureReady | Fixed | Verified | Promoted | Rejected

  datatype Versions = Versions(
    harness: string, agent: string, prompt: string, skillSet: string, toolSet: string, configFingerprint: string)

  datatype Source = Source(
    sessionId: string, runId: string, traceId: string, taskContractFingerprint: string,
    versions: Versions, outcome: string, reasonCode: string)

  datatype Assertion = Assertion(kind: string, path: string, operator: string, expected: Value)

  datatype Replay = Replay(
    input: Value, runtimeOverrides: Value, expectedAssertions: seq<Assertion>, tags: seq<string>)

  datatype CaptureInput = CaptureInput(
    schemaVersion: string, badCaseId: string, capturedAtMs: nat, category: Category, severity: Severity,
    title: string, owner: Option<string>, source: Source, replay: Replay)

  datatype Transition = Transition(from: CaseState, to: CaseState, atMs: nat, owner: string, note: string)

  datatype Record = Record(
    schemaVersion: string, badCaseId: string, capturedAtMs: nat, updatedAtMs: nat, category: Category,
    severity: Severity, state: CaseState, title: string, owner: Option<string>, source: Source,
    replay: Replay, redactedPaths: seq<string>, privacyScanPassed: bool, transitions: seq<Transition>)

  datatype Artifact = Artifact(schemaVersion: string, contentFingerprint: string, record: Record)

  datatype Fixture = Fixture(
    schemaVersion: string, fixtureId: string, datasetVersion: string, promotedAtMs: nat,
    sourceBadCaseId: string, sourceBadCaseFingerprint: string, source: Source, replay: Replay)

  datatype FixtureArtifact = FixtureArtifact(schemaVersion: string, contentFingerprint: string, fixture: Fixture)

  /** The functions that this model leaves open. */
  datatype Env = Env(clean: Cleaner, recordPrint: Record -> string, fixturePrint: Fixture -> string)

  const CAPTURE_SCHEMA: string := "openharness.bad_case.capture.v1"
  const RECORD_SCHEMA: string := "openharness.bad_case.v1"
  const ARTIFACT_SCHEMA: string := "openharness.bad_case.artifact.v1"
  const FIXTURE_SCHEMA: string := "openharness.regression_fixture.v1"
  const FIXTURE_ARTIFACT_SCHEMA: string := "openharness.regression_fixture.artifact.v1"

  // ----- validation

  datatype Check = Pass | Fail(message: string) {
    predicate IsFailure() {
      Fail?
    }

    function PropagateFailure<U>(): Result<U>
      requires Fail?
    {
      Err(message)
    }
  }

  function Need(condition: bool, message: string): Check {
    if condition then Pass else Fail(message)
  }

  predicate IsIdentity(value: string) {
    Trim(value) != ""
  }

  predicate IsArtifactId(value: string) {
    && IsIdentity(value) && |value| <= 160
    && forall i | 0 <= i < |value| ::
         || '0' <= value[i] <= '9' || 'A' <= value[i] <= 'Z' || 'a' <= value[i] <= 'z'
         || value[i] in "-_.:"
  }

  predicate IsHex(value: string, length: nat) {
    && |value| == length
    && !(forall i | 0 <= i < |value| :: value[i] == '0')
    && forall i | 0 <= i < |value| ::
         '0' <= value[i] <= '9' || 'A' <= value[i] <= 'F' || 'a' <= value[i] <= 'f'
  }

  /** No id is blank, because the characters it is made of are not. */
  lemma ArtifactIdIff(value: string)
    ensures IsArtifactId(value) <==>
      && 1 <= |value| <= 160
      && forall i | 0 <= i < |value| ::
           || '0' <= value[i] <= '9' || 'A' <= value[i] <= 'Z' || 'a' <= value[i] <= 'z'
           || value[i] == '-' || value[i] == '_' || value[i] == '.' || value[i] == ':'
  {
    var from, to := TrimIsExact(value);
    if value != [] && !IsSpace(value[0]) {
      assert from == 0;
      assert to > 0;
    }
  }

  function HexDigitValue(c: char): int {
    if '0' <= c <= '9' then c as int - '0' as int
    else if 'a' <= c <= 'f' then c as int - 'a' as int + 10
    else if 'A' <= c <= 'F' then c as int - 'A' as int + 10
    else -1
  }

  /** The number that hexadecimal digits spell. */
  function HexValue(s: string): nat
    requires forall i | 0 <= i < |s| :: HexDigitValue(s[i]) >= 0
  {
    if s == [] then 0
    else
      assert HexDigitValue(s[|s| - 1]) >= 0;
      16 * HexValue(s[..|s| - 1]) + HexDigitValue(s[|s| - 1])
  }

  /** A source names its session, its run and its five versions, and its three numbers are hexadecimal. */
  lemma SourceIff(source: Source)
    ensures IsValidSource(source) <==>
      && (forall name | name in [source.sessionId, source.runId, source.versions.harness, source.versions.agent,
                                 source.versions.prompt, source.versions.skillSet, source.versions.toolSet] ::
            exists i | 0 <= i < |name| :: !IsSpace(name[i]))
      && IsHex(source.traceId, 32) && IsHex(source.taskContractFingerprint, 64)
      && IsHex(source.versions.configFingerprint, 64)
  {
    hide IsHex, IsSpace;
    var names := [source.sessionId, source.runId, source.versions.harness, source.versions.agent,
                  source.versions.prompt, source.versions.skillSet, source.versions.toolSet];
    forall name | name in names ensures IsIdentity(name) <==> exists i | 0 <= i < |name| :: !IsSpace(name[i]) {
      IdentityIff(name);
    }
    assert names[0] in names && names[1] in names && names[2] in names && names[3] in names;
    assert names[4] in names && names[5] in names && names[6] in names;
  }

  lemma IdentityIff(value: string)
    ensures IsIdentity(value) <==> exists i | 0 <= i < |value| :: !IsSpace(value[i])
  {
    hide IsSpace, Trim;
    var from, to := TrimIsExact(value);
    assert Trim(value) == "" <==> from == to;
  }

  lemma {:induction false} HexIsZeroIff(s: string)
    requires forall i | 0 <= i < |s| :: HexDigitValue(s[i]) >= 0
    ensures HexValue(s) == 0 <==> forall i | 0 <= i < |s| :: s[i] == '0'
  {
    if s == [] {
    } else {
      assert HexDigitValue(s[|s| - 1]) >= 0;
      HexIsZeroIff(s[..|s| - 1]);
      assert forall i | 0 <= i < |s| - 1 :: s[..|s| - 1][i] == s[i];
    }
  }

  /** A trace id or a fingerprint is a hexadecimal number of the right length other than zero. */
  lemma HexIff(value: string, length: nat)
    ensures IsHex(value, length) <==>
      |value| == length && (forall i | 0 <= i < |value| :: HexDigitValue(value[i]) >= 0) && HexValue(value) > 0
  {
    hide HexValue;
    if forall i | 0 <= i < |value| :: HexDigitValue(value[i]) >= 0 {
      HexIsZeroIff(value);
    }
    assert forall i | 0 <= i < |value| :: HexDigitValue(value[i]) >= 0 <==>
      '0' <= value[i] <= '9' || 'A' <= value[i] <= 'F' || 'a' <= value[i] <= 'f';
  }

  predicate IsValidSource(source: Source) {
    && IsIdentity(source.sessionId) && IsIdentity(source.runId)
    && IsHex(source.traceId, 32)
    && IsHex(source.taskContractFingerprint, 64) && IsHex(source.versions.configFingerprint, 64)
    && IsIdentity(source.versions.harness) && IsIdentity(source.versions.agent)
    && IsIdentity(source.versions.prompt) && IsIdentity(source.versions.skillSet)
    && IsIdentity(source.versions.toolSet)
  }

  /** The replay as it is serialised, which is what the privacy scan reads. */
  function ReplayValue(replay: Replay): Value {
    Obj([Field("input", replay.input),
         Field("runtime_overrides", replay.runtimeOverrides),
         Field("expected_assertions", Arr(AssertionValues(replay.expectedAssertions))),
         Field("tags", Arr(TagValues(replay.tags)))])
  }

  function AssertionValue(assertion: Assertion): Value {
    Obj([Field("kind", Str(assertion.kind)), Field("path", Str(assertion.path)),
         Field("operator", Str(assertion.operator)), Field("expected", assertion.expected)])
  }

  function AssertionValues(assertions: seq<Assertion>): (values: seq<Value>)
    ensures |values| == |assertions|
    ensures forall i | 0 <= i < |values| :: values[i] == AssertionValue(assertions[i])
  {
    seq(|assertions|, i requires 0 <= i < |assertions| => AssertionValue(assertions[i]))
  }

  function TagValues(tags: seq<string>): (values: seq<Value>)
    ensures |values| == |tags| && forall i | 0 <= i < |values| :: values[i] == Str(tags[i])
  {
    seq(|tags|, i requires 0 <= i < |tags| => Str(tags[i]))
  }

  predicate ScanPasses(env: Env, replay: Replay) {
    !ContainsSensitive(ReplayValue(replay), env.clean)
  }

  predicate ArtifactIsValid(env: Env, artifact: Artifact) {
    var record := artifact.record;
    && artifact.schemaVersion == ARTIFACT_SCHEMA && record.schemaVersion == RECORD_SCHEMA
    && IsArtifactId(record.badCaseId)
    && IsValidSource(record.source)
    && record.updatedAtMs >= record.capturedAtMs
    && record.privacyScanPassed && ScanPasses(env, record.replay)
    && artifact.contentFingerprint == env.recordPrint(record)
  }

  predicate FixtureIsValid(env: Env, artifact: FixtureArtifact) {
    && artifact.schemaVersion == FIXTURE_ARTIFACT_SCHEMA && artifact.fixture.schemaVersion == FIXTURE_SCHEMA
    && artifact.fixture.replay.expectedAssertions != []
    && IsValidSource(artifact.fixture.source)
    && artifact.contentFingerprint == env.fixturePrint(artifact.fixture)
    && ScanPasses(env, artifact.fixture.replay)
  }

  function ArtifactOf(env: Env, record: Record): Artifact {
    Artifact(ARTIFACT_SCHEMA, env.recordPrint(record), record)
  }

  // ----- capture

  function SanitizeAssertion(assertion: Assertion, clean: Cleaner): Assertion {
    assertion.(expected := Sanitize(assertion.expected, clean))
  }

  function SanitizeReplay(replay: Replay, clean: Cleaner): Replay {
    Replay(Sanitize(replay.input, clean), Sanitize(replay.runtimeOverrides, clean),
           seq(|replay.expectedAssertions|, i requires 0 <= i < |replay.expectedAssertions| =>
             SanitizeAssertion(replay.expectedAssertions[i], clean)),
           replay.tags)
  }

  /** The paths recorded while sanitising; all assertions share one path. */
  function ReplayPaths(replay: Replay, clean: Cleaner): seq<string> {
    RedactedPaths(replay.input, "$.input", clean)
    + RedactedPaths(replay.runtimeOverrides, "$.runtime_overrides", clean)
    + AssertionPaths(replay.expectedAssertions, |replay.expectedAssertions|, clean)
  }

  function AssertionPaths(assertions: seq<Assertion>, n: nat, clean: Cleaner): seq<string>
    requires n <= |assertions|
  {
    if n == 0 then []
    else AssertionPaths(assertions, n - 1, clean)
         + RedactedPaths(assertions[n - 1].expected, "$.expected_assertions.expected", clean)
  }

  /** `dedup` on a sorted list keeps the first of each run. */
  function Dedup(s: seq<string>): seq<string> {
    if |s| <= 1 then s
    else if s[0] == s[1] then Dedup(s[1..])
    else [s[0]] + Dedup(s[1..])
  }

  lemma {:induction false} DedupIsExact(s: seq<string>)
    requires Sorted(s, KeyLeq)
    ensures forall p :: p in Dedup(s) <==> p in s
    ensures Distinct(Dedup(s)) && Sorted(Dedup(s), KeyLeq)
    ensures s != [] ==> Dedup(s) != [] && Dedup(s)[0] == s[0]
  {
    if |s| <= 1 {
    } else {
      DedupIsExact(s[1..]);
      assert s == [s[0]] + s[1..];
      var rest := Dedup(s[1..]);
      if s[0] != s[1] {
        assert s[0] !in rest by { KeyOrder(); assert forall i | 1 <= i < |s| :: KeyLeq(s[1], s[i]); }
        forall k | 0 <= k < |rest| ensures KeyLeq(s[0], rest[k]) {
          assert rest[k] in s[1..];
        }
      }
    }
  }

  /** `capture_bad_case`. */
  method CaptureBadCase(env: Env, input: CaptureInput) returns (r: Result<Artifact>)
    ensures r.Ok? <==>
      && input.schemaVersion == CAPTURE_SCHEMA && IsArtifactId(input.badCaseId) && IsIdentity(input.title)
      && IsValidSource(input.source) && input.capturedAtMs > 0
    ensures r.Ok? ==>
      var record, replay := r.value.record, input.replay;
      && IsFreshCapture(env, input, r.value)
      && (forall p :: p in record.redactedPaths <==>
            IsRecorded(replay, env.clean, p))
      && Distinct(record.redactedPaths) && Sorted(record.redactedPaths, KeyLeq)
  {
    hide Sanitize, RedactedPaths, Dedup, Sort, IsIdentity, IsValidSource, IsArtifactId, ScanPasses, IsRecorded;
    hide ReplayPaths, KeyLeq;
    if input.schemaVersion != CAPTURE_SCHEMA {
      return Err("unsupported bad case capture schema_version");
    }
    :- Need(IsArtifactId(input.badCaseId), "bad_case_id");
    :- Need(IsIdentity(input.title), "title");
    :- Need(IsValidSource(input.source), "source");
    :- Need(input.capturedAtMs != 0, "captured_at_ms must be greater than zero");
    var replay, paths := CleanReplay(input.replay, env.clean);
    var sorted := Sort(paths, KeyLeq);
    KeyOrder();
    SortIsCorrect(paths, KeyLeq);
    DedupIsExact(sorted);
    forall p ensures p in sorted <==> IsRecorded(input.replay, env.clean, p) {
      RecordedIff(input.replay, env.clean, p);
      assert p in sorted <==> p in multiset(sorted);
      assert p in paths <==> p in multiset(paths);
    }
    r := Ok(ArtifactOf(env, Record(
      RECORD_SCHEMA, input.badCaseId, input.capturedAtMs, input.capturedAtMs, input.category, input.severity,
      Captured, input.title, input.owner, input.source, replay, Dedup(sorted), ScanPasses(env, replay), [])));
  }

  method CleanReplay(replay: Replay, clean: Cleaner) returns (cleaned: Replay, paths: seq<string>)
    ensures cleaned == SanitizeReplay(replay, clean)
    ensures paths == ReplayPaths(replay, clean)
  {
    hide Sanitize, RedactedPaths;
    var log := new PathLog();
    var input := SanitizeValue(replay.input, "$.input", clean, log);
    var overrides := SanitizeValue(replay.runtimeOverrides, "$.runtime_overrides", clean, log);
    ghost var before := log.paths;
    var assertions: seq<Assertion> := [];
    for i := 0 to |replay.expectedAssertions|
      invariant |assertions| == i
      invariant forall k | 0 <= k < i :: assertions[k] == SanitizeAssertion(replay.expectedAssertions[k], clean)
      invariant log.paths == before + AssertionPaths(replay.expectedAssertions, i, clean)
    {
      var assertion := replay.expectedAssertions[i];
      var expected := SanitizeValue(assertion.expected, "$.expected_assertions.expected", clean, log);
      assertions := assertions + [assertion.(expected := expected)];
    }
    cleaned := Replay(input, overrides, assertions, replay.tags);
    paths := log.paths;
  }

  /** Input, overrides and the expected values are sanitised; tags and the rest of the assertions stay as they are. */
  ghost predicate IsSanitized(before: Replay, after: Replay, clean: Cleaner) {
    && after.input == Sanitize(before.input, clean)
    && after.runtimeOverrides == Sanitize(before.runtimeOverrides, clean)
    && after.tags == before.tags && |after.expectedAssertions| == |before.expectedAssertions|
    && forall i | 0 <= i < |before.expectedAssertions| ::
         var x, y := before.expectedAssertions[i], after.expectedAssertions[i];
         y.kind == x.kind && y.path == x.path && y.operator == x.operator && y.expected == Sanitize(x.expected, clean)
  }

  lemma {:induction false} InAssertionPaths(assertions: seq<Assertion>, n: nat, clean: Cleaner, p: string)
    requires n <= |assertions|
    ensures p in AssertionPaths(assertions, n, clean) <==> exists i | 0 <= i < n ::
      p in RedactedPaths(assertions[i].expected, "$.expected_assertions.expected", clean)
  {
    hide RedactedPaths;
    if n == 0 {
    } else {
      InAssertionPaths(assertions, n - 1, clean, p);
    }
  }

  /** A path below the input, the overrides or the expected value of an assertion. */
  ghost predicate IsRecorded(replay: Replay, clean: Cleaner, p: string) {
    || p in RedactedPaths(replay.input, "$.input", clean)
    || p in RedactedPaths(replay.runtimeOverrides, "$.runtime_overrides", clean)
    || exists i | 0 <= i < |replay.expectedAssertions| ::
         p in RedactedPaths(replay.expectedAssertions[i].expected, "$.expected_assertions.expected", clean)
  }

  lemma RecordedIff(replay: Replay, clean: Cleaner, p: string)
    ensures p in ReplayPaths(replay, clean) <==> IsRecorded(replay, clean, p)
  {
    hide RedactedPaths;
    InAssertionPaths(replay.expectedAssertions, |replay.expectedAssertions|, clean, p);
  }

  /** What a capture leaves: the sanitised replay, the scan's verdict on it, and no history. */
  ghost predicate IsFreshCapture(env: Env, input: CaptureInput, artifact: Artifact) {
    var record := artifact.record;
    && artifact == ArtifactOf(env, record)
    && record.schemaVersion == RECORD_SCHEMA && record.state == Captured && record.transitions == []
    && record.badCaseId == input.badCaseId && record.source == input.source && record.title == input.title
    && record.category == input.category && record.severity == input.severity && record.owner == input.owner
    && record.capturedAtMs == record.updatedAtMs == input.capturedAtMs
    && record.replay == SanitizeReplay(input.replay, env.clean)
    && IsSanitized(input.replay, record.replay, env.clean)
    && record.privacyScanPassed == ScanPasses(env, record.replay)
    && IsArtifactId(record.badCaseId) && IsValidSource(record.source)
  }

  // ----- when a capture passes its own scan

  lemma WordEndings(i: nat)
    requires i < |SENSITIVE_WORDS|
    ensures var w := SENSITIVE_WORDS[i];
      && |w| >= 5 && w[|w| - 1] in "ynebldt"
      && (w[|w| - 1] == 't' ==> |w| == 6)
      && (w[|w| - 1] == 'd' ==> |w| == 8 && w[0] == 'p')
  {
    var words := SENSITIVE_WORDS;
    assert words[0] == "api_key" && words[1] == "apikey" && words[2] == "authorization" && words[3] == "cookie";
    assert words[4] == "credential" && words[5] == "password" && words[6] == "private_key";
    assert words[7] == "refresh_token" && words[8] == "secret" && words[9] == "session_token" && words[10] == "token";
  }

  lemma EndsLike(low: string, word: string)
    requires low == word || EndsWith(low, "_" + word)
    ensures |low| >= |word| && low[|low| - |word|..] == word
  {
    if low != word {
      var tail := low[|low| - |word| - 1..];
      assert tail == "_" + word;
      assert low[|low| - |word|..] == tail[1..];
    }
  }

  /** A sensitive key ends like one of the words. */
  lemma SensitiveKeyEndings(key: string)
    requires SensitiveKey(key)
    ensures var low := LowerAscii(key);
      && |key| >= 5 && low[|key| - 1] in "ynebldt"
      && (low[|key| - 1] == 't' ==> |key| >= 6)
      && (low[|key| - 1] == 'd' ==> |key| >= 8 && low[|key| - 8] == 'p')
  {
    hide EndsWith;
    var low := LowerAscii(key);
    var i :| 0 <= i < |SENSITIVE_WORDS| && (low == SENSITIVE_WORDS[i] || EndsWith(low, "_" + SENSITIVE_WORDS[i]));
    WordEndings(i);
    EndingsFrom(low, SENSITIVE_WORDS[i]);
  }

  lemma EndingsFrom(low: string, w: string)
    requires low == w || EndsWith(low, "_" + w)
    requires |w| >= 5 && w[|w| - 1] in "ynebldt"
    requires (w[|w| - 1] == 't' ==> |w| == 6) && (w[|w| - 1] == 'd' ==> |w| == 8 && w[0] == 'p')
    ensures |low| >= 5 && low[|low| - 1] in "ynebldt"
    ensures low[|low| - 1] == 't' ==> |low| >= 6
    ensures low[|low| - 1] == 'd' ==> |low| >= 8 && low[|low| - 8] == 'p'
  {
    EndsLike(low, w);
    assert low[|low| - |w|..][|w| - 1] == low[|low| - 1];
    assert low[|low| - |w|..][0] == low[|low| - |w|];
  }

  lemma ReplayKeysAreHarmless()
    ensures !SensitiveKey("input") && !SensitiveKey("runtime_overrides")
    ensures !SensitiveKey("expected_assertions") && !SensitiveKey("tags")
    ensures !SensitiveKey("kind") && !SensitiveKey("path") && !SensitiveKey("operator") && !SensitiveKey("expected")
  {
    HarmlessKey("input");
    HarmlessKey("runtime_overrides");
    HarmlessKey("expected_assertions");
    HarmlessKey("tags");
    HarmlessKey("kind");
    HarmlessKey("path");
    HarmlessKey("operator");
    HarmlessKey("expected");
  }

  lemma HarmlessKey(key: string)
    requires key != [] && 'a' <= key[|key| - 1] <= 'z'
    requires |key| < 5 || key[|key| - 1] !in "ynebldt" || (key[|key| - 1] == 't' && |key| < 6)
             || (key[|key| - 1] == 'd' && (|key| < 8 || (key[|key| - 8] == 'e')))
    ensures !SensitiveKey(key)
  {
    assert LowerAscii(key)[|key| - 1] == key[|key| - 1];
    if |key| >= 8 {
      assert key[|key| - 8] == 'e' ==> LowerAscii(key)[|key| - 8] == 'e';
    }
    if SensitiveKey(key) {
      SensitiveKeyEndings(key);
    }
  }

  ghost predicate CleanText(env: Env, s: string) {
    env.clean(s) == s
  }

  /** Sanitising covers everything but the tags and the fixed parts of the assertions. */
  ghost predicate UnsanitizedPartsAreClean(env: Env, replay: Replay) {
    && (forall i | 0 <= i < |replay.tags| :: CleanText(env, replay.tags[i]))
    && forall i | 0 <= i < |replay.expectedAssertions| ::
         var a := replay.expectedAssertions[i];
         CleanText(env, a.kind) && CleanText(env, a.path) && CleanText(env, a.operator)
  }

  lemma AssertionScan(env: Env, assertion: Assertion)
    requires Settles(env.clean)
    ensures ContainsSensitive(AssertionValue(SanitizeAssertion(assertion, env.clean)), env.clean) <==>
      !(CleanText(env, assertion.kind) && CleanText(env, assertion.path) && CleanText(env, assertion.operator))
  {
    hide SensitiveKey, Sanitize;
    var fields := AssertionValue(SanitizeAssertion(assertion, env.clean)).fields;
    ReplayKeysAreHarmless();
    SanitizedIsClean(assertion.expected, env.clean);
    assert fields[0].value == Str(assertion.kind) && fields[1].value == Str(assertion.path);
    assert fields[2].value == Str(assertion.operator) && fields[3].value == Sanitize(assertion.expected, env.clean);
  }

  /** A captured case passes its scan exactly when the parts that are not sanitised were clean already. */
  lemma CaptureScanIff(env: Env, replay: Replay)
    requires Settles(env.clean)
    ensures ScanPasses(env, SanitizeReplay(replay, env.clean)) <==> UnsanitizedPartsAreClean(env, replay)
  {
    hide SensitiveKey, Sanitize, AssertionValue, Settles;
    var cleaned := SanitizeReplay(replay, env.clean);
    var fields := ReplayValue(cleaned).fields;
    ReplayKeysAreHarmless();
    SanitizedIsClean(replay.input, env.clean);
    SanitizedIsClean(replay.runtimeOverrides, env.clean);
    assert fields[0].value == cleaned.input && fields[1].value == cleaned.runtimeOverrides;
    AssertionsScan(env, replay.expectedAssertions, cleaned.expectedAssertions);
    TagsScan(env, replay.tags);
    assert fields[2].value == Arr(AssertionValues(cleaned.expectedAssertions));
    assert fields[3].value == Arr(TagValues(cleaned.tags));
    assert ContainsSensitive(ReplayValue(cleaned), env.clean) <==>
      ContainsSensitive(fields[2].value, env.clean) || ContainsSensitive(fields[3].value, env.clean);
  }

  lemma TagsScan(env: Env, tags: seq<string>)
    ensures ContainsSensitive(Arr(TagValues(tags)), env.clean) <==>
      !(forall i | 0 <= i < |tags| :: CleanText(env, tags[i]))
  {
    var values := TagValues(tags);
    assert forall i | 0 <= i < |tags| :: ContainsSensitive(values[i], env.clean) <==> !CleanText(env, tags[i]);
  }

  lemma AssertionsScan(env: Env, assertions: seq<Assertion>, cleaned: seq<Assertion>)
    requires Settles(env.clean) && |cleaned| == |assertions|
    requires forall i | 0 <= i < |cleaned| :: cleaned[i] == SanitizeAssertion(assertions[i], env.clean)
    ensures ContainsSensitive(Arr(AssertionValues(cleaned)), env.clean) <==>
      !(forall i | 0 <= i < |assertions| ::
          var a := assertions[i]; CleanText(env, a.kind) && CleanText(env, a.path) && CleanText(env, a.operator))
  {
    hide AssertionValue, Sanitize, Settles;
    var values := AssertionValues(cleaned);
    forall i | 0 <= i < |assertions|
      ensures ContainsSensitive(values[i], env.clean) <==>
        var a := assertions[i]; !(CleanText(env, a.kind) && CleanText(env, a.path) && CleanText(env, a.operator))
    {
      AssertionScan(env, assertions[i]);
    }
  }

  /** What cleaning does to one bearer token. */
  function CleanBearer(s: string): string {
    if s == "bearer abc" then PLACEHOLDER else s
  }

  /** A bearer token in a tag is enough: the capture fails its own scan, although it has been sanitised. */
  lemma CaptureCanFailItsScan(recordPrint: Record -> string, fixturePrint: Fixture -> string)
    ensures var env := Env(CleanBearer, recordPrint, fixturePrint);
      var replay := Replay(Null, Null, [], ["bearer abc"]);
      Settles(env.clean) && !ScanPasses(env, SanitizeReplay(replay, env.clean))
  {
    var env := Env(CleanBearer, recordPrint, fixturePrint);
    var replay := Replay(Null, Null, [], ["bearer abc"]);
    assert PLACEHOLDER[0] == '[' && "bearer abc"[0] == 'b';
    CaptureScanIff(env, replay);
    assert !CleanText(env, replay.tags[0]);
  }
}
