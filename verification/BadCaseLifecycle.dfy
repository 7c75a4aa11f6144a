/**
 What can become of a captured bad case (eval/src/bad_case.rs:51-63, 277-348), over every run of
 transitions and promotions, including the ones that are refused.
 */
module BadCaseLifecycle {
  import opened Prelude
  import opened BadCase
  import Json
  import Redaction

  predicate CanTransition(from: CaseState, to: CaseState) {
    || (from == Captured && to == Triaged)
    || (from == Triaged && to == FixtureReady)
    || (from == FixtureReady && to == Fixed)
    || (from == Fixed && to == Verified)
    || (from == Verified && to == Promoted)
    || to == Rejected
  }

  /** `transition_bad_case`. */
  function TransitionBadCase(
    env: Env, artifact: Artifact, next: CaseState, owner: string, note: string, atMs: nat): Result<Artifact>
  {
    var record := artifact.record;
    if !ArtifactIsValid(env, artifact) then Err("invalid bad case artifact")
    else if !IsIdentity(owner) then Err("owner must not be empty")
    else if atMs < record.updatedAtMs then Err("transition time must not move backwards")
    else if !CanTransition(record.state, next) then Err("invalid bad case transition")
    else if next != Rejected && !record.privacyScanPassed then
      Err("bad case cannot advance while privacy scan is failing")
    else
      Ok(ArtifactOf(env, record.(
        transitions := record.transitions + [Transition(record.state, next, atMs, owner, note)],
        state := next, owner := Some(owner), updatedAtMs := atMs)))
  }

  datatype Promotion = Promotion(artifact: Artifact, fixture: FixtureArtifact)

  /** `promote_bad_case_to_fixture`. */
  function PromoteBadCaseToFixture(
    env: Env, artifact: Artifact, fixtureId: string, datasetVersion: string, owner: string, atMs: nat)
    : Result<Promotion>
  {
    var record := artifact.record;
    if !ArtifactIsValid(env, artifact) then Err("invalid bad case artifact")
    else if record.state != Verified then Err("only a verified bad case can be promoted")
    else if record.replay.expectedAssertions == [] then
      Err("promotion requires at least one deterministic assertion")
    else if !IsArtifactId(fixtureId) then Err("fixture_id")
    else if !IsArtifactId(datasetVersion) then Err("dataset_version")
    else
      var promoted :- TransitionBadCase(env, artifact, Promoted, owner, "promoted", atMs);
      var fixture := Fixture(FIXTURE_SCHEMA, fixtureId, datasetVersion, atMs, record.badCaseId,
                             artifact.contentFingerprint, record.source, record.replay);
      Ok(Promotion(promoted, FixtureArtifact(FIXTURE_ARTIFACT_SCHEMA, env.fixturePrint(fixture), fixture)))
  }

  // ----- runs

  datatype Command =
    | Move(next: CaseState, owner: string, note: string, atMs: nat)
    | Promote(fixtureId: string, datasetVersion: string, owner: string, atMs: nat)

  /** A refused command leaves the artifact as it was. */
  function Apply(env: Env, artifact: Artifact, command: Command): Artifact {
    match command
    case Move(next, owner, note, atMs) =>
      (match TransitionBadCase(env, artifact, next, owner, note, atMs)
       case Ok(moved) => moved
       case Err(_) => artifact)
    case Promote(fixtureId, datasetVersion, owner, atMs) =>
      (match PromoteBadCaseToFixture(env, artifact, fixtureId, datasetVersion, owner, atMs)
       case Ok(promotion) => promotion.artifact
       case Err(_) => artifact)
  }

  function RunAll(env: Env, artifact: Artifact, commands: seq<Command>): Artifact {
    if commands == [] then artifact
    else Apply(env, RunAll(env, artifact, commands[..|commands| - 1]), commands[|commands| - 1])
  }

  // ----- the history

  ghost predicate IsChain(transitions: seq<Transition>, from: CaseState, to: CaseState) {
    && (transitions == [] ==> from == to)
    && (transitions != [] ==> transitions[0].from == from && transitions[|transitions| - 1].to == to)
    && (forall i | 0 <= i < |transitions| :: CanTransition(transitions[i].from, transitions[i].to))
    && forall i | 0 <= i < |transitions| - 1 :: transitions[i].to == transitions[i + 1].from
  }

  /** Times never move backwards, from the capture to the last update. */
  ghost predicate IsTimeline(transitions: seq<Transition>, capturedAtMs: nat, updatedAtMs: nat) {
    && (forall i | 0 <= i < |transitions| :: capturedAtMs <= transitions[i].atMs <= updatedAtMs)
    && (forall i, j | 0 <= i < j < |transitions| :: transitions[i].atMs <= transitions[j].atMs)
    && updatedAtMs == if transitions == [] then capturedAtMs else transitions[|transitions| - 1].atMs
  }

  /** What every artifact grown from `origin` looks like. */
  ghost predicate IsLawful(env: Env, origin: Record, artifact: Artifact) {
    var record := artifact.record;
    && artifact == ArtifactOf(env, record)
    && record == origin.(state := record.state, owner := record.owner, updatedAtMs := record.updatedAtMs,
                         transitions := record.transitions)
    && IsChain(record.transitions, Captured, record.state)
    && IsTimeline(record.transitions, record.capturedAtMs, record.updatedAtMs)
    && (forall i | 0 <= i < |record.transitions| :: IsIdentity(record.transitions[i].owner))
    && record.owner == if record.transitions == [] then origin.owner
                       else Some(record.transitions[|record.transitions| - 1].owner)
  }

  lemma ExtendHistory(transitions: seq<Transition>, step: Transition, from: CaseState, start: nat, now: nat)
    requires IsChain(transitions, from, step.from) && CanTransition(step.from, step.to)
    requires IsTimeline(transitions, start, now) && start <= now <= step.atMs
    ensures IsChain(transitions + [step], from, step.to)
    ensures IsTimeline(transitions + [step], start, step.atMs)
  {
    hide CanTransition;
  }

  lemma {:induction false} TransitionKeepsTheLaw(
    env: Env, origin: Record, artifact: Artifact, next: CaseState, owner: string, note: string, atMs: nat)
    requires IsLawful(env, origin, artifact)
    ensures var r := TransitionBadCase(env, artifact, next, owner, note, atMs);
      r.Ok? ==> IsLawful(env, origin, r.value)
  {
    hide ArtifactIsValid, IsIdentity, IsChain, IsTimeline, CanTransition;
    var record := artifact.record;
    var r := TransitionBadCase(env, artifact, next, owner, note, atMs);
    if r.Ok? {
      assert record.updatedAtMs >= record.capturedAtMs by { hide *; ValidTimes(env, artifact); }
      ExtendHistory(record.transitions, Transition(record.state, next, atMs, owner, note), Captured,
                    record.capturedAtMs, record.updatedAtMs);
    }
  }

  /**
   When a transition is granted and what it leaves: a valid case, an owner, a time that does not run back,
   and the next step forward or a rejection; the step is appended and nothing else about the case changes.
   */
  lemma TransitionIff(env: Env, artifact: Artifact, next: CaseState, owner: string, note: string, atMs: nat)
    ensures var r, record := TransitionBadCase(env, artifact, next, owner, note, atMs), artifact.record;
      && (r.Ok? <==>
            && ArtifactIsValid(env, artifact) && Trim(owner) != "" && record.updatedAtMs <= atMs
            && (next == Rejected ||
                (record.state, next) in [(Captured, Triaged), (Triaged, FixtureReady), (FixtureReady, Fixed),
                                         (Fixed, Verified), (Verified, Promoted)]))
      && (r.Ok? ==>
            && r.value.record == record.(state := next, owner := Some(owner), updatedAtMs := atMs,
                                         transitions := r.value.record.transitions)
            && r.value.record.transitions == record.transitions + [Transition(record.state, next, atMs, owner, note)]
            && r.value.schemaVersion == "openharness.bad_case.artifact.v1"
            && r.value.contentFingerprint == env.recordPrint(r.value.record))
  {
    hide Trim;
    assert ArtifactIsValid(env, artifact) ==> artifact.record.privacyScanPassed by {
      hide *;
      ValidInWords(env, artifact);
    }
    hide ArtifactIsValid;
  }

  lemma ValidTimes(env: Env, artifact: Artifact)
    requires ArtifactIsValid(env, artifact)
    ensures artifact.record.updatedAtMs >= artifact.record.capturedAtMs
  {}

  /** Over every run, the history is a contiguous chain in time order and the case itself never changes. */
  lemma {:induction false} RunsAreLawful(env: Env, input: CaptureInput, artifact: Artifact, commands: seq<Command>)
    requires IsFreshCapture(env, input, artifact)
    ensures IsLawful(env, artifact.record, RunAll(env, artifact, commands))
  {
    hide ArtifactIsValid, IsIdentity, IsArtifactId, TransitionBadCase, IsValidSource, ScanPasses;
    if commands == [] {
    } else {
      var earlier, command := commands[..|commands| - 1], commands[|commands| - 1];
      RunsAreLawful(env, input, artifact, earlier);
      var reached := RunAll(env, artifact, earlier);
      match command
      case Move(next, owner, note, atMs) =>
        TransitionKeepsTheLaw(env, artifact.record, reached, next, owner, note, atMs);
      case Promote(_, _, owner, atMs) =>
        TransitionKeepsTheLaw(env, artifact.record, reached, Promoted, owner, "promoted", atMs);
    }
  }

  const FORWARD: seq<CaseState> := [Triaged, FixtureReady, Fixed, Verified, Promoted]

  function Targets(transitions: seq<Transition>): (states: seq<CaseState>)
    ensures |states| == |transitions| && forall i | 0 <= i < |states| :: states[i] == transitions[i].to
  {
    seq(|transitions|, i requires 0 <= i < |transitions| => transitions[i].to)
  }

  function StateAfter(k: nat): CaseState
    requires k <= |FORWARD|
  {
    if k == 0 then Captured else FORWARD[k - 1]
  }

  /** `k` steps forward, then nothing but rejections. */
  ghost predicate IsForwardThenRejected(states: seq<CaseState>, k: nat) {
    && k <= |FORWARD| && k <= |states|
    && (forall i | 0 <= i < k :: states[i] == FORWARD[i])
    && forall i | k <= i < |states| :: states[i] == Rejected
  }

  lemma OnlyOneWayForward(k: nat, to: CaseState)
    requires k <= |FORWARD| && CanTransition(StateAfter(k), to) && to != Rejected
    ensures k < |FORWARD| && to == StateAfter(k + 1)
  {
    assert FORWARD[0] == Triaged && FORWARD[1] == FixtureReady && FORWARD[2] == Fixed;
    assert FORWARD[3] == Verified && FORWARD[4] == Promoted;
  }

  lemma ChainStep(transitions: seq<Transition>, from: CaseState, to: CaseState)
    requires IsChain(transitions, from, to) && transitions != []
    ensures var n := |transitions| - 1;
      && IsChain(transitions[..n], from, transitions[n].from) && CanTransition(transitions[n].from, to)
      && Targets(transitions) == Targets(transitions[..n]) + [to]
  {
    hide CanTransition;
    var n := |transitions| - 1;
    var earlier := transitions[..n];
    assert forall i | 0 <= i < n :: earlier[i] == transitions[i];
  }

  /** Any chain from `Captured` goes straight forward for a while and may then be rejected, for good. */
  lemma {:induction false} ChainShape(transitions: seq<Transition>, state: CaseState) returns (k: nat)
    requires IsChain(transitions, Captured, state)
    ensures IsForwardThenRejected(Targets(transitions), k)
    ensures state == if k < |transitions| then Rejected else StateAfter(k)
  {
    hide CanTransition;
    if transitions == [] {
      k := 0;
    } else {
      hide IsChain;
      var n := |transitions| - 1;
      ChainStep(transitions, Captured, state);
      k := ChainShape(transitions[..n], transitions[n].from);
      if state != Rejected {
        RejectedLeadsNowhere(transitions[n].from, state);
        OnlyOneWayForward(k, state);
        k := n + 1;
      }
    }
  }

  lemma RejectedLeadsNowhere(from: CaseState, to: CaseState)
    requires CanTransition(from, to) && to != Rejected
    ensures from != Rejected
  {}

  /** A case is promoted only by the five forward steps and nothing else. */
  lemma PromotedMeansFiveSteps(env: Env, input: CaptureInput, artifact: Artifact, commands: seq<Command>)
    requires IsFreshCapture(env, input, artifact)
    ensures var record := RunAll(env, artifact, commands).record;
      && (record.state == Promoted <==> Targets(record.transitions) == FORWARD)
      && (record.state != Rejected ==> |record.transitions| <= 5 && Rejected !in Targets(record.transitions))
  {
    hide IsFreshCapture, RunAll;
    RunsAreLawful(env, input, artifact, commands);
    var record := RunAll(env, artifact, commands).record;
    var k := ChainShape(record.transitions, record.state);
  }

  /** Once rejected, a case stays rejected; it may be rejected again. */
  lemma {:induction false} RejectedIsAbsorbing(env: Env, artifact: Artifact, commands: seq<Command>)
    requires artifact.record.state == Rejected
    ensures RunAll(env, artifact, commands).record.state == Rejected
  {
    hide ArtifactIsValid, IsIdentity, IsArtifactId;
    if commands == [] {
    } else {
      RejectedIsAbsorbing(env, artifact, commands[..|commands| - 1]);
    }
  }

  // ----- what the privacy scan decides

  /**
   The guard on the privacy flag in `transition_bad_case` comes too late to let a failing case be
   rejected: validation has refused the artifact before. An artifact can be changed by some command,
   rejection at the least, exactly when it is valid.
   */
  lemma ChangeableIffValid(env: Env, artifact: Artifact)
    ensures (exists command :: Apply(env, artifact, command) != artifact) <==>
      var record := artifact.record;
      && artifact.schemaVersion == "openharness.bad_case.artifact.v1"
      && record.schemaVersion == "openharness.bad_case.v1"
      && IsArtifactId(record.badCaseId) && IsValidSource(record.source)
      && record.capturedAtMs <= record.updatedAtMs
      && record.privacyScanPassed && !Redaction.ContainsSensitive(ReplayValue(record.replay), env.clean)
      && artifact.contentFingerprint == env.recordPrint(record)
  {
    ValidInWords(env, artifact);
    hide ArtifactIsValid, IsArtifactId;
    if ArtifactIsValid(env, artifact) {
      var command := Move(Rejected, "x", "", artifact.record.updatedAtMs);
      assert IsIdentity("x") by { assert TrimStart("x") == "x"; assert TrimEnd("x") == "x"; }
      assert |Apply(env, artifact, command).record.transitions| == |artifact.record.transitions| + 1;
      assert Apply(env, artifact, command) != artifact;
    }
  }

  lemma ValidInWords(env: Env, artifact: Artifact)
    ensures ArtifactIsValid(env, artifact) <==>
      var record := artifact.record;
      && artifact.schemaVersion == "openharness.bad_case.artifact.v1"
      && record.schemaVersion == "openharness.bad_case.v1"
      && IsArtifactId(record.badCaseId) && IsValidSource(record.source)
      && record.capturedAtMs <= record.updatedAtMs
      && record.privacyScanPassed && !Redaction.ContainsSensitive(ReplayValue(record.replay), env.clean)
      && artifact.contentFingerprint == env.recordPrint(record)
  {
    hide IsArtifactId, IsValidSource, ReplayValue;
  }

  /** Whatever can be reached from a capture that passed its scan is valid: it is never stuck. */
  lemma ReachableIsValid(env: Env, input: CaptureInput, artifact: Artifact, commands: seq<Command>)
    requires IsFreshCapture(env, input, artifact) && artifact.record.privacyScanPassed
    ensures ArtifactIsValid(env, RunAll(env, artifact, commands))
  {
    hide IsArtifactId, IsValidSource, ScanPasses, RunAll, IsChain, IsIdentity;
    RunsAreLawful(env, input, artifact, commands);
  }

  /** A capture that fails its scan is frozen: no run ever changes it. */
  lemma {:induction false} FailingScanIsFrozen(env: Env, artifact: Artifact, commands: seq<Command>)
    requires !artifact.record.privacyScanPassed
    ensures RunAll(env, artifact, commands) == artifact
  {
    hide IsArtifactId, IsValidSource, ScanPasses, IsIdentity;
    if commands == [] {
    } else {
      FailingScanIsFrozen(env, artifact, commands[..|commands| - 1]);
    }
  }

  /** The run that takes a case to `FORWARD[k - 1]`, all of it at one instant. */
  function StepsForward(k: nat, atMs: nat): seq<Command>
    requires k <= |FORWARD|
  {
    if k == 0 then [] else StepsForward(k - 1, atMs) + [Move(FORWARD[k - 1], "x", "", atMs)]
  }

  lemma ForwardStepWorks(env: Env, artifact: Artifact, k: nat)
    requires ArtifactIsValid(env, artifact) && 0 < k <= |FORWARD| && artifact.record.state == StateAfter(k - 1)
    ensures var moved := Apply(env, artifact, Move(FORWARD[k - 1], "x", "", artifact.record.updatedAtMs));
      moved.record.state == StateAfter(k) && moved.record.updatedAtMs == artifact.record.updatedAtMs
  {
    hide IsArtifactId, IsValidSource, ScanPasses;
    assert IsIdentity("x") by { assert TrimStart("x") == "x"; assert TrimEnd("x") == "x"; }
    assert CanTransition(StateAfter(k - 1), FORWARD[k - 1]);
  }

  /** What a capture starts with. */
  lemma FreshFacts(env: Env, input: CaptureInput, artifact: Artifact)
    requires IsFreshCapture(env, input, artifact)
    ensures artifact.record.replay == SanitizeReplay(input.replay, env.clean)
    ensures artifact.record.privacyScanPassed == ScanPasses(env, artifact.record.replay)
    ensures artifact.record.state == Captured && artifact.record.updatedAtMs == artifact.record.capturedAtMs
  {
    hide ScanPasses, SanitizeReplay;
  }

  lemma {:induction false} StepsForwardWork(env: Env, input: CaptureInput, artifact: Artifact, k: nat)
    requires IsFreshCapture(env, input, artifact) && artifact.record.privacyScanPassed && k <= |FORWARD|
    ensures var record := RunAll(env, artifact, StepsForward(k, artifact.record.capturedAtMs)).record;
      record.state == StateAfter(k) && record.updatedAtMs == artifact.record.capturedAtMs
  {
    hide ArtifactIsValid, IsFreshCapture, ScanPasses, Apply;
    FreshFacts(env, input, artifact);
    if k == 0 {
    } else {
      var at := artifact.record.capturedAtMs;
      var earlier := StepsForward(k - 1, at);
      assert StepsForward(k, at)[..|earlier|] == earlier;
      StepsForwardWork(env, input, artifact, k - 1);
      ReachableIsValid(env, input, artifact, earlier);
      ForwardStepWorks(env, RunAll(env, artifact, earlier), k);
    }
  }

  /**
   A captured case can leave `Captured`, and can get as far as `Promoted`, exactly when the parts that
   capturing does not sanitise were clean to begin with.
   */
  lemma PromotableIff(env: Env, input: CaptureInput, artifact: Artifact)
    requires Redaction.Settles(env.clean) && IsFreshCapture(env, input, artifact)
    ensures (exists commands :: RunAll(env, artifact, commands).record.state == Promoted)
            <==> UnsanitizedPartsAreClean(env, input.replay)
    ensures (exists commands :: RunAll(env, artifact, commands).record.state != Captured)
            <==> UnsanitizedPartsAreClean(env, input.replay)
  {
    hide RunAll, UnsanitizedPartsAreClean, ScanPasses, SanitizeReplay;
    CaptureScanIff(env, input.replay);
    if artifact.record.privacyScanPassed {
      StepsForwardWork(env, input, artifact, 5);
      assert RunAll(env, artifact, StepsForward(5, artifact.record.capturedAtMs)).record.state == Promoted;
    } else {
      forall commands ensures RunAll(env, artifact, commands).record.state == Captured {
        FailingScanIsFrozen(env, artifact, commands);
      }
    }
  }

  // ----- fixtures

  /** Every promoted fixture passes its own validator and carries the case it came from. */
  lemma PromotedFixtureIsValid(
    env: Env, artifact: Artifact, fixtureId: string, datasetVersion: string, owner: string, atMs: nat)
    ensures var r := PromoteBadCaseToFixture(env, artifact, fixtureId, datasetVersion, owner, atMs);
      r.Ok? ==>
        && FixtureIsValid(env, r.value.fixture)
        && r.value.fixture.fixture.replay == artifact.record.replay == r.value.artifact.record.replay
        && r.value.fixture.fixture.source == artifact.record.source
        && r.value.fixture.fixture.sourceBadCaseFingerprint == env.recordPrint(artifact.record)
        && r.value.fixture.fixture.sourceBadCaseId == artifact.record.badCaseId
        && r.value.fixture.fixture.fixtureId == fixtureId && IsArtifactId(fixtureId)
        && r.value.fixture.fixture.datasetVersion == datasetVersion && IsArtifactId(datasetVersion)
        && r.value.fixture.fixture.promotedAtMs == atMs == r.value.artifact.record.updatedAtMs
        && Ok(r.value.artifact) == TransitionBadCase(env, artifact, Promoted, owner, "promoted", atMs)
  {
    hide IsIdentity, IsArtifactId, IsValidSource, ScanPasses;
  }

  /**
   Promotion is the transition to `Promoted` guarded by two identifiers and by the assertions; calling
   the transition directly skips that guard.
   */
  lemma PromotionAddsOneGuard(
    env: Env, artifact: Artifact, fixtureId: string, datasetVersion: string, owner: string, atMs: nat)
    ensures PromoteBadCaseToFixture(env, artifact, fixtureId, datasetVersion, owner, atMs).Ok? <==>
      && IsArtifactId(fixtureId) && IsArtifactId(datasetVersion)
      && TransitionBadCase(env, artifact, Promoted, owner, "promoted", atMs).Ok?
      && artifact.record.replay.expectedAssertions != []
  {
    hide IsIdentity, IsArtifactId, ArtifactIsValid;
  }

  ghost predicate YieldsFixture(env: Env, artifact: Artifact) {
    exists fixtureId, datasetVersion, owner, atMs ::
      PromoteBadCaseToFixture(env, artifact, fixtureId, datasetVersion, owner, atMs).Ok?
  }

  /**
   So "promoted" does not mean "has a fixture": some run of a capture yields a fixture exactly when the
   unsanitised parts are clean and there is an assertion, while the first condition alone makes it promotable.
   */
  lemma FixtureReachableIff(env: Env, input: CaptureInput, artifact: Artifact)
    requires Redaction.Settles(env.clean) && IsFreshCapture(env, input, artifact)
    ensures (exists commands :: YieldsFixture(env, RunAll(env, artifact, commands)))
            <==> UnsanitizedPartsAreClean(env, input.replay) && input.replay.expectedAssertions != []
  {
    hide RunAll, UnsanitizedPartsAreClean, ScanPasses, IsFreshCapture;
    assert artifact.record.replay == SanitizeReplay(input.replay, env.clean)
      && artifact.record.privacyScanPassed == ScanPasses(env, artifact.record.replay)
    by {
      FreshFacts(env, input, artifact);
    }
    CaptureScanIff(env, input.replay);
    forall commands | YieldsFixture(env, RunAll(env, artifact, commands))
      ensures artifact.record.privacyScanPassed && input.replay.expectedAssertions != []
    {
      RunsAreLawful(env, input, artifact, commands);
      assert RunAll(env, artifact, commands).record.replay == artifact.record.replay;
    }
    if artifact.record.privacyScanPassed && input.replay.expectedAssertions != [] {
      VerifiedYieldsFixture(env, input, artifact);
    }
  }

  lemma VerifiedYieldsFixture(env: Env, input: CaptureInput, artifact: Artifact)
    requires IsFreshCapture(env, input, artifact) && artifact.record.privacyScanPassed
    requires artifact.record.replay.expectedAssertions != []
    ensures exists commands :: YieldsFixture(env, RunAll(env, artifact, commands))
  {
    hide RunAll, ScanPasses, IsFreshCapture, ArtifactIsValid, PromoteBadCaseToFixture, StepsForward;
    var at := artifact.record.capturedAtMs;
    var commands := StepsForward(4, at);
    StepsForwardWork(env, input, artifact, 4);
    ReachableIsValid(env, input, artifact, commands);
    RunsAreLawful(env, input, artifact, commands);
    var reached := RunAll(env, artifact, commands);
    VerifiedIsPromoted(env, reached);
    assert YieldsFixture(env, reached);
  }

  lemma VerifiedIsPromoted(env: Env, artifact: Artifact)
    requires ArtifactIsValid(env, artifact) && artifact.record.state == Verified
    requires artifact.record.replay.expectedAssertions != []
    ensures PromoteBadCaseToFixture(env, artifact, "x", "x", "x", artifact.record.updatedAtMs).Ok?
  {
    hide IsValidSource, ScanPasses;
    assert IsIdentity("x") by { assert TrimStart("x") == "x"; assert TrimEnd("x") == "x"; }
  }

  /** Such a case: captured without assertions, promoted, and never the source of a fixture. */
  lemma PromotedWithoutAFixture() returns (env: Env, input: CaptureInput, artifact: Artifact)
    ensures IsFreshCapture(env, input, artifact)
    ensures exists commands :: RunAll(env, artifact, commands).record.state == Promoted
    ensures !exists commands :: YieldsFixture(env, RunAll(env, artifact, commands))
  {
    hide RunAll, YieldsFixture, Redaction.Sanitize, ScanPasses;
    env := Env(s => s, _ => "", _ => "");
    var hex := seq(64, _ => '1');
    var source := Source("x", "x", seq(32, _ => '1'), hex, Versions("x", "x", "x", "x", "x", hex), "", "");
    var replay := Replay(Json.Null, Json.Null, [], []);
    input := CaptureInput(CAPTURE_SCHEMA, "x", 1, OtherCategory, Low, "x", None, source, replay);
    var cleaned := SanitizeReplay(replay, env.clean);
    artifact := ArtifactOf(env, Record(RECORD_SCHEMA, "x", 1, 1, OtherCategory, Low, Captured, "x", None, source,
                                       cleaned, [], ScanPasses(env, cleaned), []));
    assert IsIdentity("x") by { assert TrimStart("x") == "x"; assert TrimEnd("x") == "x"; }
    assert hex[0] == '1' && source.traceId[0] == '1';
    PromotableIff(env, input, artifact);
    FixtureReachableIff(env, input, artifact);
  }
}
