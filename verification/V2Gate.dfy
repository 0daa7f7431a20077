/** The v2 gate: the verdict of a review round from the reviewer's verdict, the tests and the failures. */
module V2Gate {
  import opened Options

  datatype ReviewVerdict = ReviewPass | ReviewNeedsChanges | ReviewDisagreement

  datatype GateVerdict = Pass | NeedsChanges | Disagreement | GateFailed

  datatype GateReason =
    | ProtocolFailure
    | IsolationFailure
    | ModelFailure
    | RunnerFailure
    | SubstantiveDisagreement
    | TestFailure
    | ArtifactDelta
    | ReviewerNeedsChanges
    | Passed

  datatype TestResult = TestResult(command: string, passed: bool)

  datatype GateInput = GateInput(
    review: Option<ReviewVerdict>,
    protocolFailure: bool,
    isolationFailure: bool,
    modelFailure: bool,
    runnerFailure: bool,
    testResults: seq<TestResult>,
    artifactDelta: bool)

  datatype GateResult = GateResult(verdict: GateVerdict, reason: GateReason, failedTests: seq<string>)

  predicate AllPassed(tests: seq<TestResult>) {
    forall t | t in tests :: t.passed
  }

  function FailedTests(tests: seq<TestResult>): (failed: seq<string>)
    ensures failed == [] <==> AllPassed(tests)
    ensures forall c :: c in failed <==> exists t :: t in tests && !t.passed && t.command == c
  {
    if tests == [] then [] else
      assert tests == [tests[0]] + tests[1..];
      (if tests[0].passed then [] else [tests[0].command]) + FailedTests(tests[1..])
  }

  function DeriveV2Gate(input: GateInput): GateResult {
    var failedTests := FailedTests(input.testResults);
    if input.protocolFailure then GateResult(GateFailed, ProtocolFailure, failedTests)
    else if input.isolationFailure then GateResult(GateFailed, IsolationFailure, failedTests)
    else if input.modelFailure || input.review.None? then GateResult(GateFailed, ModelFailure, failedTests)
    else if input.runnerFailure then GateResult(GateFailed, RunnerFailure, failedTests)
    else if input.review.value == ReviewDisagreement then GateResult(Disagreement, SubstantiveDisagreement, failedTests)
    else if |failedTests| > 0 then GateResult(NeedsChanges, TestFailure, failedTests)
    else if input.artifactDelta then GateResult(NeedsChanges, ArtifactDelta, failedTests)
    else if input.review.value == ReviewNeedsChanges then GateResult(NeedsChanges, ReviewerNeedsChanges, failedTests)
    else GateResult(Pass, Passed, failedTests)
  }

  ghost predicate NoFailure(input: GateInput) {
    !input.protocolFailure && !input.isolationFailure && !input.modelFailure && !input.runnerFailure
  }

  /** The gate passes exactly when nothing failed, every test passed, nothing changed and the reviewer said pass. */
  lemma GatePassesExactly(input: GateInput)
    ensures DeriveV2Gate(input).verdict == Pass
       <==> NoFailure(input) && input.review == Some(ReviewPass) && AllPassed(input.testResults) && !input.artifactDelta
    ensures DeriveV2Gate(input).verdict == GateFailed <==> !NoFailure(input) || input.review.None?
    ensures DeriveV2Gate(input).verdict == Disagreement <==> NoFailure(input) && input.review == Some(ReviewDisagreement)
  {
    assert FailedTests(input.testResults) == [] <==> AllPassed(input.testResults);
  }

  /** Failures come first, then the reviewer's disagreement, the tests, the artifact, and the reviewer's other wishes. */
  lemma GateExplainsItself(input: GateInput)
    ensures DeriveV2Gate(input).failedTests == FailedTests(input.testResults)
    ensures DeriveV2Gate(input).verdict == GateFailed <==>
      DeriveV2Gate(input).reason in {ProtocolFailure, IsolationFailure, ModelFailure, RunnerFailure}
    ensures DeriveV2Gate(input).verdict == Disagreement <==> DeriveV2Gate(input).reason == SubstantiveDisagreement
    ensures DeriveV2Gate(input).verdict == Pass <==> DeriveV2Gate(input).reason == Passed
    ensures DeriveV2Gate(input).reason == ProtocolFailure <==> input.protocolFailure
    ensures DeriveV2Gate(input).reason == IsolationFailure <==> input.isolationFailure && !input.protocolFailure
    ensures DeriveV2Gate(input).reason == ModelFailure
       <==> (input.modelFailure || input.review.None?) && !input.protocolFailure && !input.isolationFailure
    ensures DeriveV2Gate(input).reason == RunnerFailure
       <==> input.runnerFailure && input.review.Some? && !input.protocolFailure && !input.isolationFailure && !input.modelFailure
    ensures DeriveV2Gate(input).reason == TestFailure
       <==> NoFailure(input) && input.review.Some? && input.review != Some(ReviewDisagreement) && !AllPassed(input.testResults)
    ensures DeriveV2Gate(input).reason == ArtifactDelta
       <==> NoFailure(input) && input.review.Some? && input.review != Some(ReviewDisagreement) && AllPassed(input.testResults)
            && input.artifactDelta
    ensures DeriveV2Gate(input).reason == ReviewerNeedsChanges
       <==> NoFailure(input) && input.review == Some(ReviewNeedsChanges) && AllPassed(input.testResults) && !input.artifactDelta
  {
    assert FailedTests(input.testResults) == [] <==> AllPassed(input.testResults);
  }
}
