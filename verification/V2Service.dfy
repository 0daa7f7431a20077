/**
 * Execution of a review job by the v2 service: the store moves along the transition table while the peer runs
 * and the workspace is synchronized. Every awaited call may throw, and so may every save of a job record; the
 * store's maps are updated before a record is saved, so a failed save leaves the new state in place.
 */
module V2Service {
  import opened Options
  import opened Paths
  import opened Trees
  import opened IdSets
  import opened V2Gate
  import opened V2Series
  import opened V2SeriesInvariants
  import opened V2SeriesTheorems
  import opened V2SeriesRecords
  import opened V2SeriesStore
  import opened V2Snapshots
  import W = V2Workspace
  import Y = V2Sync
  import opened V2Executions

  datatype FailureClass = ProtocolClass | IsolationClass | ModelClass | RunnerClass

  datatype Answer =
    | EvidenceRequest
    | FinalReview(verdict: ReviewVerdict, reported: seq<Id>, repairs: bool)

  datatype PeerOutcome = Answered(answer: Answer) | Unsuccessful(class_: FailureClass)

  /** The awaited calls that can throw. */
  datatype Call = Prepare | RunPeer | CheckAnswer | CheckReview | RunTests | Render

  datatype Stop = Nowhere | During(call: Call) | Saving(state: JobState)

  /** What the environment answers during one execution, and where it throws. */
  datatype Script = Script(
    outcome: PeerOutcome,
    tests: seq<TestResult>,
    delta: bool,
    stop: Stop,
    error: ErrorCode,
    errorClass: FailureClass,
    fault: W.Fault,
    rollbackSaveFails: bool)

  /** The author's tree as it is when the synchronization starts. */
  datatype Scene = Scene(handle: Y.Handle, ids: FileIds, listing: seq<Identity>)

  const NOPATCH := Patch(None, None)

  function FailureGate(class_: FailureClass): GateResult {
    DeriveV2Gate(GateInput(None, class_ == ProtocolClass, class_ == IsolationClass, class_ == ModelClass, class_ == RunnerClass, [], false))
  }

  function Failure(class_: FailureClass, error: ErrorCode): Completion {
    Completion(JobState.Failed, false, Some(FailureGate(class_)), Some(error), None, None, None)
  }

  /** A request for evidence has no findings. */
  const EVIDENCE := Completion(AwaitingEvidence, false, Some(GateResult(NeedsChanges, ReviewerNeedsChanges, [])), None, Some([]), None, None)

  function AcceptedRound(answer: Answer, tests: seq<TestResult>, delta: bool): Completion
    requires answer.FinalReview?
  {
    Completion(Succeeded, true, Some(ReviewGate(Some(answer.verdict), tests, delta)), None, Some(answer.reported),
               Some(answer.verdict), if tests == [] then None else Some(tests))
  }

  lemma AnswersAreHonest(answer: Answer, tests: seq<TestResult>, delta: bool)
    ensures answer.EvidenceRequest? ==> Honest(EVIDENCE, tests)
    ensures answer.FinalReview? ==> Honest(AcceptedRound(answer, tests, delta), tests)
  {
    hide DeriveV2Gate;
  }

  lemma FailureIsHonest(class_: FailureClass, error: ErrorCode, tests: seq<TestResult>)
    ensures IsCompletion(Failure(class_, error)) && Honest(Failure(class_, error), tests)
  {
    hide FailureGate;
  }

  lemma FailureEnds(job: Job, input: Completion, workspaceMode: bool, sync: Option<Y.Outcome>)
    requires !input.acceptedRound && (input.state == JobState.Failed || (input.state == AwaitingEvidence && sync.None?))
    requires sync.Some? ==> workspaceMode
    ensures Ends(CompletedJob(job, input), workspaceMode, sync)
  {
    hide DeriveV2Gate;
  }

  lemma EvidenceEnds(job: Job, workspaceMode: bool)
    ensures Ends(CompletedJob(job, EVIDENCE), workspaceMode, None)
  {
    FailureEnds(job, EVIDENCE, workspaceMode, None);
  }

  lemma AcceptedEnds(job: Job, answer: Answer, tests: seq<TestResult>, delta: bool, workspaceMode: bool, sync: Option<Y.Outcome>)
    requires answer.FinalReview? && job.testResults == tests
    requires sync.Some? ==> workspaceMode && sync.value.Synced? && delta == sync.value.artifactDelta
    requires sync.Some? <==> workspaceMode && AllPassed(tests)
    ensures Ends(CompletedJob(job, AcceptedRound(answer, tests, delta)), workspaceMode, sync)
  {
    GatePassesExactly(GateInput(Some(answer.verdict), false, false, false, false, tests, delta));
    GatePassesExactly(GateInput(Some(answer.verdict), false, false, false, false, tests, false));
    hide DeriveV2Gate, AllPassed;
  }

  lemma AcceptedTests(job: Job, answer: Answer, tests: seq<TestResult>, delta: bool)
    requires answer.FinalReview? && job.testResults == tests
    ensures CompletedJob(job, AcceptedRound(answer, tests, delta)).testResults == tests
  {
    hide ReviewGate;
  }

  lemma TreeOfEndedJob(job: Job, b: Tree, w: Tree, t: Tree, mode: int, fault: W.Fault, workspaceMode: bool, sync: Option<Y.Outcome>)
    requires Ends(job, workspaceMode, sync) && TreeAfter(b, w, t, mode, fault, sync)
    ensures Vouched(job) ==> t == b
    ensures job.state == Succeeded ==> t == if workspaceMode && AllPassed(job.testResults) then w else b
  {
    hide W.RolledBack, AllPassed, ReviewGate;
  }

  lemma NothingTracked(start: Store, j: JobId)
    ensures Run(start, []) == start && Track([], j) == Some(Open(Queued, []))
  {
  }

  /** What is left in the author's tree, given how the synchronization ended, if it was reached. */
  ghost predicate TreeAfter(b: Tree, w: Tree, t: Tree, mode: int, fault: W.Fault, sync: Option<Y.Outcome>) {
    if sync.None? || sync.value.Drifted? || sync.value.OutOfScope? then t == b
    else if sync.value.Synced? then t == w && (!sync.value.artifactDelta ==> t == b)
    else t == W.RolledBack(b, sync.value.changedFiles, W.Struck(w, sync.value.changedFiles, mode, fault), mode)
  }

  /** How a job that is done relates to the synchronization it went through, if any. */
  ghost predicate Ends(job: Job, workspaceMode: bool, sync: Option<Y.Outcome>) {
    && (job.state == Succeeded ==> (workspaceMode && AllPassed(job.testResults) <==> sync.Some? && sync.value.Synced?))
    && (Vouched(job) ==> job.state == Succeeded && (sync.Some? && sync.value.Synced? ==> !sync.value.artifactDelta))
    && (sync.Some? && !sync.value.Synced? ==> job.state == JobState.Failed || job.state == AwaitingUserDecision)
    && (sync.Some? ==> workspaceMode)
  }

  // ---- How an execution ends ----

  function TestsOf(script: Script, workspaceMode: bool): seq<TestResult> {
    if workspaceMode then script.tests else []
  }

  /** The script throws before the peer has answered. */
  predicate StopsBeforePeer(script: Script, workspaceMode: bool) {
    || script.stop in {Saving(Dispatching), Saving(PeerRunning), During(RunPeer)}
    || (workspaceMode && script.stop in {During(Prepare), Saving(SealedJob)})
  }

  predicate StopsBeforeAnswer(script: Script, workspaceMode: bool) {
    StopsBeforePeer(script, workspaceMode) || script.stop in {During(CheckAnswer), Saving(ResultValidated)}
  }

  predicate StopsBeforeSync(script: Script, workspaceMode: bool) {
    || StopsBeforeAnswer(script, workspaceMode) || script.stop in {During(CheckReview), Saving(ValidationComplete)}
    || (TestsOf(script, workspaceMode) != [] && script.stop == During(RunTests))
  }

  predicate IsReview(script: Script) {
    script.outcome.Answered? && script.outcome.answer.FinalReview?
  }

  predicate PeerFails(script: Script, workspaceMode: bool) {
    script.outcome.Unsuccessful? && !StopsBeforePeer(script, workspaceMode)
  }

  predicate AsksForEvidence(script: Script, workspaceMode: bool) {
    && script.outcome.Answered? && script.outcome.answer.EvidenceRequest?
    && !StopsBeforeAnswer(script, workspaceMode) && !(workspaceMode && script.delta)
  }

  /** The workspace is synchronized after a review whose tests all passed. */
  predicate Synchronizes(script: Script, workspaceMode: bool) {
    IsReview(script) && !StopsBeforeSync(script, workspaceMode) && workspaceMode && AllPassed(script.tests)
  }

  /** A round is accepted: a review, nothing thrown, and the synchronization goes well when there is one. */
  predicate ReviewCompletes(script: Script, workspaceMode: bool, syncSucceeds: bool) {
    && IsReview(script) && !StopsBeforeSync(script, workspaceMode) && script.stop != During(Render)
    && (Synchronizes(script, workspaceMode) ==> syncSucceeds)
  }

  /** Whether the artifact changed: what was synchronized, else what the workspace or the answer held. */
  predicate ArtifactChanged(script: Script, workspaceMode: bool, changed: bool)
    requires IsReview(script)
  {
    if Synchronizes(script, workspaceMode) then changed else if workspaceMode then script.delta else script.outcome.answer.repairs
  }

  /** The completion an execution ends its job with. */
  function Ending(script: Script, workspaceMode: bool, syncSucceeds: bool, changed: bool): Completion {
    if ReviewCompletes(script, workspaceMode, syncSucceeds) then
      AcceptedRound(script.outcome.answer, TestsOf(script, workspaceMode), ArtifactChanged(script, workspaceMode, changed))
    else if AsksForEvidence(script, workspaceMode) then EVIDENCE
    else Failure(if PeerFails(script, workspaceMode) then script.outcome.class_ else script.errorClass, script.error)
  }

  /** A fault of the transaction that strikes when `count` files changed. */
  predicate Strikes(fault: W.Fault, count: nat) {
    match fault
    case NoFault => false
    case AtSealed => true
    case InStaging(i) => i < count
    case InBackup(i) => i < count
    case AfterUnlink(i) => i < count
    case AtReplace(i) => i < count
    case _ => count > 0
  }

  ghost predicate Changed(b: Tree, w: Tree) {
    W.ChangedPaths(ManifestOf(b), ManifestOf(w)) != {}
  }

  /** Every entry has a file identity. */
  ghost predicate Measured(b: Tree, scene: Scene) {
    scene.handle.baseline.Keys <= scene.handle.baselineIds.Keys && b.Keys <= scene.ids.Keys
  }

  /** The author's tree is as sealed, the peer changed only what it should, with the staged mode, and no fault strikes. */
  ghost predicate SyncSucceeds(b: Tree, w: Tree, scene: Scene, mode: int, fault: W.Fault)
    requires Measured(b, scene)
  {
    var changed := W.ChangedPaths(ManifestOf(b), ManifestOf(w));
    && Y.Unchanged(scene.handle, b, scene.ids)
    && W.OnlyRepairs(ManifestOf(b), ManifestOf(w), scene.handle.targets)
    && (forall p :: p in changed ==> p in w && w[p].mode == mode)
    && !Strikes(fault, |changed|)
  }

  /** The job and its series are completed with `input`; no other job and no other series changed since `start`. */
  ghost predicate EndedWith(start: Store, st: Store, j: JobId, input: Completion) {
    && j in start.jobs && start.jobs[j].key in start.series && j in st.jobs
    && st.jobs == start.jobs[j := st.jobs[j]]
    && st.series == start.series[start.jobs[j].key := CompletedSeries(start.series[start.jobs[j].key], start.jobs[j], input)]
    && var job, ended := start.jobs[j], st.jobs[j];
       && ended.state == CompletionState(job, input)
       && ended.gate == (if input.gate.Some? then input.gate else job.gate)
       && ended.error == (if input.error.Some? then input.error else job.error)
       && ended.findings == (if input.findings.Some? then input.findings.value else job.findings)
       && (input.review.Some? ==> ended.review == input.review)
       && (input.testResults.Some? ==> ended.testResults == input.testResults.value)
       && ended.request == job.request && ended.round == job.round && ended.attempt == job.attempt
  }

  /** Meanwhile only the job's progress, review and test results change. */
  ghost predicate UnderWay(start: Store, st: Store, j: JobId) {
    && j in start.jobs && start.jobs[j].key in start.series && j in st.jobs
    && st.series == start.series && st.jobs == start.jobs[j := st.jobs[j]]
    && st.jobs[j] == start.jobs[j].(state := st.jobs[j].state, history := st.jobs[j].history, review := st.jobs[j].review,
                                    testResults := st.jobs[j].testResults)
  }

  lemma MoveStaysUnderWay(start: Store, st: Store, op: Op)
    requires op.Transition? && UnderWay(start, st, op.jobId) && TransitionError(st, op.jobId, op.state).None?
    ensures UnderWay(start, Step(st, op), op.jobId)
  {
    hide TransitionError;
  }

  lemma FinishEnds(start: Store, st: Store, j: JobId, input: Completion)
    requires UnderWay(start, st, j) && CompleteError(st, j).None?
    ensures EndedWith(start, CompletedStore(st, j, input), j, input)
  {
    CompletionIgnoresProgress(start.series[start.jobs[j].key], start.jobs[j], st.jobs[j], input);
    hide CompletedSeries, CompletionState;
  }

  lemma CompletionIgnoresProgress(s: Series, job: Job, job': Job, input: Completion)
    requires job'.round == job.round && job'.attempt == job.attempt
    ensures CompletionState(job', input) == CompletionState(job, input) && CompletedSeries(s, job', input) == CompletedSeries(s, job, input)
  {
    hide SortedUnique;
  }

  class Service {
    const store: SeriesStore
    const disk: W.Transaction
    /** The store operations of the execution so far. */
    ghost var trace: seq<Op>

    constructor (store: SeriesStore, disk: W.Transaction)
      ensures this.store == store && this.disk == disk && trace == []
    {
      this.store, this.disk, trace := store, disk, [];
    }

    ghost predicate Tracking(start: Store, j: JobId, request: Request)
      reads this, store
    {
      && store.State() == Run(start, trace) && Inv(store.State())
      && (forall op :: op in trace ==> OnJob(op, j))
      && Track(trace, j).Some? && Follows(store.State(), j, Track(trace, j).value)
      && j in store.jobs && store.jobs[j].request == request
      && (Track(trace, j).value.Open? ==> UnderWay(start, store.State(), j))
    }

    ghost predicate At(j: JobId, state: JobState, tests: seq<TestResult>)
      reads this, store
    {
      Track(trace, j) == Some(Open(state, tests)) && j in store.jobs && store.jobs[j].testResults == tests
    }

    /** A transition the table allows; it is never rejected. */
    method Move(j: JobId, state: JobState, patch: Patch, ghost start: Store, ghost request: Request)
      requires Tracking(start, j, request) && Track(trace, j).value.Open?
      requires !IsTerminal(Track(trace, j).value.state) && state in AllowedTransitions(Track(trace, j).value.state)
      modifies this`trace, store
      ensures Tracking(start, j, request)
      ensures At(j, state, if patch.testResults.Some? then patch.testResults.value else old(Track(trace, j).value.tests))
    {
      hide Inv, Run, Track, Step, Follows, TransitionError, OnJob, IsTerminal, AllowedTransitions, UnderWay;
      ghost var op := Op.Transition(j, state, patch);
      ghost var c := Track(trace, j).value;
      MoveFacts(start, store.State(), trace, op, j, c);
      MoveStaysUnderWay(start, store.State(), op);
      var r := store.Transition(j, state, patch);
      assert r.Ok?;
      trace := trace + [op];
    }

    /** Ends the job; when it has ended already, the rejection is swallowed. */
    method Finish(j: JobId, input: Completion, ghost start: Store, ghost request: Request)
      requires Tracking(start, j, request)
      requires if Track(trace, j).value.Open? then Honest(input, Track(trace, j).value.tests) else IsCompletion(input)
      modifies this`trace, store
      ensures Tracking(start, j, request) && Track(trace, j) == Some(Closed)
      ensures old(Track(trace, j).value).Open? ==> store.jobs[j] == CompletedJob(old(store.jobs[j]), input)
      ensures old(Track(trace, j).value).Open? ==> EndedWith(start, store.State(), j, input)
      ensures old(Track(trace, j).value).Closed? ==> store.State() == old(store.State())
    {
      hide Inv, Run, Track, Step, Follows, CompleteError, OnJob, Honest, IsCompletion, CompletedJob, CompletionState, CompletedSeries,
           UnderWay, EndedWith, CompletedStore;
      ghost var op := Op.Complete(j, input);
      ghost var c := Track(trace, j).value;
      FinishFacts(start, store.State(), trace, op, j, c);
      if c.Open? {
        FinishEnds(start, store.State(), j, input);
      }
      var _ := store.Complete(j, input);
      trace := trace + [op];
    }

    /** The phase observer at work: one transition for every announced phase but the first. */
    method Observe(j: JobId, phases: seq<W.Phase>, tests: seq<TestResult>, ghost start: Store, ghost request: Request)
      requires Tracking(start, j, request) && At(j, ValidationComplete, tests) && LegalPath(ValidationComplete, phases)
      modifies this`trace, store
      ensures Tracking(start, j, request) && exists state :: At(j, state, tests)
    {
      hide Inv, Run, Track, Follows, OnJob, AllowedTransitions, UnderWay;
      ghost var state := ValidationComplete;
      assert phases[0..] == phases;
      for i := 0 to |phases|
        invariant Tracking(start, j, request) && At(j, state, tests) && LegalPath(state, phases[i..])
      {
        assert phases[i..][0] == phases[i] && phases[i..][1..] == phases[i + 1..];
        if phases[i] != W.Sealed {
          var next := StateOf(phases[i]).value;
          Move(j, next, NOPATCH, start, request);
          state := next;
        }
      }
    }

    /** The synchronization with the store as its observer. */
    method Synchronize(j: JobId, scene: Scene, fault: W.Fault, rollbackSaveFails: bool, tests: seq<TestResult>,
                       ghost start: Store, ghost request: Request, ghost before: (Path, Path) -> bool)
      returns (outcome: Y.Outcome)
      requires Tracking(start, j, request) && At(j, ValidationComplete, tests) && Ready(disk.target, disk.workspace, scene, before)
      modifies this`trace, store, disk
      ensures Tracking(start, j, request) && exists state :: At(j, state, tests)
      ensures TreeAfter(old(disk.target), disk.workspace, disk.target, disk.stagedMode, fault, Some(outcome))
      ensures Measured(old(disk.target), scene)
      ensures outcome.Synced? <==> SyncSucceeds(old(disk.target), disk.workspace, scene, disk.stagedMode, fault)
      ensures outcome.Synced? ==> outcome.artifactDelta == Changed(old(disk.target), disk.workspace)
    {
      hide *;
      ghost var b, w := disk.target, disk.workspace;
      ReadyIsMeasured(b, w, scene, before);
      var announced := |disk.phases|;
      SyncIsReady(b, w, scene, before);
      outcome := Y.Sync(scene.handle, disk, scene.ids, scene.listing, fault, rollbackSaveFails, before);
      SyncEnds(b, w, scene.handle.targets, disk.target, disk.stagedMode, fault, outcome, disk.phases[..announced], disk.phases);
      SyncGoesExactly(b, w, scene, disk.stagedMode, fault, outcome);
      Observe(j, disk.phases[announced..], tests, start, request);
    }

    /**
     * What the steps of an execution leave, whether or not one of them threw: the tree, a job that ended exactly when
     * the script says so, and then how.
     */
    ghost predicate Left(start: Store, j: JobId, script: Script, scene: Scene, mode: bool, b: Tree, sync: Option<Y.Outcome>)
      requires Measured(b, scene)
      reads this, store, disk
    {
      var goes := SyncSucceeds(b, disk.workspace, scene, disk.stagedMode, script.fault);
      && TreeAfter(b, disk.workspace, disk.target, disk.stagedMode, script.fault, sync)
      && (sync.Some? <==> Synchronizes(script, mode)) && (sync.Some? ==> (sync.value.Synced? <==> goes))
      && (Track(trace, j) == Some(Closed) <==>
            PeerFails(script, mode) || AsksForEvidence(script, mode) || ReviewCompletes(script, mode, goes))
      && (Track(trace, j) == Some(Closed) ==>
            && j in store.jobs && Ends(store.jobs[j], mode, sync)
            && EndedWith(start, store.State(), j, Ending(script, mode, goes, Changed(b, disk.workspace)))
            && (ReviewCompletes(script, mode, goes) ==> store.jobs[j].testResults == TestsOf(script, mode)))
    }

    /** The steps that may throw; when one does, the job is left for `Execute` to fail. */
    method Attempt(j: JobId, script: Script, scene: Scene, ghost start: Store, ghost request: Request,
                   ghost before: (Path, Path) -> bool)
      returns (thrown: bool, ghost sync: Option<Y.Outcome>)
      requires Tracking(start, j, request) && At(j, Queued, []) && Ready(disk.target, disk.workspace, scene, before)
      modifies this`trace, store, disk
      ensures Tracking(start, j, request) && (!thrown ==> Track(trace, j) == Some(Closed)) && Measured(old(disk.target), scene)
      ensures Left(start, j, script, scene, request.workspaceMode, old(disk.target), sync)
    {
      hide Inv, Run, Track, Follows, OnJob, AllowedTransitions, IsTerminal, Ready, TreeAfter, Ends, AcceptedRound, Step,
           FailedTests, AllPassed, CompletedJob, Honest, Measured, SyncSucceeds, Changed, UnderWay, EndedWith, FailureGate;
      sync := None;
      ReadyIsMeasured(disk.target, disk.workspace, scene, before);
      Untouched(disk.target, disk.workspace, disk.stagedMode, script.fault);
      Table();
      Move(j, Dispatching, NOPATCH, start, request);
      if script.stop == Saving(Dispatching) {
        return true, sync;
      }
      var workspaceMode := store.jobs[j].request.workspaceMode;
      if workspaceMode {
        if script.stop == During(Prepare) {
          return true, sync;
        }
        Move(j, SealedJob, NOPATCH, start, request);
        if script.stop == Saving(SealedJob) {
          return true, sync;
        }
      }
      Move(j, PeerRunning, NOPATCH, start, request);
      if script.stop == Saving(PeerRunning) || script.stop == During(RunPeer) {
        return true, sync;
      }
      if script.outcome.Unsuccessful? {
        ghost var job := store.jobs[j];
        Fail(j, script.outcome.class_, script.error, start, request);
        FailureEnds(job, Failure(script.outcome.class_, script.error), request.workspaceMode, sync);
        return script.stop == Saving(JobState.Failed), sync;
      }
      var answer := script.outcome.answer;
      if script.stop == During(CheckAnswer) {
        return true, sync;
      }
      Move(j, ResultValidated, Patch(if answer.FinalReview? then Some(answer.verdict) else None, None), start, request);
      if script.stop == Saving(ResultValidated) {
        return true, sync;
      }
      if answer.EvidenceRequest? {
        if workspaceMode && script.delta {
          return true, sync;
        }
        AnswersAreHonest(answer, [], false);
        ghost var asking := store.jobs[j];
        Finish(j, EVIDENCE, start, request);
        EvidenceEnds(asking, request.workspaceMode);
        return script.stop == Saving(AwaitingEvidence), sync;
      }
      thrown, sync := Conclude(j, script, scene, start, request, before);
    }

    /** The rest of it, for a final review: tests, synchronization, gate and rendering. */
    method Conclude(j: JobId, script: Script, scene: Scene, ghost start: Store, ghost request: Request,
                    ghost before: (Path, Path) -> bool)
      returns (thrown: bool, ghost sync: Option<Y.Outcome>)
      requires Tracking(start, j, request) && At(j, ResultValidated, []) && Ready(disk.target, disk.workspace, scene, before)
      requires IsReview(script) && !StopsBeforeAnswer(script, request.workspaceMode)
      modifies this`trace, store, disk
      ensures Tracking(start, j, request) && (!thrown ==> Track(trace, j) == Some(Closed)) && Measured(old(disk.target), scene)
      ensures Left(start, j, script, scene, request.workspaceMode, old(disk.target), sync)
    {
      hide Inv, Run, Track, Follows, OnJob, AllowedTransitions, IsTerminal, Ready, TreeAfter, Ends, AcceptedRound, Step,
           FailedTests, AllPassed, CompletedJob, Honest, Measured, SyncSucceeds, Changed, UnderWay, EndedWith, Failure,
           StopsBeforeAnswer;
      sync := None;
      ReadyIsMeasured(disk.target, disk.workspace, scene, before);
      Untouched(disk.target, disk.workspace, disk.stagedMode, script.fault);
      Table();
      var answer := script.outcome.answer;
      if script.stop == During(CheckReview) {
        return true, sync;
      }
      var workspaceMode := store.jobs[j].request.workspaceMode;
      var tests := if workspaceMode then script.tests else [];
      if tests != [] && script.stop == During(RunTests) {
        return true, sync;
      }
      Move(j, ValidationComplete, Patch(Some(answer.verdict), if tests == [] then None else Some(tests)), start, request);
      if script.stop == Saving(ValidationComplete) {
        return true, sync;
      }
      var artifactDelta := if workspaceMode then script.delta else answer.repairs;
      if workspaceMode && FailedTests(tests) == [] {
        var outcome := Synchronize(j, scene, script.fault, script.rollbackSaveFails, tests, start, request, before);
        sync := Some(outcome);
        if !outcome.Synced? {
          return true, sync;
        }
        artifactDelta := outcome.artifactDelta;
      }
      if script.stop == During(Render) {
        return true, sync;
      }
      AnswersAreHonest(answer, tests, artifactDelta);
      ghost var job := store.jobs[j];
      Finish(j, AcceptedRound(answer, tests, artifactDelta), start, request);
      AcceptedEnds(job, answer, tests, artifactDelta, request.workspaceMode, sync);
      AcceptedTests(job, answer, tests, artifactDelta);
      return script.stop == Saving(Succeeded), sync;
    }

    /** Completes the job as failed. */
    method Fail(j: JobId, class_: FailureClass, error: ErrorCode, ghost start: Store, ghost request: Request)
      requires Tracking(start, j, request)
      modifies this`trace, store
      ensures Tracking(start, j, request) && Track(trace, j) == Some(Closed)
      ensures old(Track(trace, j).value).Closed? ==> store.State() == old(store.State())
      ensures old(Track(trace, j).value).Open? ==> store.jobs[j] == CompletedJob(old(store.jobs[j]), Failure(class_, error))
      ensures old(Track(trace, j).value).Open? ==> EndedWith(start, store.State(), j, Failure(class_, error))
    {
      hide Inv, Run, Track, Follows, OnJob, Honest, IsCompletion, Failure, CompletedJob, UnderWay, EndedWith;
      FailureIsHonest(class_, error, if Track(trace, j).value.Open? then Track(trace, j).value.tests else []);
      Finish(j, Failure(class_, error), start, request);
    }

    /** One execution, from the queued job to its end. No transition is rejected, whatever throws. */
    method Execute(j: JobId, script: Script, scene: Scene, ghost before: (Path, Path) -> bool)
      returns (ghost sync: Option<Y.Outcome>)
      requires Inv(store.State()) && j in store.jobs && store.jobs[j].state == Queued && store.jobs[j].testResults == []
      requires Ready(disk.target, disk.workspace, scene, before) && trace == []
      modifies this`trace, store, disk
      ensures store.State() == Run(old(store.State()), trace) && Inv(store.State())
      ensures IsExecution(trace, j)
      ensures j in store.jobs && IsTerminal(store.jobs[j].state)
      ensures var b, w, t, job := old(disk.target), disk.workspace, disk.target, store.jobs[j];
        && TreeAfter(b, w, t, disk.stagedMode, script.fault, sync)
        && (Vouched(job) ==> t == b)
        && (job.state == Succeeded ==> t == if job.request.workspaceMode && AllPassed(job.testResults) then w else b)
      ensures Measured(old(disk.target), scene)
      ensures var mode := old(store.jobs[j].request.workspaceMode);
        var goes := SyncSucceeds(old(disk.target), disk.workspace, scene, disk.stagedMode, script.fault);
        && (sync.Some? <==> Synchronizes(script, mode)) && (sync.Some? ==> (sync.value.Synced? <==> goes))
        && EndedWith(old(store.State()), store.State(), j, Ending(script, mode, goes, Changed(old(disk.target), disk.workspace)))
        && (ReviewCompletes(script, mode, goes) ==> store.jobs[j].testResults == TestsOf(script, mode))
    {
      hide Inv, Run, Track, OnJob, Ready, TreeAfter, Ends, Step, Measured, SyncSucceeds, Changed, EndedWith, UnderWay, FailureGate,
           AcceptedRound;
      ghost var start, request := store.State(), store.jobs[j].request;
      ghost var b := disk.target;
      NothingTracked(start, j);
      StartsUnderWay(start, j);
      var thrown: bool;
      thrown, sync := Attempt(j, script, scene, start, request, before);
      if thrown {
        ghost var job := store.jobs[j];
        ghost var wasOpen := Track(trace, j).value.Open?;
        Fail(j, script.errorClass, script.error, start, request);
        if wasOpen {
          FailureEnds(job, Failure(script.errorClass, script.error), request.workspaceMode, sync);
        }
      }
      TreeOfEndedJob(store.jobs[j], b, disk.workspace, disk.target, disk.stagedMode, script.fault, request.workspaceMode, sync);
    }
  }

  lemma StartsUnderWay(start: Store, j: JobId)
    requires Inv(start) && j in start.jobs
    ensures UnderWay(start, start, j)
  {
    hide AllKeysFit;
  }

  /** The author's tree, the peer's workspace and the sealed baseline are what the snapshots say. */
  ghost predicate Ready(b: Tree, w: Tree, scene: Scene, before: (Path, Path) -> bool) {
    && WellFormed(b) && WellFormed(w)
    && scene.handle.baseline.Keys <= scene.handle.baselineIds.Keys && b.Keys <= scene.ids.Keys && StrictOrder(before)
    && IsSnapshot(scene.handle.listing, scene.handle.baseline, scene.handle.baselineIds, before)
    && IsSnapshot(scene.listing, b, scene.ids, before)
  }

  /** What the table allows an execution to do next. */
  lemma Table()
    ensures forall s :: s in [Queued, Dispatching, SealedJob, PeerRunning, ResultValidated, ValidationComplete] ==> !IsTerminal(s)
    ensures Dispatching in AllowedTransitions(Queued) && SealedJob in AllowedTransitions(Dispatching)
    ensures PeerRunning in AllowedTransitions(Dispatching) && PeerRunning in AllowedTransitions(SealedJob)
    ensures ResultValidated in AllowedTransitions(PeerRunning) && ValidationComplete in AllowedTransitions(ResultValidated)
  {
  }

  lemma Untouched(b: Tree, w: Tree, mode: int, fault: W.Fault)
    ensures TreeAfter(b, w, b, mode, fault, None)
  {
  }

  lemma SyncIsReady(b: Tree, w: Tree, scene: Scene, before: (Path, Path) -> bool)
    requires Ready(b, w, scene, before)
    ensures WellFormed(b) && WellFormed(w)
    ensures scene.handle.baseline.Keys <= scene.handle.baselineIds.Keys && b.Keys <= scene.ids.Keys && StrictOrder(before)
    ensures IsSnapshot(scene.handle.listing, scene.handle.baseline, scene.handle.baselineIds, before)
    ensures IsSnapshot(scene.listing, b, scene.ids, before)
  {
    hide WellFormed, StrictOrder, IsSnapshot;
  }

  lemma ReadyIsMeasured(b: Tree, w: Tree, scene: Scene, before: (Path, Path) -> bool)
    requires Ready(b, w, scene, before)
    ensures Measured(b, scene)
  {
    hide WellFormed, StrictOrder, IsSnapshot;
  }

  /** The outcome of a synchronization, in terms of the trees. */
  lemma SyncGoesExactly(b: Tree, w: Tree, scene: Scene, mode: int, fault: W.Fault, outcome: Y.Outcome)
    requires Measured(b, scene)
    requires outcome.Drifted? <==> !Y.Unchanged(scene.handle, b, scene.ids)
    requires outcome.OutOfScope? <==>
      Y.Unchanged(scene.handle, b, scene.ids) && !W.OnlyRepairs(ManifestOf(b), ManifestOf(w), scene.handle.targets)
    requires outcome.Synced? || outcome.Failed? ==>
      var changed := outcome.changedFiles;
      && W.Validated(b, w, scene.handle.targets, changed)
      && (outcome.Synced? <==> W.Struck(w, changed, mode, fault).NoFault?)
      && (outcome.Synced? ==> outcome.artifactDelta == (changed != []))
    ensures outcome.Synced? <==> SyncSucceeds(b, w, scene, mode, fault)
    ensures outcome.Synced? ==> outcome.artifactDelta == Changed(b, w)
  {
    hide Y.Unchanged, W.OnlyRepairs, W.Struck, W.ChangedPaths, WellFormed;
    if outcome.Synced? || outcome.Failed? {
      var changed := outcome.changedFiles;
      ElementsOfList(changed);
      StrikesExactly(w, changed, mode, fault);
      assert forall p :: p in changed <==> p in Elements(changed);
      hide Distinct;
    }
  }

  lemma {:induction false} ElementsOfList<T>(list: seq<T>)
    requires Distinct(list)
    ensures |Elements(list)| == |list| && (Elements(list) == {} <==> list == [])
  {
    if list != [] {
      var n := |list| - 1;
      ElementsOfList(list[..n]);
      assert list == list[..n] + [list[n]];
      assert Elements(list) == Elements(list[..n]) + {list[n]};
      assert list[n] !in list[..n];
    }
  }

  lemma StrikesExactly(w: Tree, changed: seq<Path>, mode: int, fault: W.Fault)
    ensures W.Struck(w, changed, mode, fault).NoFault? <==> !Strikes(fault, |changed|) && W.ModesMatch(w, changed, mode)
  {
  }

  lemma SyncEnds(b: Tree, w: Tree, targets: W.RepairTargets, t: Tree, mode: int, fault: W.Fault, outcome: Y.Outcome,
                 before: seq<W.Phase>, after: seq<W.Phase>)
    requires outcome.Drifted? || outcome.OutOfScope? ==> t == b && after == before
    requires outcome.Synced? || outcome.Failed? ==>
      var changed := outcome.changedFiles;
      var struck := W.Struck(w, changed, mode, fault);
      && W.Validated(b, w, targets, changed)
      && (outcome.Synced? <==> struck.NoFault?)
      && (outcome.Synced? ==> outcome.artifactDelta == (changed != []) && W.AllFiles(w, changed) && t == W.Patched(b, w, changed, mode))
      && (outcome.Failed? ==> t == W.RolledBack(b, changed, struck, mode))
      && after == before + W.PhaseTrace(|changed|, struck)
    ensures TreeAfter(b, w, t, mode, fault, Some(outcome))
    ensures before <= after && LegalPath(ValidationComplete, after[|before|..])
  {
    hide W.Validated, W.Struck, W.RolledBack, LegalPath, W.PhaseTrace;
    if outcome.Drifted? || outcome.OutOfScope? {
      assert after[|before|..] == [];
      EmptyPathIsLegal();
    } else {
      var changed := outcome.changedFiles;
      var struck := W.Struck(w, changed, mode, fault);
      EveryPhaseTraceIsLegal(|changed|, struck);
      assert after[|before|..] == W.PhaseTrace(|changed|, struck);
      if outcome.Synced? {
        Y.SuccessfulSyncEqualsTheWorkspace(b, w, targets, changed, fault, mode);
        assert changed == [] ==> W.Patched(b, w, changed, mode) == b;
      }
    }
  }

  lemma EmptyPathIsLegal()
    ensures LegalPath(ValidationComplete, [])
  {
  }

  lemma MoveFacts(start: Store, st: Store, trace: seq<Op>, op: Op, j: JobId, c: Cursor)
    requires st == Run(start, trace) && Inv(st) && (forall o :: o in trace ==> OnJob(o, j))
    requires Track(trace, j) == Some(c) && Follows(st, j, c)
    requires op.Transition? && op.jobId == j && c.Open? && !IsTerminal(c.state) && op.state in AllowedTransitions(c.state)
    ensures TransitionError(st, j, op.state).None? && Run(start, trace + [op]) == Step(st, op) && Inv(Step(st, op))
    ensures Track(trace + [op], j) == Some(Open(op.state, if op.patch.testResults.Some? then op.patch.testResults.value else c.tests))
    ensures Follows(Step(st, op), j, Track(trace + [op], j).value) && forall o :: o in trace + [op] ==> OnJob(o, j)
    ensures j in st.jobs && j in Step(st, op).jobs && Step(st, op).jobs[j].request == st.jobs[j].request
    ensures Step(st, op).jobs[j].testResults == if op.patch.testResults.Some? then op.patch.testResults.value else c.tests
  {
    hide *;
    OpenMove(st, op, j, c);
    RunStep(start, trace, op);
    TrackStep(trace, op, j);
    V2SeriesTheorems.StepKeepsInv(st, op);
    OwnStepFollows(st, op, j, c);
    MovedJob(st, op);
  }

  lemma OpenMove(st: Store, op: Op, j: JobId, c: Cursor)
    requires Follows(st, j, c) && op.Transition? && op.jobId == j && c.Open?
    requires !IsTerminal(c.state) && op.state in AllowedTransitions(c.state)
    ensures TransitionError(st, j, op.state).None? && j in st.jobs && OnJob(op, j) && Enabled(st, op) && st.jobs[j].testResults == c.tests
    ensures Next(c, op) == Some(Open(op.state, if op.patch.testResults.Some? then op.patch.testResults.value else c.tests))
  {
  }

  lemma MovedJob(st: Store, op: Op)
    requires op.Transition? && TransitionError(st, op.jobId, op.state).None?
    ensures op.jobId in Step(st, op).jobs && op.jobId in st.jobs
    ensures var job, job' := st.jobs[op.jobId], Step(st, op).jobs[op.jobId];
      && job'.request == job.request
      && job'.testResults == if op.patch.testResults.Some? then op.patch.testResults.value else job.testResults
  {
  }

  lemma FinishFacts(start: Store, st: Store, trace: seq<Op>, op: Op, j: JobId, c: Cursor)
    requires st == Run(start, trace) && Inv(st) && (forall o :: o in trace ==> OnJob(o, j))
    requires Track(trace, j) == Some(c) && Follows(st, j, c)
    requires op.Complete? && op.jobId == j
    requires if c.Open? then Honest(op.input, c.tests) else IsCompletion(op.input)
    ensures IsCompletion(op.input)
    ensures Run(start, trace + [op]) == Step(st, op) && Inv(Step(st, op)) && Track(trace + [op], j) == Some(Closed)
    ensures Follows(Step(st, op), j, Closed) && forall o :: o in trace + [op] ==> OnJob(o, j)
    ensures j in Step(st, op).jobs && Step(st, op).jobs[j] == if c.Open? then CompletedJob(st.jobs[j], op.input) else st.jobs[j]
    ensures Step(st, op).jobs[j].request == st.jobs[j].request
    ensures if c.Open? then CompleteError(st, j).None? && Step(st, op) == CompletedStore(st, j, op.input) else Step(st, op) == st
  {
    hide *;
    OpenFinish(st, op, j, c);
    RunStep(start, trace, op);
    TrackStep(trace, op, j);
    V2SeriesTheorems.StepKeepsInv(st, op);
    OwnStepFollows(st, op, j, c);
    FinishedJob(st, op, j, c);
  }

  lemma OpenFinish(st: Store, op: Op, j: JobId, c: Cursor)
    requires op.Complete? && op.jobId == j
    requires if c.Open? then Honest(op.input, c.tests) else IsCompletion(op.input)
    ensures IsCompletion(op.input) && OnJob(op, j) && Enabled(st, op) && Next(c, op) == Some(Closed)
  {
  }

  lemma FinishedJob(st: Store, op: Op, j: JobId, c: Cursor)
    requires Inv(st) && op.Complete? && op.jobId == j && Follows(st, j, c)
    ensures j in st.jobs && j in Step(st, op).jobs
    ensures Step(st, op).jobs[j] == if c.Open? then CompletedJob(st.jobs[j], op.input) else st.jobs[j]
    ensures Step(st, op).jobs[j].request == st.jobs[j].request
    ensures if c.Open? then CompleteError(st, j).None? && Step(st, op) == CompletedStore(st, j, op.input) else Step(st, op) == st
  {
    hide AllKeysFit, CompletedSeries;
  }

  lemma RunStep(start: Store, trace: seq<Op>, op: Op)
    ensures Run(start, trace + [op]) == Step(Run(start, trace), op)
  {
    assert (trace + [op])[..|trace|] == trace;
    hide Step;
  }

  // ---- What that means ----

  /** An ended execution accepts its round exactly when the review completes, and closes the series exactly by a pass. */
  lemma ExecutionsEndExactly(start: Store, st: Store, j: JobId, script: Script, mode: bool, goes: bool, changed: bool)
    requires Inv(start) && j in start.jobs && !IsTerminal(start.jobs[j].state)
    requires EndedWith(start, st, j, Ending(script, mode, goes, changed))
    ensures start.jobs[j].key in start.series && start.jobs[j].key in st.series
    ensures var job, ended, k := start.jobs[j], st.jobs[j], start.jobs[j].key;
      var accepted := ReviewCompletes(script, mode, goes);
      var passed := accepted && script.outcome.answer.verdict == ReviewPass && AllPassed(TestsOf(script, mode))
                    && !ArtifactChanged(script, mode, changed);
      && st.series[k].acceptedRounds == start.series[k].acceptedRounds + (if accepted then [job.round] else [])
      && (st.series[k].status == Completed <==> passed)
      && ended.state == (if accepted then (if job.round == 3 && !passed then AwaitingUserDecision else Succeeded)
                         else if job.attempt >= 2 then AwaitingUserDecision
                         else if AsksForEvidence(script, mode) then AwaitingEvidence else JobState.Failed)
      && (accepted ==> ended.review == Some(script.outcome.answer.verdict) && ended.findings == script.outcome.answer.reported)
      && (!accepted && !AsksForEvidence(script, mode) ==> ended.error == Some(script.error))
  {
    hide *;
    UnfinishedIsLatest(start, j);
    var end := Ending(script, mode, goes, changed);
    EndingsAre(script, mode, goes, changed);
    EndedSeries(start, st, j, end);
    RoundsGrow(start.series[start.jobs[j].key], start.jobs[j], end);
    CompletionDecides(start.series[start.jobs[j].key], start.jobs[j], end);
    EndedJob(start, st, j, end);
  }

  lemma EndedSeries(start: Store, st: Store, j: JobId, end: Completion)
    requires EndedWith(start, st, j, end)
    ensures j in start.jobs && start.jobs[j].key in start.series && j in st.jobs && start.jobs[j].key in st.series
    ensures st.series[start.jobs[j].key] == CompletedSeries(start.series[start.jobs[j].key], start.jobs[j], end)
  {
    hide CompletedSeries, CompletionState;
  }

  lemma EndedJob(start: Store, st: Store, j: JobId, end: Completion)
    requires EndedWith(start, st, j, end)
    ensures j in start.jobs && j in st.jobs
    ensures var job, ended := start.jobs[j], st.jobs[j];
      && ended.state == (if end.acceptedRound then (if job.round == 3 && !GatePasses(end.gate) then AwaitingUserDecision else end.state)
                         else if job.attempt >= 2 then AwaitingUserDecision else end.state)
      && (end.review.Some? ==> ended.review == end.review) && (end.findings.Some? ==> ended.findings == end.findings.value)
      && (end.error.Some? ==> ended.error == end.error)
  {
    hide CompletedSeries;
  }

  /** The three ways to end, exactly. */
  lemma EndingsAre(script: Script, mode: bool, goes: bool, changed: bool)
    ensures var end, accepted := Ending(script, mode, goes, changed), ReviewCompletes(script, mode, goes);
      && IsCompletion(end) && (end.acceptedRound <==> accepted)
      && (accepted ==> IsReview(script) && end.state == Succeeded && end.review == Some(script.outcome.answer.verdict))
      && (accepted ==> end.findings == Some(script.outcome.answer.reported))
      && (accepted ==> (GatePasses(end.gate) <==> (script.outcome.answer.verdict == ReviewPass
                                                     && AllPassed(TestsOf(script, mode)) && !ArtifactChanged(script, mode, changed))))
      && (!accepted ==> end.state == if AsksForEvidence(script, mode) then AwaitingEvidence else JobState.Failed)
      && (!accepted ==> end.findings == if AsksForEvidence(script, mode) then Some([]) else None)
      && (!accepted && !AsksForEvidence(script, mode) ==> end.error == Some(script.error))
  {
    if ReviewCompletes(script, mode, goes) {
      GatePassesExactly(GateInput(Some(script.outcome.answer.verdict), false, false, false, false, TestsOf(script, mode),
                                  ArtifactChanged(script, mode, changed)));
    }
    hide DeriveV2Gate, AllPassed;
  }
}
