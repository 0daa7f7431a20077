/**
 * The v2 series store as a state machine: compare-and-swap submission, at most three accepted rounds of at
 * most two attempts, completion, adjudication and crash recovery. Every operation runs under the lock of its
 * series and is one step here; `V2SeriesStore` holds the mutable store.
 */
module V2Series {
  import opened Options
  import opened Paths
  import opened IdSets
  import opened V2Gate

  type JobId = nat
  type SeriesKey = (string, string)
  /** The locked part of a request; its hash is injective, so it stands for its own hash. */
  type Contract = seq<string>

  datatype JobState =
    | Queued
    | Dispatching
    | SealedJob
    | PeerRunning
    | ResultValidated
    | ValidationComplete
    | SyncPreparedJob
    | Replacing
    | Verifying
    | RollingBack
    | Succeeded
    | Failed
    | AwaitingEvidence
    | AwaitingUserDecision

  datatype ErrorCode =
    | JobNotFound
    | SeriesCasInvalid
    | SeriesCompleted
    | SeriesUserDecisionRequired
    | SeriesCasMismatch
    | SeriesContractChanged
    | SeriesSuccessorConflict
    | SeriesAttemptsExhausted
    | JobTerminal
    | TransitionInvalid
    | StoreCorrupt
    | AdjudicationUnavailable
    | AdjudicationFindingsInvalid
    | AdjudicationFindingsIncomplete
    | AdjudicationDecisionMismatch
    | RecoveryRequired
    | ReviewFailed

  datatype Request = Request(
    key: SeriesKey,
    contract: Contract,
    seriesVersion: Option<nat>,
    latestJobId: Option<JobId>,
    workspaceMode: bool)

  datatype Decision = AcceptAuthor | AcceptReviewer | Mixed

  datatype Adjudication = Adjudication(decision: Decision, accepted: seq<Id>, rejected: seq<Id>)

  datatype Job = Job(
    key: SeriesKey,
    seriesVersion: nat,
    round: nat,
    attempt: nat,
    state: JobState,
    request: Request,
    history: seq<JobState>,
    successor: Option<JobId>,
    error: Option<ErrorCode>,
    gate: Option<GateResult>,
    findings: seq<Id>,
    review: Option<ReviewVerdict>,
    testResults: seq<TestResult>,
    adjudication: Option<Adjudication>)

  datatype SeriesStatus = Idle | Running | SeriesAwaitingUser | Completed

  datatype Series = Series(
    contract: Contract,
    latestJobId: JobId,
    seriesVersion: nat,
    acceptedRounds: seq<nat>,
    attemptsByRound: map<nat, nat>,
    status: SeriesStatus,
    adjudication: Option<Adjudication>)

  datatype Store = Store(jobs: map<JobId, Job>, series: map<SeriesKey, Series>)

  datatype Result<+T> = Ok(value: T) | Err(code: ErrorCode)

  predicate IsTerminal(s: JobState) {
    s == Succeeded || s == Failed || s == AwaitingEvidence || s == AwaitingUserDecision
  }

  function AllowedTransitions(s: JobState): set<JobState>
    requires !IsTerminal(s)
  {
    match s
    case Queued => {Dispatching}
    case Dispatching => {SealedJob, PeerRunning}
    case SealedJob => {PeerRunning}
    case PeerRunning => {ResultValidated}
    case ResultValidated => {ValidationComplete}
    case ValidationComplete => {SyncPreparedJob, RollingBack}
    case SyncPreparedJob => {Replacing, RollingBack}
    case Replacing => {Replacing, Verifying, RollingBack}
    case Verifying => {RollingBack}
    case RollingBack => {}
  }

  // ---- submit ----

  function AttemptsOf(s: Series, round: nat): nat {
    if round in s.attemptsByRound then s.attemptsByRound[round] else 0
  }

  function NextRound(s: Series): nat {
    |s.acceptedRounds| + 1
  }

  function SubmitError(st: Store, request: Request): Option<ErrorCode> {
    if request.key !in st.series then
      if request.seriesVersion.Some? || request.latestJobId.Some? then Some(SeriesCasInvalid) else None
    else
      var s := st.series[request.key];
      if s.status == Completed then Some(SeriesCompleted)
      else if s.status == SeriesAwaitingUser then Some(SeriesUserDecisionRequired)
      else if request.seriesVersion != Some(s.seriesVersion) || request.latestJobId != Some(s.latestJobId) then Some(SeriesCasMismatch)
      else if s.contract != request.contract then Some(SeriesContractChanged)
      else if s.latestJobId !in st.jobs then Some(JobNotFound)
      else if !IsTerminal(st.jobs[s.latestJobId].state) || st.jobs[s.latestJobId].successor.Some? then Some(SeriesSuccessorConflict)
      else if NextRound(s) > 3 || AttemptsOf(s, NextRound(s)) + 1 > 2 then Some(SeriesAttemptsExhausted)
      else None
  }

  function NewJob(request: Request, version: nat, round: nat, attempt: nat): Job {
    Job(request.key, version, round, attempt, Queued, request, [Queued], None, None, None, [], None, [], None)
  }

  /** The new job, linked from its predecessor, and the advanced series. */
  function Submitted(st: Store, request: Request, jobId: JobId): Store
    requires SubmitError(st, request).None?
  {
    if request.key !in st.series then
      Store(st.jobs[jobId := NewJob(request, 1, 1, 1)],
            st.series[request.key := Series(request.contract, jobId, 1, [], map[1 := 1], Running, None)])
    else
      var s := st.series[request.key];
      var round, attempt := NextRound(s), AttemptsOf(s, NextRound(s)) + 1;
      var linked := st.jobs[s.latestJobId := st.jobs[s.latestJobId].(successor := Some(jobId))];
      Store(linked[jobId := NewJob(request, s.seriesVersion + 1, round, attempt)],
            st.series[request.key := s.(latestJobId := jobId, seriesVersion := s.seriesVersion + 1,
                                        attemptsByRound := s.attemptsByRound[round := attempt], status := Running)])
  }

  // ---- transition ----

  datatype Patch = Patch(review: Option<ReviewVerdict>, testResults: Option<seq<TestResult>>)

  function TransitionError(st: Store, jobId: JobId, state: JobState): Option<ErrorCode> {
    if jobId !in st.jobs then Some(JobNotFound)
    else if IsTerminal(st.jobs[jobId].state) then Some(JobTerminal)
    else if state !in AllowedTransitions(st.jobs[jobId].state) then Some(TransitionInvalid)
    else None
  }

  function Transitioned(st: Store, jobId: JobId, state: JobState, patch: Patch): Store
    requires jobId in st.jobs
  {
    var job := st.jobs[jobId];
    st.(jobs := st.jobs[jobId := job.(
      state := state, history := job.history + [state],
      review := if patch.review.Some? then patch.review else job.review,
      testResults := if patch.testResults.Some? then patch.testResults.value else job.testResults)])
  }

  // ---- complete ----

  datatype Completion = Completion(
    state: JobState,
    acceptedRound: bool,
    gate: Option<GateResult>,
    error: Option<ErrorCode>,
    findings: Option<seq<Id>>,
    review: Option<ReviewVerdict>,
    testResults: Option<seq<TestResult>>)

  /** The three outcomes a caller may ask for. */
  predicate IsCompletion(input: Completion) {
    input.state == Succeeded || input.state == Failed || input.state == AwaitingEvidence
  }

  predicate GatePasses(gate: Option<GateResult>) {
    gate.Some? && gate.value.verdict == Pass
  }

  function CompletionState(job: Job, input: Completion): JobState {
    if (job.round == 3 && input.acceptedRound && !GatePasses(input.gate)) || (!input.acceptedRound && job.attempt >= 2)
    then AwaitingUserDecision else input.state
  }

  function CompletedJob(job: Job, input: Completion): Job {
    var state := CompletionState(job, input);
    job.(state := state, history := job.history + [state],
         gate := if input.gate.Some? then input.gate else job.gate,
         error := if input.error.Some? then input.error else job.error,
         findings := if input.findings.Some? then input.findings.value else job.findings,
         review := if input.review.Some? then input.review else job.review,
         testResults := if input.testResults.Some? then input.testResults.value else job.testResults)
  }

  function CompletedSeries(s: Series, job: Job, input: Completion): Series {
    s.(acceptedRounds := if input.acceptedRound then SortedUnique(s.acceptedRounds + [job.round]) else s.acceptedRounds,
       status := if CompletionState(job, input) == AwaitingUserDecision then SeriesAwaitingUser
                 else if input.acceptedRound && GatePasses(input.gate) then Completed else Idle)
  }

  function CompleteError(st: Store, jobId: JobId): Option<ErrorCode> {
    if jobId !in st.jobs then Some(JobNotFound)
    else if st.jobs[jobId].key !in st.series then Some(StoreCorrupt)
    else if IsTerminal(st.jobs[jobId].state) then Some(JobTerminal)
    else None
  }

  function CompletedStore(st: Store, jobId: JobId, input: Completion): Store
    requires CompleteError(st, jobId).None?
  {
    var job := st.jobs[jobId];
    Store(st.jobs[jobId := CompletedJob(job, input)],
          st.series[job.key := CompletedSeries(st.series[job.key], job, input)])
  }

  // ---- adjudicate ----

  function AdjudicateError(st: Store, jobId: JobId, a: Adjudication): Option<ErrorCode> {
    if jobId !in st.jobs then Some(JobNotFound)
    else if st.jobs[jobId].key !in st.series then Some(StoreCorrupt)
    else if st.jobs[jobId].state != AwaitingUserDecision || st.series[st.jobs[jobId].key].status != SeriesAwaitingUser
      then Some(AdjudicationUnavailable)
    else if !DecisionIsExclusive(a.accepted, a.rejected) then Some(AdjudicationFindingsInvalid)
    else if !DecisionIsComplete(st.jobs[jobId].findings, a.accepted, a.rejected) then Some(AdjudicationFindingsIncomplete)
    else if (a.decision == AcceptAuthor && a.accepted != []) || (a.decision == AcceptReviewer && a.rejected != [])
      then Some(AdjudicationDecisionMismatch)
    else None
  }

  function Adjudicated(st: Store, jobId: JobId, a: Adjudication): Store
    requires AdjudicateError(st, jobId, a).None?
  {
    var job := st.jobs[jobId];
    Store(st.jobs[jobId := job.(adjudication := Some(a))],
          st.series[job.key := st.series[job.key].(status := Idle, adjudication := Some(a))])
  }

  // ---- recovery ----

  const RECOVERY := Completion(Failed, false, None, Some(RecoveryRequired), None, None, None)

  predicate IsInterrupted(st: Store, jobId: JobId) {
    jobId in st.jobs && !IsTerminal(st.jobs[jobId].state)
  }

  /** Every interrupted job failed, its series settled accordingly. */
  function Recovered(st: Store): Store {
    Store(map j | j in st.jobs :: if IsTerminal(st.jobs[j].state) then st.jobs[j] else CompletedJob(st.jobs[j], RECOVERY),
          map k | k in st.series :: RecoveredSeries(st, st.series[k]))
  }

  function RecoveredSeries(st: Store, s: Series): Series {
    if IsInterrupted(st, s.latestJobId) then CompletedSeries(s, st.jobs[s.latestJobId], RECOVERY) else s
  }
}
