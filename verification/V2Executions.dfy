/**
 * Executions of the v2 service, interleaved. An execution is a sequence of store operations on its own job; a
 * service run is any interleaving of executions with submissions and adjudications.
 */
module V2Executions {
  import opened Options
  import opened Paths
  import opened IdSets
  import opened V2Gate
  import opened V2Series
  import opened V2SeriesInvariants
  import opened V2SeriesTheorems
  import opened V2Workspace

  // ---- The phases of a synchronization are transitions ----

  /** The observer moves the job on every phase but the first, which is the state the job is in already. */
  function StateOf(phase: Phase): Option<JobState> {
    match phase
    case Sealed => None
    case SyncPrepared => Some(SyncPreparedJob)
    case Replace => Some(Replacing)
    case Verify => Some(Verifying)
    case Rollback => Some(RollingBack)
  }

  predicate LegalPath(from: JobState, phases: seq<Phase>)
    decreases |phases|
  {
    phases == [] ||
    if phases[0] == Sealed then LegalPath(from, phases[1..])
    else !IsTerminal(from) && StateOf(phases[0]).value in AllowedTransitions(from) && LegalPath(StateOf(phases[0]).value, phases[1..])
  }

  lemma {:induction false} ReplacementsAreLegal(n: nat, rest: seq<Phase>)
    requires LegalPath(Replacing, rest) && (n == 0 ==> LegalPath(SyncPreparedJob, rest))
    ensures LegalPath(SyncPreparedJob, Repeat(Replace, n) + rest)
    decreases n
  {
    if n == 0 {
      assert Repeat(Replace, 0) + rest == rest;
    } else {
      assert Repeat(Replace, n) + rest == Repeat(Replace, n - 1) + ([Replace] + rest);
      assert ([Replace] + rest)[1..] == rest;
      ReplacementsAreLegal(n - 1, [Replace] + rest);
      assert LegalPath(SyncPreparedJob, Repeat(Replace, n - 1) + ([Replace] + rest));
    }
  }

  /** Every trace a synchronization can emit, for any number of files and any fault, is a path of the table. */
  lemma EveryPhaseTraceIsLegal(count: nat, fault: Fault)
    ensures LegalPath(ValidationComplete, PhaseTrace(count, fault))
  {
    var trace := PhaseTrace(count, fault);
    var end: seq<Phase> := if fault.NoFault? then [] else [Rollback];
    assert end != [] ==> end[1..] == [];
    assert LegalPath(ValidationComplete, end) && LegalPath(SyncPreparedJob, end) && LegalPath(Replacing, end) && LegalPath(Verifying, end);
    if fault.AtSealed? || count == 0 || fault.InStaging? {
      assert trace == [Sealed] + end && trace[1..] == end;
    } else if fault.AtPrepared? {
      assert trace[1..] == [SyncPrepared] + end && trace[1..][1..] == end;
    } else {
      var n := ReplacedCount(count, fault);
      var rest := (if fault.NoFault? || fault.AtVerify? || fault.InCleanup? then [Verify] else []) + end;
      assert trace[1..] == [SyncPrepared] + (Repeat(Replace, n) + rest);
      assert trace[1..][1..] == Repeat(Replace, n) + rest;
      if fault.NoFault? || fault.AtVerify? || fault.InCleanup? {
        assert rest[1..] == end;
      } else {
        assert rest == end;
      }
      ReplacementsAreLegal(n, rest);
    }
  }

  // ---- Executions ----

  /** Where an execution stands: the state and test results of its unfinished job, or done with it. */
  datatype Cursor = Open(state: JobState, tests: seq<TestResult>) | Closed

  function ReviewGate(review: Option<ReviewVerdict>, tests: seq<TestResult>, artifactDelta: bool): GateResult {
    DeriveV2Gate(GateInput(review, false, false, false, false, tests, artifactDelta))
  }

  /** A round is accepted with the gate derived from its own review and tests; a failed one carries no passing gate. */
  ghost predicate Honest(input: Completion, tests: seq<TestResult>) {
    && IsCompletion(input)
    && (input.acceptedRound <==> input.state == Succeeded)
    && (input.testResults.Some? ==> input.testResults.value == tests)
    && (input.acceptedRound ==> input.review.Some? && exists delta :: input.gate == Some(ReviewGate(input.review, tests, delta)))
  }

  ghost function Next(c: Cursor, op: Op): Option<Cursor> {
    match op
    case Transition(_, state, patch) =>
      if c.Open? && !IsTerminal(c.state) && state in AllowedTransitions(c.state)
      then Some(Open(state, if patch.testResults.Some? then patch.testResults.value else c.tests))
      else None
    case Complete(_, input) =>
      if c.Closed? then (if IsCompletion(input) then Some(Closed) else None)
      else if Honest(input, c.tests) then Some(Closed) else None
    case _ => None
  }

  predicate OnJob(op: Op, j: JobId) {
    (op.Transition? || op.Complete?) && op.jobId == j
  }

  const START := Open(Queued, [])

  /** The cursor of the execution of job `j` after `ops`; None when its operations do not form an execution. */
  ghost function Track(ops: seq<Op>, j: JobId): Option<Cursor> {
    if ops == [] then Some(START)
    else
      var c, op := Track(ops[..|ops| - 1], j), ops[|ops| - 1];
      if !OnJob(op, j) || c.None? then c else Next(c.value, op)
  }

  // ---- Interleavings ----

  /** The service moves and completes only jobs submitted in this run, and recovers only before it. */
  predicate ServiceEnabled(start: Store, st: Store, op: Op) {
    match op
    case Submit(_, jobId) => jobId !in st.jobs
    case Transition(j, _, _) => j in st.jobs && j !in start.jobs
    case Complete(j, input) => j in st.jobs && j !in start.jobs && IsCompletion(input)
    case Adjudicate(_, _) => true
    case Recover => false
  }

  ghost predicate ServiceRun(start: Store, ops: seq<Op>) {
    && (forall i :: 0 <= i < |ops| ==> ServiceEnabled(start, Run(start, ops[..i]), ops[i]))
    && (forall j :: Track(ops, j).Some?)
  }

  /** The job record agrees with the cursor of its execution. */
  predicate Follows(st: Store, j: JobId, c: Cursor) {
    && j in st.jobs
    && (c.Open? ==> !IsTerminal(st.jobs[j].state) && st.jobs[j].state == c.state && st.jobs[j].testResults == c.tests)
    && (c.Closed? ==> IsTerminal(st.jobs[j].state))
  }

  ghost predicate AllFollow(start: Store, st: Store, ops: seq<Op>) {
    && (forall j :: j in start.jobs ==> j in st.jobs && IsTerminal(st.jobs[j].state))
    && (forall j :: j in st.jobs && j !in start.jobs ==> Track(ops, j).Some? && Follows(st, j, Track(ops, j).value))
    && (forall j :: j !in st.jobs ==> Track(ops, j) == Some(START))
  }

  /** A job that ended with a passing review, every test passed and nothing left to synchronize. */
  predicate Vouched(job: Job) {
    && job.state == Succeeded && job.review == Some(ReviewPass) && AllPassed(job.testResults)
    && job.gate == Some(ReviewGate(job.review, job.testResults, false))
  }

  ghost predicate CompletionsVouched(st: Store) {
    forall k :: k in st.series && st.series[k].status == Completed
      ==> st.series[k].latestJobId in st.jobs && Vouched(st.jobs[st.series[k].latestJobId])
  }

  ghost predicate Settles(start: Store) {
    Inv(start) && CompletionsVouched(start) && forall j :: j in start.jobs ==> IsTerminal(start.jobs[j].state)
  }

  /** An operation elsewhere changes neither the progress of a job nor its verdict, whatever else it does. */
  predicate SameProgress(a: Job, b: Job) {
    a.state == b.state && a.testResults == b.testResults && a.review == b.review && a.gate == b.gate && a.key == b.key
  }

  lemma StepKeepsOtherJobs(st: Store, op: Op, j: JobId)
    requires j in st.jobs && !OnJob(op, j) && !op.Recover? && Enabled(st, op)
    ensures j in Step(st, op).jobs && SameProgress(st.jobs[j], Step(st, op).jobs[j])
  {
    hide SubmitError, TransitionError, DecisionIsExclusive, DecisionIsComplete, CompletedJob, CompletedSeries;
  }

  lemma StepAddsOnlySubmitted(st: Store, op: Op, j: JobId)
    requires j !in st.jobs && j in Step(st, op).jobs
    ensures op.Submit? && op.newJobId == j && Step(st, op).jobs[j].state == Queued && Step(st, op).jobs[j].testResults == []
  {
    hide CompletedJob, CompletedSeries, DecisionIsExclusive, DecisionIsComplete;
  }

  lemma OwnStepFollows(st: Store, op: Op, j: JobId, c: Cursor)
    requires Inv(st) && Follows(st, j, c) && OnJob(op, j) && Next(c, op).Some?
    ensures Follows(Step(st, op), j, Next(c, op).value)
    ensures c.Open? ==> Accepted(st, op)
  {
    hide KeyFits;
  }

  lemma StepFollows(start: Store, st: Store, ops: seq<Op>, op: Op)
    requires Inv(st) && AllFollow(start, st, ops) && ServiceEnabled(start, st, op)
    requires forall j :: Track(ops + [op], j).Some?
    ensures AllFollow(start, Step(st, op), ops + [op])
  {
    hide *;
    var st', ops' := Step(st, op), ops + [op];
    forall j
      ensures j in start.jobs ==> j in st'.jobs && IsTerminal(st'.jobs[j].state)
      ensures j in st'.jobs && j !in start.jobs ==> Follows(st', j, Track(ops', j).value)
      ensures j !in st'.jobs ==> Track(ops', j) == Some(START)
    {
      assert Track(ops', j).Some?;
      FollowsAt(start, st, ops, op, j);
    }
    AllFollowIf(start, st', ops');
  }

  lemma AllFollowIf(start: Store, st: Store, ops: seq<Op>)
    requires forall j :: j in start.jobs ==> j in st.jobs && IsTerminal(st.jobs[j].state)
    requires forall j :: j in st.jobs && j !in start.jobs ==> Track(ops, j).Some? && Follows(st, j, Track(ops, j).value)
    requires forall j :: j !in st.jobs ==> Track(ops, j) == Some(START)
    ensures AllFollow(start, st, ops)
  {
    hide Track, Follows, IsTerminal;
  }

  lemma FollowsAt(start: Store, st: Store, ops: seq<Op>, op: Op, j: JobId)
    requires Inv(st) && AllFollow(start, st, ops) && ServiceEnabled(start, st, op) && Track(ops + [op], j).Some?
    ensures j in start.jobs ==> j in Step(st, op).jobs && IsTerminal(Step(st, op).jobs[j].state)
    ensures j in Step(st, op).jobs && j !in start.jobs ==> Follows(Step(st, op), j, Track(ops + [op], j).value)
    ensures j !in Step(st, op).jobs ==> Track(ops + [op], j) == Some(START)
  {
    EnabledForService(start, st, op);
    TrackStep(ops, op, j);
    FollowsBefore(start, st, ops, j);
    hide Inv, Step, Next, Enabled, Track, AllFollow, Follows, SameProgress, IsTerminal;
    if j !in st.jobs {
      if j in Step(st, op).jobs {
        StepAddsOnlySubmitted(st, op, j);
        FollowsStart(Step(st, op), j);
      }
    } else if OnJob(op, j) {
      OwnStepFollows(st, op, j, Track(ops, j).value);
    } else {
      StepKeepsOtherJobs(st, op, j);
      StillFollows(st, Step(st, op), j);
    }
  }

  lemma FollowsBefore(start: Store, st: Store, ops: seq<Op>, j: JobId)
    requires AllFollow(start, st, ops)
    ensures j in start.jobs ==> j in st.jobs && IsTerminal(st.jobs[j].state)
    ensures j in st.jobs && j !in start.jobs ==> Track(ops, j).Some? && Follows(st, j, Track(ops, j).value)
    ensures j !in st.jobs ==> Track(ops, j) == Some(START)
  {
    hide Track, Follows, IsTerminal;
  }

  lemma FollowsStart(st: Store, j: JobId)
    requires j in st.jobs && st.jobs[j].state == Queued && st.jobs[j].testResults == []
    ensures Follows(st, j, START)
  {
  }

  lemma StillFollows(st: Store, st': Store, j: JobId)
    requires j in st.jobs && j in st'.jobs && SameProgress(st.jobs[j], st'.jobs[j])
    ensures IsTerminal(st.jobs[j].state) ==> IsTerminal(st'.jobs[j].state)
    ensures forall c :: Follows(st, j, c) ==> Follows(st', j, c)
  {
  }

  lemma TrackStep(ops: seq<Op>, op: Op, j: JobId)
    ensures Track(ops + [op], j)
         == if !OnJob(op, j) || Track(ops, j).None? then Track(ops, j) else Next(Track(ops, j).value, op)
  {
    assert (ops + [op])[..|ops|] == ops;
    hide Next;
  }

  lemma EnabledForService(start: Store, st: Store, op: Op)
    requires ServiceEnabled(start, st, op)
    ensures Enabled(st, op)
  {
  }

  lemma CompletionVouches(s: Series, job: Job, input: Completion)
    requires Honest(input, job.testResults) && CompletedSeries(s, job, input).status == Completed
    ensures Vouched(CompletedJob(job, input))
  {
    hide SortedUnique, DeriveV2Gate;
    var delta :| input.gate == Some(ReviewGate(input.review, job.testResults, delta));
    GatePassesExactly(GateInput(input.review, false, false, false, false, job.testResults, delta));
  }

  lemma StepKeepsVouched(st: Store, op: Op)
    requires Inv(st) && Enabled(st, op) && !op.Recover? && CompletionsVouched(st)
    requires op.Complete? && Accepted(st, op) ==> Honest(op.input, st.jobs[op.jobId].testResults)
    ensures CompletionsVouched(Step(st, op))
  {
    var st' := Step(st, op);
    forall k | k in st'.series && st'.series[k].status == Completed
      ensures st'.series[k].latestJobId in st'.jobs && Vouched(st'.jobs[st'.series[k].latestJobId])
    {
      VouchedAfter(st, op, k);
      hide *;
    }
    hide *;
  }

  lemma VouchedAfter(st: Store, op: Op, k: SeriesKey)
    requires Inv(st) && Enabled(st, op) && !op.Recover? && CompletionsVouched(st)
    requires op.Complete? && Accepted(st, op) ==> Honest(op.input, st.jobs[op.jobId].testResults)
    requires k in Step(st, op).series && Step(st, op).series[k].status == Completed
    ensures Step(st, op).series[k].latestJobId in Step(st, op).jobs && Vouched(Step(st, op).jobs[Step(st, op).series[k].latestJobId])
  {
    CompletedNowOrBefore(st, op, k);
    if k in st.series && st.series[k].status == Completed {
      LatestOfCompletedEnded(st, k);
      assert !(Accepted(st, op) && OnJob(op, st.series[k].latestJobId));
      hide Inv, Honest, ReviewGate;
      if Accepted(st, op) {
        StepKeepsOtherJobs(st, op, st.series[k].latestJobId);
      }
    } else {
      UnfinishedIsLatest(st, op.jobId);
      CompletionVouches(st.series[k], st.jobs[op.jobId], op.input);
      hide *;
      CompletedIs(st, op);
    }
  }

  lemma CompletedIs(st: Store, op: Op)
    requires op.Complete? && Accepted(st, op)
    ensures op.jobId in st.jobs && st.jobs[op.jobId].key in st.series && op.jobId in Step(st, op).jobs
    ensures Step(st, op).jobs[op.jobId] == CompletedJob(st.jobs[op.jobId], op.input)
    ensures Step(st, op).series[st.jobs[op.jobId].key] == CompletedSeries(st.series[st.jobs[op.jobId].key], st.jobs[op.jobId], op.input)
    ensures CompletedSeries(st.series[st.jobs[op.jobId].key], st.jobs[op.jobId], op.input).latestJobId
         == st.series[st.jobs[op.jobId].key].latestJobId
  {
    hide CompletedJob, SortedUnique;
  }

  lemma LatestOfCompletedEnded(st: Store, k: SeriesKey)
    requires Inv(st) && k in st.series && st.series[k].status == Completed
    ensures st.series[k].latestJobId in st.jobs && IsTerminal(st.jobs[st.series[k].latestJobId].state)
  {
    LatestIsThere(st, k);
    hide Inv, Counted, Numbered, JobsFit;
  }

  /** A series is completed now only if it was already, unchanged, or the operation completes it. */
  lemma CompletedNowOrBefore(st: Store, op: Op, k: SeriesKey)
    requires Inv(st) && Enabled(st, op) && !op.Recover? && k in Step(st, op).series && Step(st, op).series[k].status == Completed
    ensures (k in st.series && st.series[k].status == Completed && Step(st, op).series[k] == st.series[k])
         || (op.Complete? && Accepted(st, op) && k in st.series && st.jobs[op.jobId].key == k)
  {
    if k in st.series {
      hide *;
      StepAdvances(st, op, k);
      StatusSource(st, op, k);
      CompletedIsKept(st.series[k], Step(st, op).series[k], SubmitsTo(st, op, k));
    } else {
      hide Inv;
    }
  }

  lemma CompletedIsKept(s: Series, s': Series, submitted: bool)
    requires Advances(s, s', submitted)
    ensures s.status == Completed ==> s' == s
  {
  }

  lemma StatusSource(st: Store, op: Op, k: SeriesKey)
    requires k in st.series && k in Step(st, op).series && !op.Recover? && Step(st, op).series[k].status == Completed
    ensures st.series[k].status == Completed || (op.Complete? && Accepted(st, op) && st.jobs[op.jobId].key == k)
  {
    hide DecisionIsExclusive, DecisionIsComplete, CompletedJob, CompletedSeries;
  }

  /** Whatever the interleaving, every job keeps up with its execution and completions are vouched for. */
  lemma {:induction false} ServiceRunFits(start: Store, ops: seq<Op>)
    requires Settles(start) && ServiceRun(start, ops)
    ensures Inv(Run(start, ops)) && CompletionsVouched(Run(start, ops)) && AllFollow(start, Run(start, ops), ops)
  {
    if ops == [] {
    } else {
      hide Inv, Step, Next, CompletionsVouched, AllFollow, ServiceEnabled;
      var n := |ops| - 1;
      var st, op := Run(start, ops[..n]), ops[n];
      ServicePrefix(start, ops, n);
      ServiceRunFits(start, ops[..n]);
      assert ops == ops[..n] + [op];
      assert ServiceEnabled(start, st, op);
      EnabledForService(start, st, op);
      StepFollows(start, st, ops[..n], op);
      V2SeriesTheorems.StepKeepsInv(st, op);
      NotRecovery(start, st, op);
      HonestWhenAccepted(start, st, ops[..n], op);
      StepKeepsVouched(st, op);
    }
  }

  lemma NotRecovery(start: Store, st: Store, op: Op)
    requires ServiceEnabled(start, st, op)
    ensures !op.Recover?
  {
  }

  lemma HonestWhenAccepted(start: Store, st: Store, ops: seq<Op>, op: Op)
    requires AllFollow(start, st, ops) && ServiceEnabled(start, st, op) && forall j :: Track(ops + [op], j).Some?
    ensures op.Complete? && Accepted(st, op) ==> Honest(op.input, st.jobs[op.jobId].testResults)
  {
    assert (ops + [op])[..|ops|] == ops;
    hide Honest;
    if op.Complete? {
      assert Track(ops + [op], op.jobId).Some?;
    }
  }

  lemma ServicePrefix(start: Store, ops: seq<Op>, n: nat)
    requires n <= |ops| && ServiceRun(start, ops)
    ensures ServiceRun(start, ops[..n])
    decreases |ops| - n
  {
    forall i | 0 <= i < n ensures ServiceEnabled(start, Run(start, ops[..n][..i]), ops[..n][i]) {
      assert ops[..n][..i] == ops[..i];
    }
    hide ServiceEnabled, Next;
    forall j ensures Track(ops[..n], j).Some? {
      TrackPrefix(ops, n, j);
    }
  }

  lemma {:induction false} TrackPrefix(ops: seq<Op>, n: nat, j: JobId)
    requires n <= |ops| && Track(ops, j).Some?
    ensures Track(ops[..n], j).Some?
    decreases |ops|
  {
    hide Next;
    if n < |ops| {
      TrackPrefix(ops[..|ops| - 1], n, j);
      assert ops[..|ops| - 1][..n] == ops[..n];
    } else {
      assert ops[..n] == ops;
    }
  }

  /** No execution has a transition rejected, nor its first completion; and a finished one leaves its job ended. */
  lemma ExecutionsAreNeverRejected(start: Store, ops: seq<Op>, i: nat, j: JobId)
    requires Settles(start) && ServiceRun(start, ops) && i < |ops| && OnJob(ops[i], j)
    ensures ops[i].Transition? ==> Accepted(Run(start, ops[..i]), ops[i])
    ensures ops[i].Complete? && Track(ops[..i], j) != Some(Closed) ==> Accepted(Run(start, ops[..i]), ops[i])
    ensures Track(ops, j) == Some(Closed) ==> j in Run(start, ops).jobs && IsTerminal(Run(start, ops).jobs[j].state)
  {
    hide Inv, CompletionsVouched, Accepted, Honest;
    ServicePrefix(start, ops, i);
    ServicePrefix(start, ops, i + 1);
    ServiceRunFits(start, ops[..i]);
    ServiceRunFits(start, ops);
    assert ServiceEnabled(start, Run(start, ops[..i]), ops[i]);
    assert ops[..i + 1][..i] == ops[..i] && ops[..i + 1][i] == ops[i];
    assert Track(ops[..i + 1], j).Some?;
    var c := Track(ops[..i], j).value;
    OwnStepFollows(Run(start, ops[..i]), ops[i], j, c);
  }

  /** A completed series means a job with a passing review, no failed test and no artifact delta. */
  lemma CompletedSeriesPassed(start: Store, ops: seq<Op>, k: SeriesKey)
    requires Settles(start) && ServiceRun(start, ops)
    requires k in Run(start, ops).series && Run(start, ops).series[k].status == Completed
    ensures var st := Run(start, ops);
      st.series[k].latestJobId in st.jobs && Vouched(st.jobs[st.series[k].latestJobId])
  {
    ServiceRunFits(start, ops);
    hide Inv, Run, AllFollow;
  }

  // ---- Interleaved executions ----

  /** The operations of one job, in order. */
  function Projection(ops: seq<Op>, j: JobId): seq<Op> {
    if ops == [] then []
    else Projection(ops[..|ops| - 1], j) + if OnJob(ops[|ops| - 1], j) then [ops[|ops| - 1]] else []
  }

  /** A whole execution, from the queued job to its end. */
  ghost predicate IsExecution(trace: seq<Op>, j: JobId) {
    (forall op :: op in trace ==> OnJob(op, j)) && Track(trace, j) == Some(Closed)
  }

  /** What the operations on other jobs are does not matter to an execution. */
  lemma {:induction false} TrackOfProjection(ops: seq<Op>, j: JobId)
    ensures Track(ops, j) == Track(Projection(ops, j), j)
  {
    if ops != [] {
      var n := |ops| - 1;
      TrackOfProjection(ops[..n], j);
      if OnJob(ops[n], j) {
        TrackStep(Projection(ops[..n], j), ops[n], j);
      } else {
        assert Projection(ops, j) == Projection(ops[..n], j);
      }
      hide Next;
    }
  }

  /** Any interleaving of executions, each one finished or still under way. */
  ghost predicate Interleaves(start: Store, ops: seq<Op>) {
    && (forall i :: 0 <= i < |ops| ==> ServiceEnabled(start, Run(start, ops[..i]), ops[i]))
    && (forall j :: Projection(ops, j) == [] || exists trace :: IsExecution(trace, j) && Projection(ops, j) <= trace)
  }

  /** Such an interleaving is a service run, so all that holds of service runs holds of it. */
  lemma InterleavedExecutionsAreServiceRuns(start: Store, ops: seq<Op>)
    requires Interleaves(start, ops)
    ensures ServiceRun(start, ops)
  {
    hide ServiceEnabled, Next;
    forall j ensures Track(ops, j).Some? {
      TrackOfProjection(ops, j);
      if Projection(ops, j) != [] {
        var trace :| IsExecution(trace, j) && Projection(ops, j) <= trace;
        assert trace[..|Projection(ops, j)|] == Projection(ops, j);
        TrackPrefix(trace, |Projection(ops, j)|, j);
      }
    }
  }

  // ---- Restarts ----

  lemma RecoveredStaysVouched(st: Store)
    requires Inv(st) && CompletionsVouched(st)
    ensures CompletionsVouched(Recovered(st))
  {
    var st' := Recovered(st);
    forall k | k in st'.series && st'.series[k].status == Completed
      ensures st'.series[k].latestJobId in st'.jobs && Vouched(st'.jobs[st'.series[k].latestJobId])
    {
      RecoveryCompletesNothing(st, k);
      hide *;
    }
    hide Inv, Recovered, Vouched;
  }

  lemma RecoveryCompletesNothing(st: Store, k: SeriesKey)
    requires Inv(st) && CompletionsVouched(st) && k in Recovered(st).series && Recovered(st).series[k].status == Completed
    ensures var s' := Recovered(st).series[k];
      s'.latestJobId in Recovered(st).jobs && Vouched(Recovered(st).jobs[s'.latestJobId])
  {
    hide Inv, KeyFits, Vouched, CompletedSeries, CompletedJob;
    assert k in st.series;
    LatestIsThere(st, k);
    if IsInterrupted(st, st.series[k].latestJobId) {
      RecoveryNeverCompletes(st.series[k], st.jobs[st.series[k].latestJobId]);
    }
  }

  lemma RecoveryNeverCompletes(s: Series, job: Job)
    ensures CompletedSeries(s, job, RECOVERY).status != Completed
  {
    hide SortedUnique;
  }

  /** After any run, recovery leaves a store from which the service can start again. */
  lemma RestartSettles(start: Store, ops: seq<Op>)
    requires Settles(start) && ServiceRun(start, ops)
    ensures Settles(Recovered(Run(start, ops)))
  {
    ServiceRunFits(start, ops);
    var st := Run(start, ops);
    RecoveryKeepsInv(st);
    RecoverySettlesEverything(st);
    RecoveredStaysVouched(st);
    hide Inv, Run, AllFollow, CompletionsVouched, Recovered, ServiceRun;
  }

  /** The store after some lifetimes of the daemon, each one cut short anywhere and followed by a recovery. */
  ghost function AfterLifetimes(lifetimes: seq<seq<Op>>): Store {
    if lifetimes == [] then EMPTY
    else Recovered(Run(AfterLifetimes(lifetimes[..|lifetimes| - 1]), lifetimes[|lifetimes| - 1]))
  }

  ghost predicate AreLifetimes(lifetimes: seq<seq<Op>>) {
    forall i :: 0 <= i < |lifetimes| ==> Interleaves(AfterLifetimes(lifetimes[..i]), lifetimes[i])
  }

  /** So every lifetime begins settled, and everything above holds in each of them. */
  lemma {:induction false} EveryLifetimeBeginsSettled(lifetimes: seq<seq<Op>>)
    requires AreLifetimes(lifetimes)
    ensures Settles(AfterLifetimes(lifetimes))
  {
    hide Settles, Interleaves, Recovered, Run;
    if lifetimes == [] {
      EmptySettles();
    } else {
      var n := |lifetimes| - 1;
      forall i | 0 <= i < n ensures Interleaves(AfterLifetimes(lifetimes[..n][..i]), lifetimes[..n][i]) {
        assert lifetimes[..n][..i] == lifetimes[..i];
      }
      EveryLifetimeBeginsSettled(lifetimes[..n]);
      assert Interleaves(AfterLifetimes(lifetimes[..n]), lifetimes[n]);
      InterleavedExecutionsAreServiceRuns(AfterLifetimes(lifetimes[..n]), lifetimes[n]);
      RestartSettles(AfterLifetimes(lifetimes[..n]), lifetimes[n]);
    }
  }

  lemma EmptySettles()
    ensures Settles(EMPTY)
  {
    EmptyStoreFits();
    hide Inv;
  }
}
