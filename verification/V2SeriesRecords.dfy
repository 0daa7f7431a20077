/** What each operation of the v2 series accepts, and what it leaves in the records, field by field. */
module V2SeriesRecords {
  import opened Options
  import opened Paths
  import opened IdSets
  import opened V2Gate
  import opened V2Series
  import opened V2SeriesInvariants
  import opened V2SeriesTheorems

  /** Every job but those in `except` is as before. */
  ghost predicate OtherJobsStay(st: Store, st': Store, except: set<JobId>) {
    && (forall j :: j in st.jobs && j !in except ==> j in st'.jobs && st'.jobs[j] == st.jobs[j])
    && (forall j :: j in st'.jobs && j !in except ==> j in st.jobs)
  }

  ghost predicate OtherSeriesStay(st: Store, st': Store, except: SeriesKey) {
    && (forall k :: k in st.series && k != except ==> k in st'.series && st'.series[k] == st.series[k])
    && (forall k :: k in st'.series && k != except ==> k in st.series)
  }

  // ---- submit ----

  /** A first submission succeeds exactly without a token. */
  lemma FirstSubmissionSucceedsExactly(st: Store, request: Request)
    requires request.key !in st.series
    ensures SubmitError(st, request).None? <==> request.seriesVersion.None? && request.latestJobId.None?
    ensures SubmitError(st, request).Some? ==> SubmitError(st, request) == Some(SeriesCasInvalid)
  {
  }

  /** The job a submission queues: the next version, the next round, the next attempt of it. */
  lemma SubmissionQueues(st: Store, request: Request, jobId: JobId)
    requires SubmitError(st, request).None? && jobId !in st.jobs
    ensures jobId in Step(st, Op.Submit(request, jobId)).jobs
    ensures var job, known := Step(st, Op.Submit(request, jobId)).jobs[jobId], request.key in st.series;
      && job.key == request.key && job.request == request && job.state == Queued && job.history == [Queued]
      && job.findings == [] && job.testResults == [] && job.review.None? && job.gate.None? && job.error.None?
      && job.successor.None? && job.adjudication.None?
      && job.seriesVersion == (if known then st.series[request.key].seriesVersion + 1 else 1)
      && job.round == (if known then |st.series[request.key].acceptedRounds| + 1 else 1)
      && job.attempt == (if known then AttemptsOf(st.series[request.key], job.round) + 1 else 1)
  {
    hide SubmitError, AttemptsOf;
  }

  /** The series it runs in: the attempt counted, the contract and the accepted rounds as they were. */
  lemma SubmissionCounts(st: Store, request: Request, jobId: JobId)
    requires SubmitError(st, request).None? && jobId !in st.jobs
    ensures jobId in Step(st, Op.Submit(request, jobId)).jobs && request.key in Step(st, Op.Submit(request, jobId)).series
    ensures var s', job := Step(st, Op.Submit(request, jobId)).series[request.key], Step(st, Op.Submit(request, jobId)).jobs[jobId];
      && s'.latestJobId == jobId && s'.status == Running && s'.contract == request.contract && s'.seriesVersion == job.seriesVersion
      && s'.acceptedRounds == (if request.key in st.series then st.series[request.key].acceptedRounds else [])
      && (forall r :: AttemptsOf(s', r) == if r == job.round then job.attempt
                                           else if request.key in st.series then AttemptsOf(st.series[request.key], r) else 0)
    ensures OtherSeriesStay(st, Step(st, Op.Submit(request, jobId)), request.key)
  {
  }

  /** The predecessor is linked; no other job changes. */
  lemma SubmissionLinks(st: Store, request: Request, jobId: JobId)
    requires SubmitError(st, request).None? && jobId !in st.jobs
    ensures request.key !in st.series ==> OtherJobsStay(st, Step(st, Op.Submit(request, jobId)), {jobId})
    ensures request.key in st.series ==>
      var st', previous := Step(st, Op.Submit(request, jobId)), st.series[request.key].latestJobId;
      && previous in st.jobs && previous in st'.jobs && st'.jobs[previous] == st.jobs[previous].(successor := Some(jobId))
      && OtherJobsStay(st, st', {jobId, previous})
  {
    hide AttemptsOf, NewJob;
  }

  // ---- transition ----

  /** A transition is accepted exactly when the table has it, and then the job is in the state asked for. */
  lemma TransitionRecords(st: Store, j: JobId, state: JobState, patch: Patch)
    ensures TransitionError(st, j, state).None?
       <==> j in st.jobs && !IsTerminal(st.jobs[j].state) && state in AllowedTransitions(st.jobs[j].state)
    ensures TransitionError(st, j, state).None? ==>
      var st' := Step(st, Op.Transition(j, state, patch));
      && j in st'.jobs && OtherJobsStay(st, st', {j}) && st'.series == st.series
      && var job, job' := st.jobs[j], st'.jobs[j];
         && job'.state == state && job'.history == job.history + [state]
         && job'.review == (if patch.review.Some? then patch.review else job.review)
         && job'.testResults == (if patch.testResults.Some? then patch.testResults.value else job.testResults)
         && job' == job.(state := job'.state, history := job'.history, review := job'.review, testResults := job'.testResults)
    ensures TransitionError(st, j, state).Some? ==> Step(st, Op.Transition(j, state, patch)) == st
  {
    hide AllowedTransitions;
  }

  /** How far along the table a state is. */
  function Progress(s: JobState): nat {
    match s
    case Queued => 0
    case Dispatching => 1
    case SealedJob => 2
    case PeerRunning => 3
    case ResultValidated => 4
    case ValidationComplete => 5
    case SyncPreparedJob => 6
    case Replacing => 7
    case Verifying => 8
    case RollingBack => 9
    case _ => 10
  }

  /** The table only goes forward, except that replacing may repeat, and never reaches a terminal state. */
  lemma TableGoesForward(from: JobState, to: JobState)
    requires !IsTerminal(from) && to in AllowedTransitions(from)
    ensures Progress(from) < Progress(to) || from == to == Replacing
    ensures !IsTerminal(to)
    ensures to == SealedJob || to == PeerRunning || to == RollingBack || from == to || Progress(to) == Progress(from) + 1
  {
  }

  // ---- complete ----

  /** A completion is accepted exactly for an unfinished job, and changes only that job and its series. */
  lemma CompletionAcceptedExactly(st: Store, j: JobId, input: Completion)
    requires Inv(st)
    ensures CompleteError(st, j).None? <==> j in st.jobs && !IsTerminal(st.jobs[j].state)
    ensures CompleteError(st, j).Some? ==> Step(st, Op.Complete(j, input)) == st
    ensures CompleteError(st, j).None? ==>
      var st' := Step(st, Op.Complete(j, input));
      j in st'.jobs && OtherJobsStay(st, st', {j}) && st.jobs[j].key in st'.series && OtherSeriesStay(st, st', st.jobs[j].key)
  {
    hide AllKeysFit, CompletedJob, CompletedSeries, IsTerminal;
  }

  /** It records what it is given, and how the job ended. */
  lemma CompletionRecords(st: Store, j: JobId, input: Completion)
    requires CompleteError(st, j).None?
    ensures j in Step(st, Op.Complete(j, input)).jobs && st.jobs[j].key in Step(st, Op.Complete(j, input)).series
    ensures var job, st' := st.jobs[j], Step(st, Op.Complete(j, input));
      var job' := st'.jobs[j];
      && (IsCompletion(input) ==>
            job'.state == if st'.series[job.key].status == SeriesAwaitingUser then AwaitingUserDecision else input.state)
      && job'.history == job.history + [job'.state]
      && job'.gate == (if input.gate.Some? then input.gate else job.gate)
      && job'.error == (if input.error.Some? then input.error else job.error)
      && job'.findings == (if input.findings.Some? then input.findings.value else job.findings)
      && job'.review == (if input.review.Some? then input.review else job.review)
      && job'.testResults == (if input.testResults.Some? then input.testResults.value else job.testResults)
      && job' == job.(state := job'.state, history := job'.history, gate := job'.gate, error := job'.error,
                      findings := job'.findings, review := job'.review, testResults := job'.testResults)
  {
    hide SortedUnique;
  }

  /** The rounds a completion leaves accepted. */
  lemma CompletionAcceptsItsRound(st: Store, j: JobId, input: Completion)
    requires Inv(st) && CompleteError(st, j).None?
    ensures st.jobs[j].key in Step(st, Op.Complete(j, input)).series
    ensures Step(st, Op.Complete(j, input)).series[st.jobs[j].key].acceptedRounds
         == st.series[st.jobs[j].key].acceptedRounds + if input.acceptedRound then [st.jobs[j].round] else []
  {
    StillOpen(st, j);
    hide *;
    UnfinishedIsLatest(st, j);
    RoundsGrow(st.series[st.jobs[j].key], st.jobs[j], input);
    CompletedSeriesIs(st, j, input);
  }

  lemma StillOpen(st: Store, j: JobId)
    requires CompleteError(st, j).None?
    ensures j in st.jobs && !IsTerminal(st.jobs[j].state)
  {
  }

  lemma CompletedSeriesIs(st: Store, j: JobId, input: Completion)
    requires CompleteError(st, j).None?
    ensures st.jobs[j].key in st.series && st.jobs[j].key in Step(st, Op.Complete(j, input)).series
    ensures Step(st, Op.Complete(j, input)).series[st.jobs[j].key] == CompletedSeries(st.series[st.jobs[j].key], st.jobs[j], input)
  {
    hide CompletedJob, SortedUnique;
  }

  lemma RoundsGrow(s: Series, job: Job, input: Completion)
    requires Counted(s) && LatestFits(s, job) && !IsTerminal(job.state)
    ensures CompletedSeries(s, job, input).acceptedRounds == s.acceptedRounds + if input.acceptedRound then [job.round] else []
  {
    CompletedCounts(s, job, input);
    var n := |s.acceptedRounds|;
    assert UpTo(n + 1) == UpTo(n) + [n + 1];
    hide SortedUnique;
  }

  // ---- adjudicate ----

  /** The decision leaves nothing out: rejecting everything for the author, accepting everything for the reviewer. */
  ghost predicate Decides(a: Adjudication, findings: seq<Id>) {
    && Partition(findings, a.accepted, a.rejected)
    && (a.decision == AcceptAuthor ==> Elements(a.rejected) == Elements(findings))
    && (a.decision == AcceptReviewer ==> Elements(a.accepted) == Elements(findings))
  }

  /** An adjudication is accepted exactly while job and series await the user, and when it decides all the findings. */
  lemma AdjudicationAcceptedExactly(st: Store, j: JobId, a: Adjudication)
    requires Inv(st)
    ensures Accepted(st, Op.Adjudicate(j, a))
       <==> && j in st.jobs && st.jobs[j].key in st.series
            && st.jobs[j].state == AwaitingUserDecision && st.series[st.jobs[j].key].status == SeriesAwaitingUser
            && Decides(a, st.jobs[j].findings)
  {
    if j in st.jobs {
      DecisionCoversExactlyThePartitions(st.jobs[j].findings, a.accepted, a.rejected);
      DecidesExactly(st.jobs[j].findings, a);
      hide *;
      AdjudicateErrorIs(st, j, a);
    }
  }

  lemma AdjudicateErrorIs(st: Store, j: JobId, a: Adjudication)
    requires j in st.jobs
    ensures Accepted(st, Op.Adjudicate(j, a))
       <==> && st.jobs[j].key in st.series
            && st.jobs[j].state == AwaitingUserDecision && st.series[st.jobs[j].key].status == SeriesAwaitingUser
            && DecisionIsExclusive(a.accepted, a.rejected) && DecisionIsComplete(st.jobs[j].findings, a.accepted, a.rejected)
            && (a.decision == AcceptAuthor ==> a.accepted == []) && (a.decision == AcceptReviewer ==> a.rejected == [])
  {
    hide DecisionIsExclusive, DecisionIsComplete;
  }

  lemma DecidesExactly(findings: seq<Id>, a: Adjudication)
    ensures Decides(a, findings)
       <==> && Partition(findings, a.accepted, a.rejected)
            && (a.decision == AcceptAuthor ==> a.accepted == []) && (a.decision == AcceptReviewer ==> a.rejected == [])
  {
    assert a.accepted != [] ==> a.accepted[0] in Elements(a.accepted);
    assert a.rejected != [] ==> a.rejected[0] in Elements(a.rejected);
  }

  /** It is recorded with the job and with the series, which goes idle; nothing else changes. */
  lemma AdjudicationRecords(st: Store, j: JobId, a: Adjudication)
    ensures !Accepted(st, Op.Adjudicate(j, a)) ==> Step(st, Op.Adjudicate(j, a)) == st
    ensures Accepted(st, Op.Adjudicate(j, a)) ==>
      var st', k := Step(st, Op.Adjudicate(j, a)), st.jobs[j].key;
      && j in st'.jobs && st'.jobs[j] == st.jobs[j].(adjudication := Some(a)) && OtherJobsStay(st, st', {j})
      && k in st'.series && st'.series[k] == st.series[k].(status := Idle, adjudication := Some(a)) && OtherSeriesStay(st, st', k)
  {
    hide DecisionIsExclusive, DecisionIsComplete;
  }

  // ---- recovery ----

  /** An interrupted job ends failed, or before the user after its second attempt; every other job stays. */
  lemma RecoveryRecords(st: Store, j: JobId)
    requires j in st.jobs
    ensures var job, job' := st.jobs[j], Step(st, Recover).jobs[j];
      if IsTerminal(job.state) then job' == job
      else
        && job'.state == (if job.attempt >= 2 then AwaitingUserDecision else Failed) && job'.error == Some(RecoveryRequired)
        && job' == job.(state := job'.state, history := job.history + [job'.state], error := job'.error)
  {
  }
}
