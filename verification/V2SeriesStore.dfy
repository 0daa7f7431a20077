/** The mutable v2 series store: two maps, one method per operation, each refining a step of the state machine. */
module V2SeriesStore {
  import opened Options
  import opened Paths
  import opened IdSets
  import opened V2Gate
  import opened V2Series
  import opened V2SeriesInvariants
  import opened V2SeriesTheorems

  class SeriesStore {
    var jobs: map<JobId, Job>
    var series: map<SeriesKey, Series>

    constructor ()
      ensures State() == EMPTY
    {
      jobs, series := map[], map[];
    }

    ghost function State(): Store
      reads this
    {
      Store(jobs, series)
    }

    method Submit(request: Request, jobId: JobId) returns (r: Result<JobId>)
      requires jobId !in jobs
      modifies this
      ensures r == match SubmitError(old(State()), request) { case None => Ok(jobId) case Some(code) => Err(code) }
      ensures State() == Step(old(State()), Op.Submit(request, jobId))
    {
      var round, attempt, next: Series;
      if request.key !in series {
        if request.seriesVersion.Some? || request.latestJobId.Some? {
          return Err(SeriesCasInvalid);
        }
        round, attempt := 1, 1;
        next := Series(request.contract, jobId, 0, [], map[1 := 1], Running, None);
      } else {
        var previous := series[request.key];
        if previous.status == Completed {
          return Err(SeriesCompleted);
        }
        if previous.status == SeriesAwaitingUser {
          return Err(SeriesUserDecisionRequired);
        }
        if request.seriesVersion != Some(previous.seriesVersion) || request.latestJobId != Some(previous.latestJobId) {
          return Err(SeriesCasMismatch);
        }
        if previous.contract != request.contract {
          return Err(SeriesContractChanged);
        }
        if previous.latestJobId !in jobs {
          return Err(JobNotFound);
        }
        var current := jobs[previous.latestJobId];
        if !IsTerminal(current.state) || current.successor.Some? {
          return Err(SeriesSuccessorConflict);
        }
        round := |previous.acceptedRounds| + 1;
        attempt := (if round in previous.attemptsByRound then previous.attemptsByRound[round] else 0) + 1;
        if round > 3 || attempt > 2 {
          return Err(SeriesAttemptsExhausted);
        }
        next := previous.(attemptsByRound := previous.attemptsByRound[round := attempt], status := Running);
        jobs := jobs[previous.latestJobId := current.(successor := Some(jobId))];
      }
      var version := next.seriesVersion + 1;
      series := series[request.key := next.(latestJobId := jobId, seriesVersion := version)];
      jobs := jobs[jobId := NewJob(request, version, round, attempt)];
      return Ok(jobId);
    }

    method Transition(jobId: JobId, state: JobState, patch: Patch) returns (r: Result<JobState>)
      modifies this
      ensures r == match TransitionError(old(State()), jobId, state) { case None => Ok(state) case Some(code) => Err(code) }
      ensures State() == Step(old(State()), Op.Transition(jobId, state, patch))
    {
      if jobId !in jobs {
        return Err(JobNotFound);
      }
      var latest := jobs[jobId];
      if IsTerminal(latest.state) {
        return Err(JobTerminal);
      }
      if state !in AllowedTransitions(latest.state) {
        return Err(TransitionInvalid);
      }
      jobs := jobs[jobId := latest.(
        state := state, history := latest.history + [state],
        review := if patch.review.Some? then patch.review else latest.review,
        testResults := if patch.testResults.Some? then patch.testResults.value else latest.testResults)];
      return Ok(state);
    }

    method Complete(jobId: JobId, input: Completion) returns (r: Result<JobState>)
      requires IsCompletion(input)
      modifies this
      ensures r == match CompleteError(old(State()), jobId) {
                     case None => Ok(CompletionState(old(jobs)[jobId], input)) case Some(code) => Err(code) }
      ensures State() == Step(old(State()), Op.Complete(jobId, input))
    {
      hide SortedUnique;
      if jobId !in jobs {
        return Err(JobNotFound);
      }
      var latest := jobs[jobId];
      if latest.key !in series {
        return Err(StoreCorrupt);
      }
      if IsTerminal(latest.state) {
        return Err(JobTerminal);
      }
      var s := series[latest.key];
      var acceptedRounds := if input.acceptedRound then SortedUnique(s.acceptedRounds + [latest.round]) else s.acceptedRounds;
      var passes := input.gate.Some? && input.gate.value.verdict == Pass;
      var thirdRoundFailed := latest.round == 3 && input.acceptedRound && !passes;
      var attemptsExhausted := !input.acceptedRound && latest.attempt >= 2;
      var terminalState := if thirdRoundFailed || attemptsExhausted then AwaitingUserDecision else input.state;
      var status := if terminalState == AwaitingUserDecision then SeriesAwaitingUser
                    else if input.acceptedRound && passes then Completed else Idle;
      jobs := jobs[jobId := latest.(
        state := terminalState, history := latest.history + [terminalState],
        gate := if input.gate.Some? then input.gate else latest.gate,
        error := if input.error.Some? then input.error else latest.error,
        findings := if input.findings.Some? then input.findings.value else latest.findings,
        review := if input.review.Some? then input.review else latest.review,
        testResults := if input.testResults.Some? then input.testResults.value else latest.testResults)];
      series := series[latest.key := s.(acceptedRounds := acceptedRounds, status := status)];
      return Ok(terminalState);
    }

    method Adjudicate(jobId: JobId, a: Adjudication) returns (r: Result<()>)
      modifies this
      ensures r == match AdjudicateError(old(State()), jobId, a) { case None => Ok(()) case Some(code) => Err(code) }
      ensures State() == Step(old(State()), Op.Adjudicate(jobId, a))
    {
      hide DecisionIsExclusive, DecisionIsComplete;
      if jobId !in jobs {
        return Err(JobNotFound);
      }
      var latest := jobs[jobId];
      if latest.key !in series {
        return Err(StoreCorrupt);
      }
      if latest.state != AwaitingUserDecision || series[latest.key].status != SeriesAwaitingUser {
        return Err(AdjudicationUnavailable);
      }
      if !DecisionIsExclusive(a.accepted, a.rejected) {
        return Err(AdjudicationFindingsInvalid);
      }
      if !DecisionIsComplete(latest.findings, a.accepted, a.rejected) {
        return Err(AdjudicationFindingsIncomplete);
      }
      if (a.decision == AcceptAuthor && a.accepted != []) || (a.decision == AcceptReviewer && a.rejected != []) {
        return Err(AdjudicationDecisionMismatch);
      }
      jobs := jobs[jobId := latest.(adjudication := Some(a))];
      series := series[latest.key := series[latest.key].(status := Idle, adjudication := Some(a))];
      return Ok(());
    }

    /** Fails every job a crash interrupted, in any order. */
    method RecoverUncertain()
      requires Inv(State())
      modifies this
      ensures State() == Step(old(State()), Op.Recover)
    {
      hide Inv, PartlyRecovered, Step, CompleteError, CompletionState, IsTerminal;
      ghost var st := State();
      var todo := jobs.Keys;
      RecoveryStart(st);
      while todo != {}
        invariant todo <= st.jobs.Keys
        invariant State() == PartlyRecovered(st, todo)
      {
        var jobId :| jobId in todo;
        RecoveryStep(st, todo, jobId);
        if !IsTerminal(jobs[jobId].state) {
          var _ := Complete(jobId, RECOVERY);
        }
        todo := todo - {jobId};
      }
      RecoveryEnd(st);
    }
  }

  /** The store while the jobs in `todo` were not looked at yet. */
  ghost function PartlyRecovered(st: Store, todo: set<JobId>): Store {
    Store(map j | j in st.jobs :: if j in todo then st.jobs[j] else RecoveredJob(st.jobs[j]),
          map k | k in st.series :: if st.series[k].latestJobId in todo then st.series[k] else RecoveredSeries(st, st.series[k]))
  }

  function RecoveredJob(job: Job): Job {
    if IsTerminal(job.state) then job else CompletedJob(job, RECOVERY)
  }

  lemma RecoveryStart(st: Store)
    requires Inv(st)
    ensures PartlyRecovered(st, st.jobs.Keys) == st
  {
    LatestJobsAreThere(st);
    hide *;
    NothingRecovered(st);
  }

  lemma NothingRecovered(st: Store)
    requires forall k :: k in st.series ==> st.series[k].latestJobId in st.jobs
    ensures PartlyRecovered(st, st.jobs.Keys) == st
  {
    hide RecoveredJob, RecoveredSeries;
    assert PartlyRecovered(st, st.jobs.Keys).jobs == st.jobs;
    assert PartlyRecovered(st, st.jobs.Keys).series == st.series;
  }

  lemma LatestJobsAreThere(st: Store)
    requires Inv(st)
    ensures forall k :: k in st.series ==> st.series[k].latestJobId in st.jobs
  {
    forall k | k in st.series ensures st.series[k].latestJobId in st.jobs {
      hide Inv;
      LatestIsThere(st, k);
    }
    hide Inv;
  }

  lemma RecoveryEnd(st: Store)
    ensures PartlyRecovered(st, {}) == Step(st, Op.Recover)
  {
    hide CompletedJob, RecoveredSeries;
  }

  lemma RecoveryStep(st: Store, todo: set<JobId>, j: JobId)
    requires Inv(st) && todo <= st.jobs.Keys && j in todo
    ensures IsCompletion(RECOVERY) && j in PartlyRecovered(st, todo).jobs
    ensures var cur := PartlyRecovered(st, todo);
      PartlyRecovered(st, todo - {j})
        == if IsTerminal(cur.jobs[j].state) then cur else Step(cur, Op.Complete(j, RECOVERY))
  {
    if !IsTerminal(st.jobs[j].state) {
      UnfinishedIsLatest(st, j);
      InterruptedStep(st, todo, j);
    } else {
      SettledStep(st, todo, j);
    }
    hide *;
  }

  lemma SettledStep(st: Store, todo: set<JobId>, j: JobId)
    requires j in st.jobs && IsTerminal(st.jobs[j].state)
    ensures PartlyRecovered(st, todo - {j}) == PartlyRecovered(st, todo)
  {
    hide CompletedJob, CompletedSeries;
  }

  lemma InterruptedStep(st: Store, todo: set<JobId>, j: JobId)
    requires Inv(st) && j in st.jobs && j in todo && !IsTerminal(st.jobs[j].state)
    requires st.jobs[j].key in st.series && st.series[st.jobs[j].key].latestJobId == j
    ensures Step(PartlyRecovered(st, todo), Op.Complete(j, RECOVERY)) == PartlyRecovered(st, todo - {j})
  {
    LatestJobsDiffer(st, j);
    hide Inv;
    InterruptedStepIs(st, todo, j);
  }

  lemma InterruptedStepIs(st: Store, todo: set<JobId>, j: JobId)
    requires j in st.jobs && j in todo && !IsTerminal(st.jobs[j].state)
    requires st.jobs[j].key in st.series && st.series[st.jobs[j].key].latestJobId == j
    requires forall k :: k in st.series && k != st.jobs[j].key ==> st.series[k].latestJobId != j
    ensures Step(PartlyRecovered(st, todo), Op.Complete(j, RECOVERY)) == PartlyRecovered(st, todo - {j})
  {
    hide CompletedJob, CompletedSeries;
    var k := st.jobs[j].key;
    var cur, next := PartlyRecovered(st, todo), PartlyRecovered(st, todo - {j});
    assert cur.jobs[j] == st.jobs[j] && cur.series[k] == st.series[k];
    assert next.jobs == cur.jobs[j := CompletedJob(st.jobs[j], RECOVERY)];
    assert next.series == cur.series[k := CompletedSeries(st.series[k], st.jobs[j], RECOVERY)];
  }

  lemma LatestJobsDiffer(st: Store, j: JobId)
    requires Inv(st) && j in st.jobs
    ensures forall k :: k in st.series && k != st.jobs[j].key ==> st.series[k].latestJobId != j
  {
    forall k | k in st.series && k != st.jobs[j].key ensures st.series[k].latestJobId != j {
      hide Inv;
      LatestIsThere(st, k);
    }
    hide Inv;
  }
}
