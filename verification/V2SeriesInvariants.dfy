/** The inductive invariant of the v2 series store, and that every operation keeps it. */
module V2SeriesInvariants {
  import opened Options
  import opened Paths
  import opened IdSets
  import opened V2Gate
  import opened V2Series

  function UpTo(n: nat): seq<nat> {
    seq(n, i => i + 1)
  }

  /** The next submission would exceed three rounds or two attempts. */
  predicate Exhausted(s: Series) {
    NextRound(s) > 3 || AttemptsOf(s, NextRound(s)) >= 2
  }

  /** Counters of one series. */
  ghost predicate Counted(s: Series) {
    && |s.acceptedRounds| <= 3 && s.acceptedRounds == UpTo(|s.acceptedRounds|)
    && (forall r :: r in s.attemptsByRound ==> 1 <= r <= NextRound(s) && r <= 3 && 1 <= s.attemptsByRound[r] <= 2)
    && (forall r :: 1 <= r <= |s.acceptedRounds| ==> r in s.attemptsByRound)
    && s.seriesVersion == AttemptsOf(s, 1) + AttemptsOf(s, 2) + AttemptsOf(s, 3)
  }

  /** The latest job carries the counters and decides the status. */
  ghost predicate LatestFits(s: Series, latest: Job) {
    && latest.seriesVersion == s.seriesVersion && latest.successor.None?
    && (s.status == Running <==> !IsTerminal(latest.state))
    && (s.status == Running ==> latest.round == NextRound(s) <= 3 && latest.attempt == AttemptsOf(s, latest.round) >= 1)
    && (s.status == SeriesAwaitingUser ==> latest.state == AwaitingUserDecision && Exhausted(s))
    && (latest.state == AwaitingUserDecision ==> Exhausted(s) && s.status != Completed)
    && (s.status == Completed ==> GatePasses(latest.gate) && s.acceptedRounds != [])
    && (s.adjudication.Some? ==> s.status == Idle && Exhausted(s))
  }

  /** A job that is not the latest ended without exhausting the series, and links to the next version. */
  ghost predicate LinkFits(st: Store, k: SeriesKey, j: JobId)
    requires k in st.series && j in st.jobs
  {
    var job := st.jobs[j];
    if j == st.series[k].latestJobId then job.successor.None?
    else
      && job.successor.Some? && job.successor.value in st.jobs && IsTerminal(job.state) && job.state != AwaitingUserDecision
      && st.jobs[job.successor.value].key == k
      && st.jobs[job.successor.value].seriesVersion == job.seriesVersion + 1
  }

  ghost predicate HasVersion(st: Store, k: SeriesKey, v: nat) {
    exists j :: j in st.jobs && st.jobs[j].key == k && st.jobs[j].seriesVersion == v
  }

  /** A history is a path of the transition table, possibly cut short by one terminal state. */
  ghost predicate LegalStep(from: JobState, to: JobState) {
    !IsTerminal(from) && (to in AllowedTransitions(from) || IsTerminal(to))
  }

  ghost predicate LegalHistory(h: seq<JobState>) {
    h != [] && h[0] == Queued && forall i, j :: 0 <= i && j == i + 1 && j < |h| ==> LegalStep(h[i], h[j])
  }

  ghost predicate JobFits(job: Job) {
    LegalHistory(job.history) && job.history[|job.history| - 1] == job.state
  }

  /** The jobs of a series carry distinct versions within 1..n, and every version is taken. */
  ghost predicate Numbered(st: Store, k: SeriesKey, n: nat) {
    && (forall j :: j in st.jobs && st.jobs[j].key == k ==> 1 <= st.jobs[j].seriesVersion <= n)
    && (forall i, j :: i in st.jobs && j in st.jobs && st.jobs[i].key == k && st.jobs[j].key == k && i != j
                       ==> st.jobs[i].seriesVersion != st.jobs[j].seriesVersion)
    && (forall v :: 1 <= v <= n ==> HasVersion(st, k, v))
  }

  ghost predicate JobsFit(st: Store, k: SeriesKey)
    requires k in st.series
  {
    forall j :: j in st.jobs && st.jobs[j].key == k ==> LinkFits(st, k, j) && JobFits(st.jobs[j])
  }

  ghost predicate KeyFits(st: Store, k: SeriesKey)
    requires k in st.series
  {
    var s := st.series[k];
    && Counted(s) && s.latestJobId in st.jobs && st.jobs[s.latestJobId].key == k
    && LatestFits(s, st.jobs[s.latestJobId])
    && Numbered(st, k, s.seriesVersion) && JobsFit(st, k)
  }

  ghost predicate JobsHaveSeries(st: Store) {
    forall j :: j in st.jobs ==> st.jobs[j].key in st.series
  }

  ghost predicate AllKeysFit(st: Store) {
    forall k :: k in st.series ==> KeyFits(st, k)
  }

  ghost predicate Inv(st: Store) {
    JobsHaveSeries(st) && AllKeysFit(st)
  }

  lemma EmptyStoreFits()
    ensures Inv(Store(map[], map[]))
  {
  }

  /** Only the series `k0` and its jobs differ. */
  ghost predicate OnlyTouches(st: Store, st': Store, k0: SeriesKey) {
    && st.jobs.Keys <= st'.jobs.Keys && st'.series.Keys == st.series.Keys + {k0}
    && (forall k :: k in st.series && k != k0 ==> st'.series[k] == st.series[k])
    && (forall j :: j in st'.jobs && st'.jobs[j].key != k0 ==> j in st.jobs && st'.jobs[j] == st.jobs[j])
    && (forall j :: j in st.jobs ==> st'.jobs[j].key == st.jobs[j].key)
  }

  /** The series `k` and its jobs are the same in both stores. */
  ghost predicate SameKey(st: Store, st': Store, k: SeriesKey) {
    && k in st.series && k in st'.series && st'.series[k] == st.series[k]
    && (forall j :: j in st.jobs && st.jobs[j].key == k ==> j in st'.jobs && st'.jobs[j] == st.jobs[j])
    && (forall j :: j in st'.jobs && st'.jobs[j].key == k ==> j in st.jobs && st.jobs[j].key == k)
  }

  lemma SameKeyFits(st: Store, st': Store, k: SeriesKey)
    requires SameKey(st, st', k) && KeyFits(st, k)
    ensures KeyFits(st', k)
  {
    var n := st.series[k].seriesVersion;
    forall v | 1 <= v <= n ensures HasVersion(st', k, v) {
      assert HasVersion(st, k, v);
      var j :| j in st.jobs && st.jobs[j].key == k && st.jobs[j].seriesVersion == v;
      assert st'.jobs[j].key == k;
    }
    forall j | j in st'.jobs && st'.jobs[j].key == k ensures LinkFits(st', k, j) {
      assert LinkFits(st, k, j);
    }
    hide Counted, LatestFits, JobFits;
  }

  lemma OtherSeriesStillFit(st: Store, st': Store, k0: SeriesKey, k: SeriesKey)
    requires OnlyTouches(st, st', k0) && k in st.series && k != k0 && KeyFits(st, k)
    ensures KeyFits(st', k)
  {
    hide KeyFits;
    SameKeyFits(st, st', k);
  }

  lemma StepKeepsInv(st: Store, st': Store, k0: SeriesKey)
    requires Inv(st) && OnlyTouches(st, st', k0) && KeyFits(st', k0)
    ensures Inv(st')
  {
    hide KeyFits;
    StepKeepsKeys(st, st', k0);
    hide AllKeysFit;
  }

  lemma StepKeepsKeys(st: Store, st': Store, k0: SeriesKey)
    requires AllKeysFit(st) && OnlyTouches(st, st', k0) && KeyFits(st', k0)
    ensures AllKeysFit(st')
  {
    forall k | k in st'.series ensures KeyFits(st', k) {
      hide KeyFits;
      if k != k0 {
        OtherSeriesStillFit(st, st', k0, k);
      }
    }
    hide KeyFits, OnlyTouches;
  }

  lemma LegalHistoryGrows(h: seq<JobState>, s: JobState)
    requires LegalHistory(h) && LegalStep(h[|h| - 1], s)
    ensures LegalHistory(h + [s])
  {
    hide LegalStep;
  }

  // ---- submit ----

  lemma FirstSubmitFits(st: Store, request: Request, jobId: JobId)
    requires Inv(st) && request.key !in st.series && SubmitError(st, request).None? && jobId !in st.jobs
    ensures KeyFits(Submitted(st, request, jobId), request.key)
  {
    hide *;
    FirstSubmitParts(st, request, jobId);
    NewKeyFits(Submitted(st, request, jobId), request.key, jobId);
  }

  lemma FirstSubmitParts(st: Store, request: Request, jobId: JobId)
    requires Inv(st) && request.key !in st.series && SubmitError(st, request).None? && jobId !in st.jobs
    ensures var st', k := Submitted(st, request, jobId), request.key;
      && k in st'.series && jobId in st'.jobs && (forall j :: j in st'.jobs && st'.jobs[j].key == k <==> j == jobId)
      && st'.jobs[jobId].seriesVersion == 1 && JobFits(st'.jobs[jobId]) && st'.jobs[jobId].successor.None?
      && st'.jobs[jobId].state == Queued && st'.jobs[jobId].round == 1 && st'.jobs[jobId].attempt == 1
      && st'.series[k].latestJobId == jobId && st'.series[k].seriesVersion == 1 && st'.series[k].acceptedRounds == []
      && st'.series[k].attemptsByRound == map[1 := 1] && st'.series[k].status == Running && st'.series[k].adjudication.None?
  {
    hide KeyFits;
    assert LegalHistory([Queued]);
  }

  lemma NewKeyFits(st: Store, k: SeriesKey, jobId: JobId)
    requires k in st.series && jobId in st.jobs && (forall j :: j in st.jobs && st.jobs[j].key == k <==> j == jobId)
    requires st.jobs[jobId].seriesVersion == 1 && JobFits(st.jobs[jobId]) && st.jobs[jobId].successor.None?
    requires st.jobs[jobId].state == Queued && st.jobs[jobId].round == 1 && st.jobs[jobId].attempt == 1
    requires st.series[k].latestJobId == jobId && st.series[k].seriesVersion == 1 && st.series[k].acceptedRounds == []
    requires st.series[k].attemptsByRound == map[1 := 1] && st.series[k].status == Running && st.series[k].adjudication.None?
    ensures KeyFits(st, k)
  {
    assert HasVersion(st, k, 1);
    assert UpTo(0) == [];
    hide JobFits;
  }

  lemma NextSubmitCounts(s: Series, round: nat, attempt: nat, jobId: JobId)
    requires Counted(s) && round == NextRound(s) <= 3 && attempt == AttemptsOf(s, round) + 1 <= 2
    ensures Counted(s.(latestJobId := jobId, seriesVersion := s.seriesVersion + 1,
                       attemptsByRound := s.attemptsByRound[round := attempt], status := Running))
  {
  }

  lemma NextSubmitNumbers(st: Store, st': Store, k: SeriesKey, n: nat, jobId: JobId)
    requires Numbered(st, k, n) && jobId !in st.jobs && st'.jobs.Keys == st.jobs.Keys + {jobId}
    requires forall j :: j in st.jobs ==> st'.jobs[j].key == st.jobs[j].key && st'.jobs[j].seriesVersion == st.jobs[j].seriesVersion
    requires st'.jobs[jobId].key == k && st'.jobs[jobId].seriesVersion == n + 1
    ensures Numbered(st', k, n + 1)
  {
    forall v | 1 <= v <= n + 1 ensures HasVersion(st', k, v) {
      if v <= n {
        assert HasVersion(st, k, v);
        var j :| j in st.jobs && st.jobs[j].key == k && st.jobs[j].seriesVersion == v;
        assert j in st'.jobs;
      } else {
        assert jobId in st'.jobs;
      }
    }
  }

  lemma NextSubmitLinks(st: Store, request: Request, jobId: JobId)
    requires request.key in st.series && SubmitError(st, request).None? && jobId !in st.jobs && KeyFits(st, request.key)
    requires st.series[request.key].status == Idle && !Exhausted(st.series[request.key])
    ensures JobsFit(Submitted(st, request, jobId), request.key)
  {
    var st', k := Submitted(st, request, jobId), request.key;
    assert LegalHistory([Queued]);
    forall j | j in st'.jobs && st'.jobs[j].key == k ensures LinkFits(st', k, j) && JobFits(st'.jobs[j]) {
      if j in st.jobs { assert LinkFits(st, k, j) && JobFits(st.jobs[j]); }
      hide LegalHistory;
    }
  }

  lemma NextSubmitFits(st: Store, request: Request, jobId: JobId)
    requires request.key in st.series && SubmitError(st, request).None? && jobId !in st.jobs && KeyFits(st, request.key)
    ensures KeyFits(Submitted(st, request, jobId), request.key)
  {
    hide *;
    NextSubmitParts(st, request, jobId);
    var st', k := Submitted(st, request, jobId), request.key;
    var s := st.series[k];
    NextSubmitCounts(s, NextRound(s), AttemptsOf(s, NextRound(s)) + 1, jobId);
    NextSubmitNumbers(st, st', k, s.seriesVersion, jobId);
    NextSubmitLinks(st, request, jobId);
    NextSubmitLatest(s, st.jobs[s.latestJobId], st'.series[k], st'.jobs[jobId]);
    Assemble(st', k);
  }

  lemma Assemble(st: Store, k: SeriesKey)
    requires k in st.series && Counted(st.series[k])
    requires st.series[k].latestJobId in st.jobs && st.jobs[st.series[k].latestJobId].key == k
    requires LatestFits(st.series[k], st.jobs[st.series[k].latestJobId])
    requires Numbered(st, k, st.series[k].seriesVersion) && JobsFit(st, k)
    ensures KeyFits(st, k)
  {
  }

  lemma NextSubmitParts(st: Store, request: Request, jobId: JobId)
    requires request.key in st.series && SubmitError(st, request).None? && jobId !in st.jobs && KeyFits(st, request.key)
    ensures var st', k := Submitted(st, request, jobId), request.key;
            var s := st.series[k];
            var round, attempt := NextRound(s), AttemptsOf(s, NextRound(s)) + 1;
      && s.latestJobId in st.jobs && Counted(s) && Numbered(st, k, s.seriesVersion)
      && LatestFits(s, st.jobs[s.latestJobId]) && IsTerminal(st.jobs[s.latestJobId].state)
      && s.status == Idle && !Exhausted(s) && round <= 3 && attempt <= 2
      && k in st'.series && st'.jobs.Keys == st.jobs.Keys + {jobId}
      && st'.series[k] == s.(latestJobId := jobId, seriesVersion := s.seriesVersion + 1,
                             attemptsByRound := s.attemptsByRound[round := attempt], status := Running)
      && st'.jobs[jobId] == NewJob(request, s.seriesVersion + 1, round, attempt)
      && st'.jobs[jobId].key == k && st'.jobs[jobId].seriesVersion == s.seriesVersion + 1
      && st'.jobs[jobId].state == Queued && st'.jobs[jobId].successor.None?
      && st'.jobs[jobId].round == round && st'.jobs[jobId].attempt == attempt
      && (forall j :: j in st.jobs ==> st'.jobs[j].key == st.jobs[j].key && st'.jobs[j].seriesVersion == st.jobs[j].seriesVersion)
  {
    hide Counted, Numbered, JobsFit;
  }

  lemma NextSubmitLatest(s: Series, latest: Job, s': Series, job: Job)
    requires LatestFits(s, latest) && IsTerminal(latest.state) && NextRound(s) <= 3 && AttemptsOf(s, NextRound(s)) + 1 <= 2
    requires s'.seriesVersion == job.seriesVersion && s'.status == Running && s'.adjudication == s.adjudication
    requires s'.acceptedRounds == s.acceptedRounds
    requires s'.attemptsByRound == s.attemptsByRound[NextRound(s) := AttemptsOf(s, NextRound(s)) + 1]
    requires job.state == Queued && job.successor.None?
    requires job.round == NextRound(s) && job.attempt == AttemptsOf(s, NextRound(s)) + 1
    ensures LatestFits(s', job)
  {
  }

  lemma SubmitTouchesOneSeries(st: Store, request: Request, jobId: JobId)
    requires Inv(st) && SubmitError(st, request).None? && jobId !in st.jobs
    ensures OnlyTouches(st, Submitted(st, request, jobId), request.key)
    ensures request.key in st.series ==> KeyFits(st, request.key)
  {
    hide KeyFits;
    if request.key in st.series {
      LatestIsThere(st, request.key);
    }
  }

  lemma LatestIsThere(st: Store, k: SeriesKey)
    requires Inv(st) && k in st.series
    ensures KeyFits(st, k) && st.series[k].latestJobId in st.jobs && st.jobs[st.series[k].latestJobId].key == k
  {
    assert KeyFits(st, k);
    hide Numbered, JobsFit, Counted, LatestFits;
  }

  lemma SubmitKeepsInv(st: Store, request: Request, jobId: JobId)
    requires Inv(st) && SubmitError(st, request).None? && jobId !in st.jobs
    ensures Inv(Submitted(st, request, jobId))
  {
    hide *;
    SubmitTouchesOneSeries(st, request, jobId);
    if request.key in st.series {
      NextSubmitFits(st, request, jobId);
    } else {
      FirstSubmitFits(st, request, jobId);
    }
    StepKeepsInv(st, Submitted(st, request, jobId), request.key);
  }

  // ---- transition, complete, adjudicate ----

  /** An unfinished job, and one awaiting the user, is the latest of its series. */
  lemma UnfinishedIsLatest(st: Store, j: JobId)
    requires Inv(st) && j in st.jobs && (!IsTerminal(st.jobs[j].state) || st.jobs[j].state == AwaitingUserDecision)
    ensures st.jobs[j].key in st.series && st.series[st.jobs[j].key].latestJobId == j && KeyFits(st, st.jobs[j].key)
    ensures Counted(st.series[st.jobs[j].key]) && LatestFits(st.series[st.jobs[j].key], st.jobs[j]) && JobFits(st.jobs[j])
  {
    var k := st.jobs[j].key;
    assert KeyFits(st, k);
    assert LinkFits(st, k, j) && JobFits(st.jobs[j]);
    hide Counted, LatestFits, Numbered, JobFits;
  }

  /** Rewriting the latest job and its series record keeps everything that depends on other jobs. */
  lemma LatestUpdateFits(st: Store, k: SeriesKey, job: Job, s: Series)
    requires k in st.series && KeyFits(st, k)
    requires job.key == k && job.seriesVersion == st.jobs[st.series[k].latestJobId].seriesVersion
    requires job.successor == st.jobs[st.series[k].latestJobId].successor
    requires s.latestJobId == st.series[k].latestJobId && s.seriesVersion == st.series[k].seriesVersion
    requires Counted(s) && LatestFits(s, job) && JobFits(job)
    ensures KeyFits(Store(st.jobs[s.latestJobId := job], st.series[k := s]), k)
  {
    var st' := Store(st.jobs[s.latestJobId := job], st.series[k := s]);
    forall v | 1 <= v <= s.seriesVersion ensures HasVersion(st', k, v) {
      assert HasVersion(st, k, v);
      var j :| j in st.jobs && st.jobs[j].key == k && st.jobs[j].seriesVersion == v;
      assert st'.jobs[j].key == k;
    }
    forall j | j in st'.jobs && st'.jobs[j].key == k ensures LinkFits(st', k, j) && JobFits(st'.jobs[j]) {
      assert LinkFits(st, k, j) && JobFits(st.jobs[j]);
    }
    hide Counted, LatestFits, JobFits;
  }

  lemma LatestUpdateKeepsInv(st: Store, k: SeriesKey, job: Job, s: Series)
    requires Inv(st) && k in st.series && KeyFits(st, k)
    requires job.key == k && job.seriesVersion == st.jobs[st.series[k].latestJobId].seriesVersion
    requires job.successor == st.jobs[st.series[k].latestJobId].successor
    requires s.latestJobId == st.series[k].latestJobId && s.seriesVersion == st.series[k].seriesVersion
    requires Counted(s) && LatestFits(s, job) && JobFits(job)
    ensures Inv(Store(st.jobs[s.latestJobId := job], st.series[k := s]))
  {
    hide *;
    LatestIsThere(st, k);
    LatestUpdateTouches(st, k, job, s);
    LatestUpdateFits(st, k, job, s);
    StepKeepsInv(st, Store(st.jobs[s.latestJobId := job], st.series[k := s]), k);
  }

  lemma LatestUpdateTouches(st: Store, k: SeriesKey, job: Job, s: Series)
    requires k in st.series && s.latestJobId in st.jobs && st.jobs[s.latestJobId].key == k && job.key == k
    ensures OnlyTouches(st, Store(st.jobs[s.latestJobId := job], st.series[k := s]), k)
  {
  }

  lemma TransitionKeepsInv(st: Store, j: JobId, state: JobState, patch: Patch)
    requires Inv(st) && TransitionError(st, j, state).None?
    ensures Inv(Transitioned(st, j, state, patch))
  {
    TransitionParts(st, j, state, patch);
    hide *;
    UnfinishedIsLatest(st, j);
    var st' := Transitioned(st, j, state, patch);
    var k := st.jobs[j].key;
    TransitionedFits(st.series[k], st.jobs[j], st'.jobs[j]);
    TransitionedHistory(st.jobs[j], st'.jobs[j]);
    LatestUpdateKeepsInv(st, k, st'.jobs[j], st.series[k]);
  }

  lemma TransitionParts(st: Store, j: JobId, state: JobState, patch: Patch)
    requires TransitionError(st, j, state).None?
    ensures j in st.jobs && !IsTerminal(st.jobs[j].state) && state in AllowedTransitions(st.jobs[j].state)
    ensures var st' := Transitioned(st, j, state, patch);
            var job, job' := st.jobs[j], st'.jobs[j];
      && j in st'.jobs && LegalStep(job.state, state) && job'.state == state && job'.history == job.history + [state]
      && job' == job.(state := job'.state, history := job'.history, review := job'.review, testResults := job'.testResults)
      && job'.key == job.key && job'.seriesVersion == job.seriesVersion && job'.successor == job.successor
      && (job.key in st.series ==> st' == Store(st.jobs[j := job'], st.series[job.key := st.series[job.key]]))
  {
  }

  lemma TransitionedHistory(job: Job, job': Job)
    requires JobFits(job) && LegalStep(job.state, job'.state) && job'.history == job.history + [job'.state]
    ensures JobFits(job')
  {
    LegalHistoryGrows(job.history, job'.state);
  }

  lemma TransitionedFits(s: Series, latest: Job, latest': Job)
    requires LatestFits(s, latest) && !IsTerminal(latest.state) && latest'.state in AllowedTransitions(latest.state)
    requires latest' == latest.(state := latest'.state, history := latest'.history, review := latest'.review, testResults := latest'.testResults)
    ensures LatestFits(s, latest')
  {
  }

  lemma UpToGrows(m: nat)
    ensures SortedUnique(UpTo(m) + [m + 1]) == UpTo(m + 1)
  {
    var s := UpTo(m + 1);
    assert UpTo(m) + [m + 1] == s;
    assert Distinct(s);
    UpToAscends(m + 1, 0);
    assert s[0..] == s;
    DedupeLength(s);
    SortIsAPermutation(Dedupe(s));
    DistinctListsOfOneSet(Dedupe(s), s);
    AscendingIsUnique(SortedUnique(s), s);
  }

  lemma {:induction false} UpToAscends(n: nat, i: nat)
    requires i <= n
    ensures Ascending(UpTo(n)[i..])
    decreases n - i
  {
    if i < n {
      UpToAscends(n, i + 1);
      assert UpTo(n)[i..][1..] == UpTo(n)[i + 1..];
    }
  }

  lemma CompletedCounts(s: Series, job: Job, input: Completion)
    requires Counted(s) && LatestFits(s, job) && !IsTerminal(job.state)
    ensures Counted(CompletedSeries(s, job, input))
    ensures |CompletedSeries(s, job, input).acceptedRounds| == |s.acceptedRounds| + if input.acceptedRound then 1 else 0
  {
    hide *;
    RoundUnderWay(s, job);
    UpToGrows(|s.acceptedRounds|);
    RoundsAfter(s, job, input);
    RoundsKeepCount(s, CompletedSeries(s, job, input), if input.acceptedRound then job.round else |s.acceptedRounds|);
  }

  lemma RoundUnderWay(s: Series, job: Job)
    requires Counted(s) && LatestFits(s, job) && !IsTerminal(job.state)
    ensures s.acceptedRounds == UpTo(|s.acceptedRounds|) && |UpTo(job.round)| == job.round
    ensures job.round == |s.acceptedRounds| + 1 <= 3 && job.round in s.attemptsByRound
  {
    hide IsTerminal;
  }

  lemma RoundsAfter(s: Series, job: Job, input: Completion)
    ensures var s' := CompletedSeries(s, job, input);
      && s'.acceptedRounds == (if input.acceptedRound then SortedUnique(s.acceptedRounds + [job.round]) else s.acceptedRounds)
      && s'.attemptsByRound == s.attemptsByRound && s'.seriesVersion == s.seriesVersion
  {
    hide SortedUnique, CompletionState, GatePasses;
  }

  lemma RoundsKeepCount(s: Series, s': Series, m: nat)
    requires Counted(s) && |s.acceptedRounds| <= m <= |s.acceptedRounds| + 1 && m <= 3
    requires s'.acceptedRounds == UpTo(m) && s'.attemptsByRound == s.attemptsByRound && s'.seriesVersion == s.seriesVersion
    requires m > |s.acceptedRounds| ==> m in s.attemptsByRound
    ensures Counted(s') && |s'.acceptedRounds| == m
  {
  }

  lemma CompletedFits(s: Series, job: Job, input: Completion)
    requires Counted(s) && LatestFits(s, job) && !IsTerminal(job.state) && IsCompletion(input)
    ensures LatestFits(CompletedSeries(s, job, input), CompletedJob(job, input))
  {
    CompletedCounts(s, job, input);
    hide SortedUnique, Counted;
  }

  lemma CompleteKeepsInv(st: Store, j: JobId, input: Completion)
    requires Inv(st) && CompleteError(st, j).None? && IsCompletion(input)
    ensures Inv(CompletedStore(st, j, input))
  {
    UnfinishedIsLatest(st, j);
    hide Inv, KeyFits, Counted, LatestFits, JobFits, SortedUnique;
    var k := st.jobs[j].key;
    var s := st.series[k];
    CompletedCounts(s, st.jobs[j], input);
    CompletedFits(s, st.jobs[j], input);
    TransitionedHistory(st.jobs[j], CompletedJob(st.jobs[j], input));
    LatestUpdateKeepsInv(st, k, CompletedJob(st.jobs[j], input), CompletedSeries(s, st.jobs[j], input));
  }

  lemma AdjudicateKeepsInv(st: Store, j: JobId, a: Adjudication)
    requires Inv(st) && AdjudicateError(st, j, a).None?
    ensures Inv(Adjudicated(st, j, a))
  {
    assert st.jobs[j].state == AwaitingUserDecision && st.series[st.jobs[j].key].status == SeriesAwaitingUser
      by { hide Inv, DecisionIsExclusive, DecisionIsComplete; }
    UnfinishedIsLatest(st, j);
    hide Inv, KeyFits, Counted, LatestFits, JobFits, DecisionIsExclusive, DecisionIsComplete;
    var k := st.jobs[j].key;
    AdjudicatedFits(st.series[k], st.jobs[j], a);
    LatestUpdateKeepsInv(st, k, st.jobs[j].(adjudication := Some(a)), st.series[k].(status := Idle, adjudication := Some(a)));
  }

  lemma AdjudicatedFits(s: Series, job: Job, a: Adjudication)
    requires Counted(s) && LatestFits(s, job) && JobFits(job) && s.status == SeriesAwaitingUser
    ensures Counted(s.(status := Idle, adjudication := Some(a)))
    ensures LatestFits(s.(status := Idle, adjudication := Some(a)), job.(adjudication := Some(a)))
    ensures JobFits(job.(adjudication := Some(a)))
  {
  }

  // ---- recovery ----

  lemma RecoveredKeyFits(st: Store, k: SeriesKey)
    requires Inv(st) && k in st.series
    ensures KeyFits(Recovered(st), k)
  {
    hide *;
    LatestIsThere(st, k);
    OthersAreSettled(st, k);
    RecoveredKeyIs(st, k);
    if IsInterrupted(st, st.series[k].latestJobId) {
      CompleteInterrupted(st, k);
      SameKeyFits(CompletedStore(st, st.series[k].latestJobId, RECOVERY), Recovered(st), k);
    } else {
      SameKeyFits(st, Recovered(st), k);
    }
  }

  lemma OthersAreSettled(st: Store, k: SeriesKey)
    requires Inv(st) && k in st.series
    ensures forall i :: i in st.jobs && st.jobs[i].key == k && i != st.series[k].latestJobId ==> IsTerminal(st.jobs[i].state)
  {
    forall i | i in st.jobs && st.jobs[i].key == k && i != st.series[k].latestJobId ensures IsTerminal(st.jobs[i].state) {
      hide Inv;
      if !IsTerminal(st.jobs[i].state) { UnfinishedIsLatest(st, i); }
    }
    hide Inv;
  }

  lemma CompleteInterrupted(st: Store, k: SeriesKey)
    requires Inv(st) && k in st.series && IsInterrupted(st, st.series[k].latestJobId) && st.jobs[st.series[k].latestJobId].key == k
    ensures CompleteError(st, st.series[k].latestJobId).None?
    ensures KeyFits(CompletedStore(st, st.series[k].latestJobId, RECOVERY), k)
  {
    hide Inv, KeyFits;
    CompleteKeepsInv(st, st.series[k].latestJobId, RECOVERY);
    LatestIsThere(CompletedStore(st, st.series[k].latestJobId, RECOVERY), k);
  }

  lemma RecoveredKeyIs(st: Store, k: SeriesKey)
    requires k in st.series && st.series[k].latestJobId in st.jobs && st.jobs[st.series[k].latestJobId].key == k
    requires forall i :: i in st.jobs && st.jobs[i].key == k && i != st.series[k].latestJobId ==> IsTerminal(st.jobs[i].state)
    ensures var j := st.series[k].latestJobId;
            if IsInterrupted(st, j) then CompleteError(st, j).None? && SameKey(CompletedStore(st, j, RECOVERY), Recovered(st), k)
            else SameKey(st, Recovered(st), k)
  {
    hide CompletedSeries;
  }

  lemma RecoveryKeepsInv(st: Store)
    requires Inv(st)
    ensures Inv(Recovered(st))
  {
    hide KeyFits;
    forall k | k in st.series ensures KeyFits(Recovered(st), k) {
      RecoveredKeyFits(st, k);
    }
    hide RecoveredSeries;
  }

  /** After a recovery no job is unfinished, and recovering again changes nothing. */
  lemma RecoverySettlesEverything(st: Store)
    ensures forall j :: j in Recovered(st).jobs ==> IsTerminal(Recovered(st).jobs[j].state)
    ensures Recovered(Recovered(st)) == Recovered(st)
  {
    var st' := Recovered(st);
    SettledStoreIsFixed(st');
  }

  lemma SettledStoreIsFixed(st: Store)
    requires forall j :: j in st.jobs ==> IsTerminal(st.jobs[j].state)
    ensures Recovered(st) == st
  {
    hide CompletedJob, CompletedSeries;
    assert Recovered(st).jobs == st.jobs;
    assert Recovered(st).series == st.series;
  }
}
