/** What holds of every v2 series, in every reachable store and along every run. */
module V2SeriesTheorems {
  import opened Options
  import opened Paths
  import opened IdSets
  import opened V2Gate
  import opened V2Series
  import opened V2SeriesInvariants

  datatype Op =
    | Submit(request: Request, newJobId: JobId)
    | Transition(jobId: JobId, state: JobState, patch: Patch)
    | Complete(jobId: JobId, input: Completion)
    | Adjudicate(jobId: JobId, decision: Adjudication)
    | Recover

  /** Fresh job identifiers are random; callers complete with one of the three outcomes. */
  predicate Enabled(st: Store, op: Op) {
    match op
    case Submit(_, jobId) => jobId !in st.jobs
    case Complete(_, input) => IsCompletion(input)
    case _ => true
  }

  predicate Accepted(st: Store, op: Op) {
    match op
    case Submit(request, _) => SubmitError(st, request).None?
    case Transition(j, state, _) => TransitionError(st, j, state).None?
    case Complete(j, _) => CompleteError(st, j).None?
    case Adjudicate(j, a) => AdjudicateError(st, j, a).None?
    case Recover => true
  }

  /** One operation under its lock; a rejected one changes nothing. */
  function Step(st: Store, op: Op): Store {
    if !Accepted(st, op) then st else
      match op
      case Submit(request, jobId) => Submitted(st, request, jobId)
      case Transition(j, state, patch) => Transitioned(st, j, state, patch)
      case Complete(j, input) => CompletedStore(st, j, input)
      case Adjudicate(j, a) => Adjudicated(st, j, a)
      case Recover => Recovered(st)
  }

  function Run(st: Store, ops: seq<Op>): Store {
    if ops == [] then st else Step(Run(st, ops[..|ops| - 1]), ops[|ops| - 1])
  }

  ghost predicate ValidRun(st: Store, ops: seq<Op>) {
    forall i :: 0 <= i < |ops| ==> Enabled(Run(st, ops[..i]), ops[i])
  }

  const EMPTY := Store(map[], map[])

  lemma StepKeepsInv(st: Store, op: Op)
    requires Inv(st) && Enabled(st, op)
    ensures Inv(Step(st, op))
  {
    hide Inv, SubmitError, TransitionError, CompleteError, AdjudicateError;
    hide Submitted, Transitioned, CompletedStore, Adjudicated, Recovered;
    if Accepted(st, op) {
      match op
      case Submit(request, jobId) => SubmitKeepsInv(st, request, jobId);
      case Transition(j, state, patch) => TransitionKeepsInv(st, j, state, patch);
      case Complete(j, input) => CompleteKeepsInv(st, j, input);
      case Adjudicate(j, a) => AdjudicateKeepsInv(st, j, a);
      case Recover => RecoveryKeepsInv(st);
    }
  }

  /** Every reachable store satisfies the invariant. */
  lemma {:induction false} ReachableStoresFit(st: Store, ops: seq<Op>)
    requires Inv(st) && ValidRun(st, ops)
    ensures Inv(Run(st, ops))
  {
    hide Inv, Step, Enabled;
    if ops != [] {
      var n := |ops| - 1;
      RunPrefix(st, ops, n);
      ReachableStoresFit(st, ops[..n]);
      assert Enabled(Run(st, ops[..n]), ops[n]);
      StepKeepsInv(Run(st, ops[..n]), ops[n]);
    }
  }

  lemma RunPrefix(st: Store, ops: seq<Op>, n: nat)
    requires n <= |ops| && ValidRun(st, ops)
    ensures ValidRun(st, ops[..n])
  {
    forall i | 0 <= i < n ensures Enabled(Run(st, ops[..n][..i]), ops[..n][i]) {
      assert ops[..n][..i] == ops[..i];
    }
  }

  // ---- Bounds ----

  ghost function JobsUpTo(st: Store, k: SeriesKey, v: nat): set<JobId> {
    set j | j in st.jobs && st.jobs[j].key == k && st.jobs[j].seriesVersion <= v
  }

  lemma {:induction false} VersionsCountJobs(st: Store, k: SeriesKey, n: nat, v: nat)
    requires Numbered(st, k, n) && v <= n
    ensures |JobsUpTo(st, k, v)| == v
  {
    if v == 0 {
      assert JobsUpTo(st, k, 0) == {};
    } else {
      VersionsCountJobs(st, k, n, v - 1);
      assert HasVersion(st, k, v);
      var j :| j in st.jobs && st.jobs[j].key == k && st.jobs[j].seriesVersion == v;
      assert JobsUpTo(st, k, v) == JobsUpTo(st, k, v - 1) + {j};
    }
  }

  ghost function JobsOf(st: Store, k: SeriesKey): set<JobId> {
    set j | j in st.jobs && st.jobs[j].key == k
  }

  /** Rounds are 1..m with m at most 3, and the version counts both the jobs and the attempts, six at most. */
  lemma SeriesIsBounded(st: Store, k: SeriesKey)
    requires Inv(st) && k in st.series
    ensures var s := st.series[k];
      && s.acceptedRounds == UpTo(|s.acceptedRounds|) && |s.acceptedRounds| <= 3
      && s.seriesVersion == |JobsOf(st, k)| == AttemptsOf(s, 1) + AttemptsOf(s, 2) + AttemptsOf(s, 3)
      && s.seriesVersion <= 6
      && (forall r :: AttemptsOf(s, r) <= 2 && (AttemptsOf(s, r) > 0 ==> 1 <= r <= 3))
  {
    hide *;
    LatestIsThere(st, k);
    SeriesParts(st, k);
    var n := st.series[k].seriesVersion;
    VersionsCountJobs(st, k, n, n);
    AllJobsAreNumbered(st, k, n);
    CountedBounds(st.series[k]);
  }

  lemma SeriesParts(st: Store, k: SeriesKey)
    requires k in st.series && KeyFits(st, k)
    ensures Counted(st.series[k]) && Numbered(st, k, st.series[k].seriesVersion)
  {
  }

  lemma AllJobsAreNumbered(st: Store, k: SeriesKey, n: nat)
    requires Numbered(st, k, n)
    ensures JobsUpTo(st, k, n) == JobsOf(st, k)
  {
  }

  lemma CountedBounds(s: Series)
    requires Counted(s)
    ensures s.acceptedRounds == UpTo(|s.acceptedRounds|) && |s.acceptedRounds| <= 3
    ensures s.seriesVersion == AttemptsOf(s, 1) + AttemptsOf(s, 2) + AttemptsOf(s, 3) && s.seriesVersion <= 6
    ensures forall r :: AttemptsOf(s, r) <= 2 && (AttemptsOf(s, r) > 0 ==> 1 <= r <= 3)
  {
    hide UpTo;
  }

  /** At most one job of a series is unfinished; it is the latest, and its series is running. */
  lemma OnlyTheLatestIsUnfinished(st: Store, j: JobId)
    requires Inv(st) && j in st.jobs && !IsTerminal(st.jobs[j].state)
    ensures st.jobs[j].key in st.series
    ensures st.series[st.jobs[j].key].latestJobId == j && st.series[st.jobs[j].key].status == Running
    ensures forall i :: i in st.jobs && st.jobs[i].key == st.jobs[j].key && i != j ==> IsTerminal(st.jobs[i].state)
  {
    UnfinishedIsLatest(st, j);
    OthersAreSettled(st, st.jobs[j].key);
    hide Inv, KeyFits;
  }

  /**
   * The jobs form one chain: every job but the latest has one successor, with the next version, and no two share
   * it. They are numbered 1..n, each number taken once, and the latest has n.
   */
  lemma JobsFormOneChain(st: Store, i: JobId, j: JobId)
    requires Inv(st) && i in st.jobs && j in st.jobs && st.jobs[i].key == st.jobs[j].key
    ensures st.jobs[i].key in st.series
    ensures st.jobs[i].successor.None? <==> i == st.series[st.jobs[i].key].latestJobId
    ensures st.jobs[i].successor.Some? ==>
      var next := st.jobs[i].successor.value;
      next in st.jobs && st.jobs[next].key == st.jobs[i].key && st.jobs[next].seriesVersion == st.jobs[i].seriesVersion + 1
    ensures st.jobs[i].successor.Some? && st.jobs[i].successor == st.jobs[j].successor ==> i == j
    ensures st.series[st.jobs[i].key].seriesVersion == |JobsOf(st, st.jobs[i].key)|
    ensures 1 <= st.jobs[i].seriesVersion <= |JobsOf(st, st.jobs[i].key)| && (st.jobs[i].seriesVersion == st.jobs[j].seriesVersion ==> i == j)
    ensures forall v :: 1 <= v <= |JobsOf(st, st.jobs[i].key)| ==> HasVersion(st, st.jobs[i].key, v)
    ensures i == st.series[st.jobs[i].key].latestJobId <==> st.jobs[i].seriesVersion == |JobsOf(st, st.jobs[i].key)|
  {
    hide *;
    var k := st.jobs[i].key;
    LatestJobExists(st, i);
    SeriesIsBounded(st, k);
    LinksFormAChain(st, i, j);
    JobsAreNumbered(st, i, j);
  }

  lemma LatestJobExists(st: Store, i: JobId)
    requires Inv(st) && i in st.jobs
    ensures st.jobs[i].key in st.series
  {
    hide AllKeysFit;
  }

  lemma JobsAreNumbered(st: Store, i: JobId, j: JobId)
    requires Inv(st) && i in st.jobs && j in st.jobs && st.jobs[i].key == st.jobs[j].key && st.jobs[i].key in st.series
    ensures var k := st.jobs[i].key;
      var n := st.series[k].seriesVersion;
      && 1 <= st.jobs[i].seriesVersion <= n && (st.jobs[i].seriesVersion == st.jobs[j].seriesVersion ==> i == j)
      && (forall v :: 1 <= v <= n ==> HasVersion(st, k, v))
      && (i == st.series[k].latestJobId <==> st.jobs[i].seriesVersion == n)
  {
    LatestIsThere(st, st.jobs[i].key);
    LatestOf(st, st.jobs[i].key);
    NumbersIn(st, st.jobs[i].key);
    hide Inv, KeyFits, HasVersion;
  }

  lemma NumbersIn(st: Store, k: SeriesKey)
    requires k in st.series && KeyFits(st, k)
    ensures Numbered(st, k, st.series[k].seriesVersion)
  {
    hide Counted, LatestFits, JobsFit, Numbered;
  }

  lemma LinksFormAChain(st: Store, i: JobId, j: JobId)
    requires Inv(st) && i in st.jobs && j in st.jobs && st.jobs[i].key == st.jobs[j].key
    ensures st.jobs[i].key in st.series
    ensures st.jobs[i].successor.None? <==> i == st.series[st.jobs[i].key].latestJobId
    ensures st.jobs[i].successor.Some? ==>
      var next := st.jobs[i].successor.value;
      next in st.jobs && st.jobs[next].key == st.jobs[i].key && st.jobs[next].seriesVersion == st.jobs[i].seriesVersion + 1
    ensures st.jobs[i].successor.Some? && st.jobs[i].successor == st.jobs[j].successor ==> i == j
  {
    var k := st.jobs[i].key;
    LatestIsThere(st, k);
    assert LinkFits(st, k, i) && LinkFits(st, k, j);
    hide Inv, Counted, LatestFits, HasVersion, JobFits;
  }

  // ---- What a step does to a series ----

  predicate Settled(s: Series) {
    Exhausted(s) && s.status != Running
  }

  ghost predicate Advances(s: Series, s': Series, submitted: bool) {
    && s'.contract == s.contract
    && s'.seriesVersion == s.seriesVersion + (if submitted then 1 else 0)
    && (s.adjudication.Some? ==> s'.adjudication == s.adjudication)
    && (s.status == Completed ==> s' == s)
    && (Settled(s) ==> Settled(s') && !submitted)
  }

  predicate SubmitsTo(st: Store, op: Op, k: SeriesKey) {
    op.Submit? && op.request.key == k && Accepted(st, op)
  }

  lemma SubmitAdvances(st: Store, request: Request, jobId: JobId, k: SeriesKey)
    requires k in st.series && SubmitError(st, request).None?
    ensures k in Submitted(st, request, jobId).series
    ensures Advances(st.series[k], Submitted(st, request, jobId).series[k], request.key == k)
  {
  }

  lemma CompleteAdvances(st: Store, j: JobId, input: Completion, k: SeriesKey)
    requires Inv(st) && k in st.series && CompleteError(st, j).None?
    ensures k in CompletedStore(st, j, input).series && Advances(st.series[k], CompletedStore(st, j, input).series[k], false)
  {
    hide Inv, KeyFits, Counted, CompletedSeries, Advances;
    UnfinishedIsLatest(st, j);
    CompletedSeriesAdvances(st.series[st.jobs[j].key], st.jobs[j], input);
    SeriesStays(st.series[k]);
  }

  lemma CompletedSeriesAdvances(s: Series, job: Job, input: Completion)
    requires LatestFits(s, job) && !IsTerminal(job.state)
    ensures Advances(s, CompletedSeries(s, job, input), false)
  {
    hide SortedUnique;
  }

  lemma SeriesStays(s: Series)
    ensures Advances(s, s, false)
  {
  }

  lemma AdjudicateAdvances(st: Store, j: JobId, a: Adjudication, k: SeriesKey)
    requires Inv(st) && k in st.series && AdjudicateError(st, j, a).None?
    ensures k in Adjudicated(st, j, a).series && Advances(st.series[k], Adjudicated(st, j, a).series[k], false)
  {
    hide DecisionIsExclusive, DecisionIsComplete;
    hide Inv, KeyFits, Counted;
    UnfinishedIsLatest(st, j);
  }

  lemma RecoverAdvances(st: Store, k: SeriesKey)
    requires Inv(st) && k in st.series
    ensures k in Recovered(st).series && Advances(st.series[k], Recovered(st).series[k], false)
  {
    hide Inv, KeyFits, Counted, SortedUnique;
    LatestIsThere(st, k);
    var j := st.series[k].latestJobId;
    if IsInterrupted(st, j) {
      UnfinishedIsLatest(st, j);
    }
  }

  lemma StepAdvances(st: Store, op: Op, k: SeriesKey)
    requires Inv(st) && Enabled(st, op) && k in st.series
    ensures k in Step(st, op).series && Advances(st.series[k], Step(st, op).series[k], SubmitsTo(st, op, k))
  {
    hide Inv, SubmitError, TransitionError, CompleteError, AdjudicateError;
    hide Submitted, CompletedStore, Adjudicated, Recovered, Settled;
    if Accepted(st, op) {
      match op
      case Submit(request, jobId) => SubmitAdvances(st, request, jobId, k);
      case Transition(j, state, patch) => TransitionSeries(st, op);
      case Complete(j, input) => CompleteAdvances(st, j, input, k);
      case Adjudicate(j, a) => AdjudicateAdvances(st, j, a, k);
      case Recover => RecoverAdvances(st, k);
    }
  }

  lemma TransitionSeries(st: Store, op: Op)
    requires op.Transition? && Accepted(st, op)
    ensures Step(st, op).series == st.series
  {
  }

  /** The series record along a run: contract fixed, version never back, decisions and completion final. */
  ghost predicate AdvancesAlong(s: Series, s': Series) {
    && s'.contract == s.contract && s'.seriesVersion >= s.seriesVersion
    && (s.adjudication.Some? ==> s'.adjudication == s.adjudication)
    && (s.status == Completed ==> s' == s)
    && (Settled(s) ==> Settled(s') && s'.seriesVersion == s.seriesVersion)
  }

  lemma {:induction false} RunAdvances(st: Store, ops: seq<Op>, k: SeriesKey)
    requires Inv(st) && ValidRun(st, ops) && k in st.series
    ensures k in Run(st, ops).series && AdvancesAlong(st.series[k], Run(st, ops).series[k])
  {
    hide Inv, Step, Enabled, Settled;
    if ops != [] {
      var n := |ops| - 1;
      RunPrefix(st, ops, n);
      RunAdvances(st, ops[..n], k);
      ReachableStoresFit(st, ops[..n]);
      assert Enabled(Run(st, ops[..n]), ops[n]);
      StepAdvances(Run(st, ops[..n]), ops[n], k);
    }
  }

  lemma {:induction false} RunConcat(st: Store, a: seq<Op>, b: seq<Op>)
    ensures Run(st, a + b) == Run(Run(st, a), b)
    decreases |b|
  {
    hide Step;
    if b == [] {
      assert a + b == a;
    } else {
      RunConcat(st, a, b[..|b| - 1]);
      assert (a + b)[..|a + b| - 1] == a + b[..|b| - 1];
    }
  }

  lemma RunSplits(st: Store, ops: seq<Op>, n: nat)
    requires n <= |ops| && ValidRun(st, ops)
    ensures Run(st, ops) == Run(Run(st, ops[..n]), ops[n..]) && ValidRun(Run(st, ops[..n]), ops[n..])
  {
    hide Run, Enabled;
    assert ops == ops[..n] + ops[n..];
    RunConcat(st, ops[..n], ops[n..]);
    forall i | 0 <= i < |ops[n..]| ensures Enabled(Run(Run(st, ops[..n]), ops[n..][..i]), ops[n..][i]) {
      assert ops[..n] + ops[n..][..i] == ops[..n + i];
      RunConcat(st, ops[..n], ops[n..][..i]);
      assert Enabled(Run(st, ops[..n + i]), ops[n + i]);
    }
  }

  /** In one run, two accepted submissions of a series never carry the same compare-and-swap token. */
  lemma TokensAreConsumedOnce(st: Store, ops: seq<Op>, i: nat, j: nat, k: SeriesKey)
    requires Inv(st) && ValidRun(st, ops) && i < j < |ops|
    requires SubmitsTo(Run(st, ops[..i]), ops[i], k) && SubmitsTo(Run(st, ops[..j]), ops[j], k)
    ensures ops[i].request.seriesVersion != ops[j].request.seriesVersion
  {
    hide *;
    var mid := Run(st, ops[..i + 1]);
    RunOfPrefix(st, ops, i);
    AcceptedTokens(Run(st, ops[..i]), ops[i], k);
    AcceptedTokens(Run(st, ops[..j]), ops[j], k);
    RunPrefix(st, ops, j);
    RunPrefix(st, ops, i + 1);
    RunSplits(st, ops[..j], i + 1);
    assert ops[..j][..i + 1] == ops[..i + 1];
    ReachableStoresFit(st, ops[..i + 1]);
    RunAdvances(mid, ops[..j][i + 1..], k);
    VersionsGrow(mid.series[k], Run(st, ops[..j]).series[k]);
  }

  lemma RunOfPrefix(st: Store, ops: seq<Op>, i: nat)
    requires i < |ops|
    ensures Run(st, ops[..i + 1]) == Step(Run(st, ops[..i]), ops[i])
  {
    assert ops[..i + 1][..i] == ops[..i];
    hide Step;
  }

  lemma VersionsGrow(s: Series, s': Series)
    requires AdvancesAlong(s, s')
    ensures s'.seriesVersion >= s.seriesVersion
  {
  }

  lemma AcceptedTokens(st: Store, op: Op, k: SeriesKey)
    requires SubmitsTo(st, op, k)
    ensures op.Submit? && k in Step(st, op).series
    ensures op.request.seriesVersion == if k in st.series then Some(st.series[k].seriesVersion) else None
    ensures k in st.series ==> op.request.latestJobId == Some(st.series[k].latestJobId)
    ensures Step(st, op).series[k].seriesVersion == 1 + if k in st.series then st.series[k].seriesVersion else 0
  {
  }

  /** Exactly the submissions that carry the current token and contract, to an idle series with attempts left, succeed. */
  lemma SubmissionSucceedsExactly(st: Store, request: Request)
    requires Inv(st) && request.key in st.series
    ensures var s := st.series[request.key];
      SubmitError(st, request).None? <==>
        && s.status == Idle && !Exhausted(s)
        && request.seriesVersion == Some(s.seriesVersion) && request.latestJobId == Some(s.latestJobId)
        && request.contract == s.contract
  {
    hide *;
    LatestIsThere(st, request.key);
    LatestOf(st, request.key);
    SubmissionDecides(st, request);
  }

  lemma LatestOf(st: Store, k: SeriesKey)
    requires k in st.series && KeyFits(st, k)
    ensures st.series[k].latestJobId in st.jobs && LatestFits(st.series[k], st.jobs[st.series[k].latestJobId])
  {
    hide Counted, Numbered, JobsFit, LatestFits;
  }

  lemma SubmissionDecides(st: Store, request: Request)
    requires request.key in st.series && st.series[request.key].latestJobId in st.jobs
    requires LatestFits(st.series[request.key], st.jobs[st.series[request.key].latestJobId])
    ensures var s := st.series[request.key];
      SubmitError(st, request).None? <==>
        && s.status == Idle && !Exhausted(s)
        && request.seriesVersion == Some(s.seriesVersion) && request.latestJobId == Some(s.latestJobId)
        && request.contract == s.contract
  {
    hide GatePasses;
  }

  /** A completion closes the series exactly by a pass, and hands it to the user exactly when nothing is left to try. */
  lemma CompletionOutcomes(st: Store, j: JobId, input: Completion)
    requires Inv(st) && CompleteError(st, j).None? && IsCompletion(input)
    ensures st.jobs[j].key in CompletedStore(st, j, input).series
    ensures var s, s' := st.series[st.jobs[j].key], CompletedStore(st, j, input).series[st.jobs[j].key];
      && (s'.status == Completed <==> input.acceptedRound && GatePasses(input.gate))
      && (s'.status == SeriesAwaitingUser <==> Exhausted(s') && s'.status != Completed)
      && (s'.status == Idle <==> !Exhausted(s') && s'.status != Completed)
      && |s'.acceptedRounds| == |s.acceptedRounds| + if input.acceptedRound then 1 else 0
  {
    UnfinishedIsLatest(st, j);
    hide Inv, KeyFits;
    CompletedCounts(st.series[st.jobs[j].key], st.jobs[j], input);
    CompletionDecides(st.series[st.jobs[j].key], st.jobs[j], input);
    hide Counted, LatestFits, CompletedSeries, CompletedJob, Exhausted;
  }

  lemma CompletionDecides(s: Series, job: Job, input: Completion)
    requires Counted(s) && LatestFits(s, job) && !IsTerminal(job.state) && IsCompletion(input)
    ensures var s' := CompletedSeries(s, job, input);
      && (s'.status == Completed <==> input.acceptedRound && GatePasses(input.gate))
      && (s'.status == SeriesAwaitingUser <==> Exhausted(s') && s'.status != Completed)
      && s'.status != Running
  {
    CompletedCounts(s, job, input);
    hide SortedUnique;
  }

  /** A series awaiting the user has used up its rounds, or the attempts of its round. */
  lemma AwaitingUserMeansExhausted(st: Store, k: SeriesKey)
    requires Inv(st) && k in st.series && st.series[k].status == SeriesAwaitingUser
    ensures Settled(st.series[k])
  {
    LatestIsThere(st, k);
    hide Inv, Counted, Numbered, JobsFit;
  }

  /** After that, nobody ever submits to it again, adjudicated or not. */
  lemma SettledSeriesTakesNoSubmission(st: Store, ops: seq<Op>, i: nat, k: SeriesKey)
    requires Inv(st) && ValidRun(st, ops) && i < |ops| && k in st.series && Settled(st.series[k])
    ensures !SubmitsTo(Run(st, ops[..i]), ops[i], k)
    ensures k in Run(st, ops).series && Run(st, ops).series[k].seriesVersion == st.series[k].seriesVersion
  {
    hide *;
    RunAdvances(st, ops, k);
    RunPrefix(st, ops, i);
    RunAdvances(st, ops[..i], k);
    ReachableStoresFit(st, ops[..i]);
    EnabledAt(st, ops, i);
    StepAdvances(Run(st, ops[..i]), ops[i], k);
    SettledAlong(st.series[k], Run(st, ops[..i]).series[k]);
    SettledAlong(st.series[k], Run(st, ops).series[k]);
    NoSubmissionWhenSettled(Run(st, ops[..i]).series[k], Step(Run(st, ops[..i]), ops[i]).series[k], SubmitsTo(Run(st, ops[..i]), ops[i], k));
  }

  lemma EnabledAt(st: Store, ops: seq<Op>, i: nat)
    requires ValidRun(st, ops) && i < |ops|
    ensures Enabled(Run(st, ops[..i]), ops[i])
  {
    hide Enabled;
  }

  lemma SettledAlong(s: Series, s': Series)
    requires AdvancesAlong(s, s') && Settled(s)
    ensures Settled(s') && s'.seriesVersion == s.seriesVersion
  {
  }

  lemma NoSubmissionWhenSettled(s: Series, s': Series, submitted: bool)
    requires Advances(s, s', submitted) && Settled(s)
    ensures !submitted
  {
  }

  /** A series is adjudicated at most once in a run. */
  lemma AdjudicatedAtMostOnce(st: Store, ops: seq<Op>, i: nat, j: nat, k: SeriesKey)
    requires Inv(st) && ValidRun(st, ops) && i < j < |ops|
    requires AdjudicatesIn(Run(st, ops[..i]), ops[i], k)
    ensures !AdjudicatesIn(Run(st, ops[..j]), ops[j], k)
  {
    var mid := Run(st, ops[..i + 1]);
    RunOfPrefix(st, ops, i);
    AdjudicationIsRecorded(Run(st, ops[..i]), ops[i], k);
    hide *;
    RunPrefix(st, ops, j);
    RunPrefix(st, ops, i + 1);
    RunSplits(st, ops[..j], i + 1);
    assert ops[..j][..i + 1] == ops[..i + 1];
    ReachableStoresFit(st, ops[..i + 1]);
    ReachableStoresFit(st, ops[..j]);
    RunAdvances(mid, ops[..j][i + 1..], k);
    RecordedDecisionIsFinal(Run(st, ops[..j]), ops[j], k, mid.series[k]);
  }

  predicate AdjudicatesIn(st: Store, op: Op, k: SeriesKey) {
    op.Adjudicate? && Accepted(st, op) && op.jobId in st.jobs && st.jobs[op.jobId].key == k
  }

  lemma AdjudicationIsRecorded(st: Store, op: Op, k: SeriesKey)
    requires AdjudicatesIn(st, op, k)
    ensures k in Step(st, op).series && Step(st, op).series[k].adjudication.Some?
  {
    hide DecisionIsExclusive, DecisionIsComplete;
  }

  lemma RecordedDecisionIsFinal(st: Store, op: Op, k: SeriesKey, earlier: Series)
    requires Inv(st) && k in st.series && AdvancesAlong(earlier, st.series[k]) && earlier.adjudication.Some?
    ensures !AdjudicatesIn(st, op, k)
  {
    hide *;
    LatestIsThere(st, k);
    LatestOf(st, k);
    DecidedIsIdle(earlier, st.series[k], st.jobs[st.series[k].latestJobId]);
    if AdjudicatesIn(st, op, k) {
      AdjudicationNeedsTheUser(st, op, k);
    }
  }

  lemma DecidedIsIdle(earlier: Series, s: Series, latest: Job)
    requires AdvancesAlong(earlier, s) && earlier.adjudication.Some? && LatestFits(s, latest)
    ensures s.status == Idle
  {
    hide IsTerminal, Exhausted, GatePasses, Settled;
  }

  lemma AdjudicationNeedsTheUser(st: Store, op: Op, k: SeriesKey)
    requires AdjudicatesIn(st, op, k)
    ensures k in st.series && st.series[k].status == SeriesAwaitingUser
  {
    hide DecisionIsExclusive, DecisionIsComplete;
  }

  /** Completion is final: no operation changes the record, and it implies a passing gate on the latest job. */
  lemma CompletionIsFinal(st: Store, ops: seq<Op>, k: SeriesKey)
    requires Inv(st) && ValidRun(st, ops) && k in st.series && st.series[k].status == Completed
    ensures k in Run(st, ops).series && Run(st, ops).series[k] == st.series[k]
    ensures st.series[k].latestJobId in st.jobs && GatePasses(st.jobs[st.series[k].latestJobId].gate)
  {
    RunAdvances(st, ops, k);
    LatestIsThere(st, k);
    hide Inv, Run, Counted, Numbered, JobsFit, Settled;
  }
}
