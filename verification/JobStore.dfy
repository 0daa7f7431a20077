/**
 * The v1 job store: job records and an index from idempotency keys to them, kept in step by every method. Each
 * method is one step under its lock.
 */
module JobStore {
  import opened Options
  import opened JobStates

  type JobId = string

  datatype Request = Request(origin: string, idempotencyKey: string, deadline: nat, payload: string)

  datatype Record = Record(
    request: Request,
    state: JobState,
    history: seq<JobState>,
    error: Option<string>,
    result: Option<string>)

  datatype ErrorPatch = KeepError | ClearError | SetError(code: string)

  datatype Patch = Patch(error: ErrorPatch, result: Option<string>)

  datatype Error = JobNotFound | IdempotencyConflict | InvalidStateTransition | JobNotTerminal

  datatype Result<+T> = Ok(value: T) | Err(error: Error)

  datatype Store = Store(records: map<JobId, Record>, index: map<string, JobId>)

  const EMPTY := Store(map[], map[])

  // ---- Idempotency keys ----

  const SEPARATOR := '\0'

  function KeyOf(origin: string, idempotencyKey: string): string {
    origin + [SEPARATOR] + idempotencyKey
  }

  function Key(request: Request): string {
    KeyOf(request.origin, request.idempotencyKey)
  }

  /** The second origin continues the first one after a separator, and the keys complete each other. */
  predicate Completes(o: string, k: string, o': string, k': string) {
    o + [SEPARATOR] <= o' && k == o'[|o| + 1..] + [SEPARATOR] + k'
  }

  lemma ShorterOriginContinues(o: string, k: string, o': string, k': string)
    requires |o| < |o'|
    ensures KeyOf(o, k) == KeyOf(o', k') <==> Completes(o, k, o', k')
  {
    if KeyOf(o, k) == KeyOf(o', k') {
      assert o + [SEPARATOR] == KeyOf(o, k)[..|o| + 1] == KeyOf(o', k')[..|o| + 1] == o'[..|o| + 1];
      assert k == KeyOf(o, k)[|o| + 1..] == KeyOf(o', k')[|o| + 1..] == o'[|o| + 1..] + [SEPARATOR] + k';
    }
    if Completes(o, k, o', k') {
      assert o' == o + [SEPARATOR] + o'[|o| + 1..];
      assert KeyOf(o, k) == o + [SEPARATOR] + (o'[|o| + 1..] + [SEPARATOR] + k') == KeyOf(o', k');
    }
  }

  /** Two pairs have one key exactly when they are equal or one origin with a separator begins the other. */
  lemma KeysMeetExactly(o: string, k: string, o': string, k': string)
    ensures KeyOf(o, k) == KeyOf(o', k') <==> (o == o' && k == k') || Completes(o, k, o', k') || Completes(o', k', o, k)
  {
    if |o| < |o'| {
      ShorterOriginContinues(o, k, o', k');
    } else if |o'| < |o| {
      ShorterOriginContinues(o', k', o, k);
    } else if KeyOf(o, k) == KeyOf(o', k') {
      assert o == KeyOf(o, k)[..|o|] == KeyOf(o', k')[..|o|] == o';
      assert k == KeyOf(o, k)[|o| + 1..] == KeyOf(o', k')[|o| + 1..] == k';
    }
  }

  /** The joined key stands for the pair as long as origins hold no separator. */
  lemma KeysAreInjective(o: string, k: string, o': string, k': string)
    requires KeyOf(o, k) == KeyOf(o', k') && SEPARATOR !in o && SEPARATOR !in o'
    ensures o == o' && k == k'
  {
    KeysMeetExactly(o, k, o', k');
    CompletionHasSeparator(o, k, o', k');
    CompletionHasSeparator(o', k', o, k);
    hide Completes, KeyOf;
  }

  lemma CompletionHasSeparator(o: string, k: string, o': string, k': string)
    ensures Completes(o, k, o', k') ==> SEPARATOR in o'
  {
    if Completes(o, k, o', k') {
      assert o'[|o|] == (o + [SEPARATOR])[|o|];
    }
  }

  /** Without that, two different pairs can meet in one key. */
  lemma SeparatorsInOriginsCollide()
    ensures KeyOf("a", "b\0c") == KeyOf("a\0b", "c") && Completes("a", "b\0c", "a\0b", "c")
  {
    assert KeyOf("a", "b\0c") == "a\0b\0c" == KeyOf("a\0b", "c");
    assert "a" + [SEPARATOR] <= "a\0b" && "a\0b"[2..] == "b";
  }

  // ---- Steps ----

  function NewRecord(request: Request): Record {
    Record(request, Queued, [Queued], None, None)
  }

  function CreateResult(st: Store, request: Request, jobId: JobId): Result<(JobId, bool)> {
    if Key(request) in st.index then
      var existing := st.index[Key(request)];
      if existing !in st.records then Err(JobNotFound)
      else if st.records[existing].request != request then Err(IdempotencyConflict)
      else Ok((existing, false))
    else Ok((jobId, true))
  }

  function Created(st: Store, request: Request, jobId: JobId): Store {
    if Key(request) in st.index then st
    else Store(st.records[jobId := NewRecord(request)], st.index[Key(request) := jobId])
  }

  function Patched(record: Record, patch: Patch): Record {
    record.(
      error := (match patch.error case KeepError => record.error case ClearError => None case SetError(code) => Some(code)),
      result := if patch.result.Some? then patch.result else record.result)
  }

  function TransitionError(st: Store, jobId: JobId, state: JobState): Option<Error> {
    if jobId !in st.records then Some(JobNotFound)
    else if state !in Transitions(st.records[jobId].state) then Some(InvalidStateTransition)
    else None
  }

  function Moved(record: Record, state: JobState, patch: Patch): Record {
    Patched(record, patch).(state := state, history := record.history + [state])
  }

  function Transitioned(st: Store, jobId: JobId, state: JobState, patch: Patch): Store {
    if TransitionError(st, jobId, state).Some? then st
    else st.(records := st.records[jobId := Moved(st.records[jobId], state, patch)])
  }

  function PatchedStore(st: Store, jobId: JobId, patch: Patch): Store {
    if jobId !in st.records then st else st.(records := st.records[jobId := Patched(st.records[jobId], patch)])
  }

  function DeleteError(st: Store, jobId: JobId): Option<Error> {
    if jobId !in st.records then Some(JobNotFound)
    else if !IsTerminal(st.records[jobId].state) then Some(JobNotTerminal)
    else None
  }

  /** The index entry goes only if it is this record's. */
  function Deleted(st: Store, jobId: JobId): Store {
    if DeleteError(st, jobId).Some? then st
    else
      var key := Key(st.records[jobId].request);
      Store(st.records - {jobId}, if key in st.index && st.index[key] == jobId then st.index - {key} else st.index)
  }

  function RecoveredRecord(record: Record, now: nat): Record {
    if IsUncertain(record.state) then Moved(record, NeedsAttention, Patch(SetError("daemon_restarted"), None))
    else if record.state == Queued && record.request.deadline <= now then Moved(record, Expired, Patch(SetError("deadline_expired"), None))
    else record
  }

  function Recovered(st: Store, now: nat): Store {
    st.(records := map id | id in st.records :: RecoveredRecord(st.records[id], now))
  }

  datatype Op =
    | Create(request: Request, newJobId: JobId)
    | Transition(jobId: JobId, state: JobState, patch: Patch)
    | PatchJob(jobId: JobId, patch: Patch)
    | DeleteTerminal(jobId: JobId)
    | RecoverUncertain(now: nat)

  function Step(st: Store, op: Op): Store {
    match op
    case Create(request, jobId) => Created(st, request, jobId)
    case Transition(jobId, state, patch) => Transitioned(st, jobId, state, patch)
    case PatchJob(jobId, patch) => PatchedStore(st, jobId, patch)
    case DeleteTerminal(jobId) => Deleted(st, jobId)
    case RecoverUncertain(now) => Recovered(st, now)
  }

  function Run(st: Store, ops: seq<Op>): Store {
    if ops == [] then st else Step(Run(st, ops[..|ops| - 1]), ops[|ops| - 1])
  }

  /** Fresh identifiers are random. */
  ghost predicate ValidRun(st: Store, ops: seq<Op>) {
    forall i :: 0 <= i < |ops| ==> ops[i].Create? ==> ops[i].newJobId !in Run(st, ops[..i]).records
  }

  // ---- The invariant ----

  /** The index holds exactly one entry for each record, under its key. */
  ghost predicate IndexIsInverse(st: Store) {
    && (forall id :: id in st.records ==> Key(st.records[id].request) in st.index && st.index[Key(st.records[id].request)] == id)
    && (forall k :: k in st.index ==> st.index[k] in st.records && Key(st.records[st.index[k]].request) == k)
  }

  ghost predicate HistoryFits(record: Record) {
    record.history != [] && record.history[0] == Queued && IsPath(record.history)
    && record.history[|record.history| - 1] == record.state
  }

  ghost predicate Inv(st: Store) {
    IndexIsInverse(st) && forall id :: id in st.records ==> HistoryFits(st.records[id])
  }

  lemma MovedFits(record: Record, state: JobState, patch: Patch)
    requires HistoryFits(record) && state in Transitions(record.state)
    ensures HistoryFits(Moved(record, state, patch)) && Moved(record, state, patch).request == record.request
  {
    hide Transitions;
  }

  lemma RecoveryFits(record: Record, now: nat)
    requires HistoryFits(record)
    ensures HistoryFits(RecoveredRecord(record, now)) && RecoveredRecord(record, now).request == record.request
  {
    if IsUncertain(record.state) {
      MovedFits(record, NeedsAttention, Patch(SetError("daemon_restarted"), None));
    } else if record.state == Queued {
      MovedFits(record, Expired, Patch(SetError("deadline_expired"), None));
    }
  }

  lemma StepKeepsInv(st: Store, op: Op)
    requires Inv(st) && (op.Create? ==> op.newJobId !in st.records)
    ensures Inv(Step(st, op))
  {
    hide Inv, HistoryFits, Transitions, TransitionError, Created, Deleted, Recovered, Moved, Patched;
    match op
    case Create(request, jobId) => CreateKeepsInv(st, request, jobId);
    case Transition(jobId, state, patch) =>
      if TransitionError(st, jobId, state).None? {
        TransitionIsAllowed(st, jobId, state);
        RecordFits(st, jobId);
        MovedFits(st.records[jobId], state, patch);
        UpdateKeepsInv(st, jobId, Moved(st.records[jobId], state, patch));
      }
    case PatchJob(jobId, patch) =>
      if jobId in st.records {
        RecordFits(st, jobId);
        PatchedFits(st.records[jobId], patch);
        UpdateKeepsInv(st, jobId, Patched(st.records[jobId], patch));
      }
    case DeleteTerminal(jobId) => DeleteKeepsInv(st, jobId);
    case RecoverUncertain(now) => RecoverKeepsInv(st, now);
  }

  lemma RecordFits(st: Store, id: JobId)
    requires Inv(st) && id in st.records
    ensures HistoryFits(st.records[id])
  {
    hide HistoryFits, IndexIsInverse;
  }

  lemma TransitionIsAllowed(st: Store, jobId: JobId, state: JobState)
    requires TransitionError(st, jobId, state).None?
    ensures jobId in st.records && state in Transitions(st.records[jobId].state)
  {
    hide Transitions;
  }

  lemma PatchedFits(record: Record, patch: Patch)
    requires HistoryFits(record)
    ensures HistoryFits(Patched(record, patch)) && Patched(record, patch).request == record.request
  {
    hide IsPath;
  }

  lemma CreateKeepsInv(st: Store, request: Request, jobId: JobId)
    requires Inv(st) && jobId !in st.records
    ensures Inv(Created(st, request, jobId))
  {
    NewFits(request);
    hide Key, HistoryFits;
  }

  lemma UpdateKeepsInv(st: Store, id: JobId, record: Record)
    requires Inv(st) && id in st.records && HistoryFits(record) && record.request == st.records[id].request
    ensures Inv(st.(records := st.records[id := record]))
  {
    hide Key, HistoryFits;
  }

  lemma DeleteKeepsInv(st: Store, jobId: JobId)
    requires Inv(st)
    ensures Inv(Deleted(st, jobId))
  {
    hide Key, HistoryFits, IsTerminal;
  }

  lemma RecoverKeepsInv(st: Store, now: nat)
    requires Inv(st)
    ensures Inv(Recovered(st, now))
  {
    hide Key, HistoryFits, RecoveredRecord;
    forall id | id in st.records
      ensures HistoryFits(RecoveredRecord(st.records[id], now)) && RecoveredRecord(st.records[id], now).request == st.records[id].request
    {
      RecoveryFits(st.records[id], now);
    }
  }

  lemma NewFits(request: Request)
    ensures HistoryFits(NewRecord(request))
  {
  }

  /** In every reachable store the index is the inverse of the records and every history is a short path. */
  lemma {:induction false} ReachableStoresFit(st: Store, ops: seq<Op>)
    requires Inv(st) && ValidRun(st, ops)
    ensures Inv(Run(st, ops))
  {
    hide Inv, Step;
    if ops != [] {
      var n := |ops| - 1;
      RunPrefix(st, ops, n);
      ReachableStoresFit(st, ops[..n]);
      StepKeepsInv(Run(st, ops[..n]), ops[n]);
    }
  }

  lemma RunPrefix(st: Store, ops: seq<Op>, n: nat)
    requires n <= |ops| && ValidRun(st, ops)
    ensures ValidRun(st, ops[..n])
  {
    forall i | 0 <= i < n && ops[..n][i].Create? ensures ops[..n][i].newJobId !in Run(st, ops[..n][..i]).records {
      assert ops[..n][..i] == ops[..i];
    }
  }

  /** No two records share a key, and a record's history is a path without repetition, of at most six states. */
  lemma RecordsAreUnique(st: Store, i: JobId, j: JobId)
    requires Inv(st) && i in st.records && j in st.records
    ensures Key(st.records[i].request) == Key(st.records[j].request) ==> i == j
    ensures |st.records[i].history| <= 6 && st.records[i].history[|st.records[i].history| - 1] == st.records[i].state
  {
    PathsAreShort(st.records[i].history);
    hide Key, IsPath, Transitions;
  }

  // ---- What one call leaves in the records ----

  /** Only the record of `id` differs, and the index does not. */
  ghost predicate OnlyRecordOf(st: Store, st': Store, id: JobId) {
    && st'.index == st.index && st'.records.Keys == st.records.Keys
    && (forall other :: other in st.records && other != id ==> st'.records[other] == st.records[other])
  }

  /** The error of the record after a patch: kept, cleared or set; a result is only ever set. */
  ghost predicate FollowsPatch(r: Record, r': Record, patch: Patch) {
    && (patch.error.KeepError? ==> r'.error == r.error) && (patch.error.ClearError? ==> r'.error == None)
    && (patch.error.SetError? ==> r'.error == Some(patch.error.code))
    && (patch.result.Some? ==> r'.result == patch.result) && (patch.result.None? ==> r'.result == r.result)
    && r'.request == r.request
  }

  /** A transition is accepted exactly when the table has it; the job is then in the state asked for. */
  lemma TransitionRecords(st: Store, id: JobId, state: JobState, patch: Patch)
    ensures TransitionError(st, id, state).None? <==> id in st.records && state in Transitions(st.records[id].state)
    ensures TransitionError(st, id, state).Some? ==> Step(st, Op.Transition(id, state, patch)) == st
    ensures TransitionError(st, id, state).None? ==>
      var st' := Step(st, Op.Transition(id, state, patch));
      && OnlyRecordOf(st, st', id) && FollowsPatch(st.records[id], st'.records[id], patch)
      && st'.records[id].state == state && st'.records[id].history == st.records[id].history + [state]
  {
    hide Transitions;
  }

  /** A patch leaves the state and its history alone. */
  lemma PatchRecords(st: Store, id: JobId, patch: Patch)
    requires id in st.records
    ensures var st' := Step(st, Op.PatchJob(id, patch));
      && OnlyRecordOf(st, st', id) && FollowsPatch(st.records[id], st'.records[id], patch)
      && st'.records[id].state == st.records[id].state && st'.records[id].history == st.records[id].history
  {
  }

  /** A new request becomes a queued record under its key; nothing else changes. */
  lemma CreationRecords(st: Store, request: Request, id: JobId)
    requires Inv(st) && id !in st.records
    ensures CreateResult(st, request, id) == Ok((id, true)) <==> forall other :: other in st.records ==> Key(st.records[other].request) != Key(request)
    ensures CreateResult(st, request, id) == Ok((id, true)) ==>
      var st' := Step(st, Op.Create(request, id));
      && id in st'.records && st'.records[id] == Record(request, Queued, [Queued], None, None)
      && Key(request) in st'.index && st'.index[Key(request)] == id
      && (forall other :: other in st.records ==> other in st'.records && st'.records[other] == st.records[other])
      && (forall other :: other in st'.records ==> other in st.records || other == id)
    ensures CreateResult(st, request, id) != Ok((id, true)) ==> Step(st, Op.Create(request, id)) == st
  {
    hide HistoryFits, Key;
  }

  /** A deletion is accepted exactly for a terminal job, and takes only its record and its index entry. */
  lemma DeletionRecords(st: Store, id: JobId)
    requires Inv(st)
    ensures DeleteError(st, id).None? <==> id in st.records && IsTerminal(st.records[id].state)
    ensures DeleteError(st, id).Some? ==> Step(st, Op.DeleteTerminal(id)) == st
    ensures DeleteError(st, id).None? ==>
      var st' := Step(st, Op.DeleteTerminal(id));
      st'.records == st.records - {id} && st'.index == st.index - {Key(st.records[id].request)}
  {
    hide HistoryFits, Key, IsTerminal;
  }

  // ---- What a run does to one record ----

  /** A record keeps its request, and its history only grows. */
  ghost predicate Continues(r: Record, r': Record) {
    r'.request == r.request && r.history <= r'.history && (Rank(r.state) == 0 ==> r'.history == r.history)
  }

  predicate Deletes(op: Op, jobId: JobId) {
    op.DeleteTerminal? && op.jobId == jobId
  }

  lemma StepContinues(st: Store, op: Op, id: JobId)
    requires Inv(st) && (op.Create? ==> op.newJobId !in st.records) && id in st.records && !Deletes(op, id)
    ensures id in Step(st, op).records && Continues(st.records[id], Step(st, op).records[id])
  {
    hide Key, IsPath, IndexIsInverse;
  }

  lemma ContinuesIsTransitive(a: Record, b: Record, c: Record)
    requires HistoryFits(a) && HistoryFits(b) && Continues(a, b) && Continues(b, c)
    ensures Continues(a, c)
  {
    hide IsPath;
  }

  lemma {:induction false} RunContinues(st: Store, ops: seq<Op>, id: JobId)
    requires Inv(st) && ValidRun(st, ops) && id in st.records && (forall op :: op in ops ==> !Deletes(op, id))
    ensures id in Run(st, ops).records && Continues(st.records[id], Run(st, ops).records[id])
  {
    if ops != [] {
      hide Step, Continues, HistoryFits, IndexIsInverse;
      var n := |ops| - 1;
      RunPrefix(st, ops, n);
      RunContinues(st, ops[..n], id);
      ReachableStoresFit(st, ops[..n]);
      assert ops[n] in ops;
      StepContinues(Run(st, ops[..n]), ops[n], id);
      ContinuesIsTransitive(st.records[id], Run(st, ops[..n]).records[id], Run(st, ops).records[id]);
    }
  }

  /**
   * Creation is idempotent along a run: until the job is deleted, the same request finds it and another request
   * with the same key is refused; neither changes the store.
   */
  lemma CreateIsIdempotent(st: Store, request: Request, id: JobId, ops: seq<Op>, again: Request, fresh_: JobId)
    requires Inv(st) && id !in st.records && CreateResult(st, request, id) == Ok((id, true))
    requires ValidRun(Created(st, request, id), ops) && (forall op :: op in ops ==> !Deletes(op, id))
    requires Key(again) == Key(request)
    ensures var st' := Run(Created(st, request, id), ops);
      && CreateResult(st', again, fresh_) == (if again == request then Ok((id, false)) else Err(IdempotencyConflict))
      && Created(st', again, fresh_) == st'
  {
    StepKeepsInv(st, Op.Create(request, id));
    RunContinues(Created(st, request, id), ops, id);
    ReachableStoresFit(Created(st, request, id), ops);
    hide Run, HistoryFits, Key;
  }

  // ---- Keys that collide ----

  predicate SamePair(a: Request, b: Request) {
    a.origin == b.origin && a.idempotencyKey == b.idempotencyKey
  }

  /** Different pairs of origin and key that are joined to the same key. */
  predicate Collide(a: Request, b: Request) {
    || Completes(a.origin, a.idempotencyKey, b.origin, b.idempotencyKey)
    || Completes(b.origin, b.idempotencyKey, a.origin, a.idempotencyKey)
  }

  /** A request whose pair was never used is refused exactly when a record's pair collides with it, else created. */
  lemma UnusedPairIsRefusedExactly(st: Store, request: Request, jobId: JobId)
    requires Inv(st) && forall id :: id in st.records ==> !SamePair(st.records[id].request, request)
    ensures CreateResult(st, request, jobId) == Err(IdempotencyConflict)
       <==> exists id :: id in st.records && Collide(st.records[id].request, request)
    ensures CreateResult(st, request, jobId) == Err(IdempotencyConflict) || CreateResult(st, request, jobId) == Ok((jobId, true))
  {
    forall id | id in st.records ensures Collide(st.records[id].request, request) <==> Key(st.records[id].request) == Key(request) {
      var r := st.records[id].request;
      KeysMeetExactly(r.origin, r.idempotencyKey, request.origin, request.idempotencyKey);
    }
    hide Key, HistoryFits, Collide;
  }

  /** Such a refusal: the second request of a colliding pair, in a store holding only the first. */
  lemma UnusedPairIsRefused()
    ensures var first, second := Request("a", "b\0c", 0, ""), Request("a\0b", "c", 0, "");
      CreateResult(Created(EMPTY, first, "1"), second, "2") == Err(IdempotencyConflict) && !SamePair(first, second)
  {
    SeparatorsInOriginsCollide();
  }

  // ---- Recovery ----

  /**
   * Recovery: an uncertain job needs attention, an overdue queued one has expired, every other record stays; and it
   * is a no-op when run again.
   */
  lemma RecoverySettles(st: Store, now: nat, id: JobId)
    requires id in st.records
    ensures Recovered(st, now).records.Keys == st.records.Keys && Recovered(st, now).index == st.index
    ensures var r, r' := st.records[id], Recovered(st, now).records[id];
      if IsUncertain(r.state) then
        r' == r.(state := NeedsAttention, history := r.history + [NeedsAttention], error := Some("daemon_restarted"))
      else if r.state == Queued && r.request.deadline <= now then
        r' == r.(state := Expired, history := r.history + [Expired], error := Some("deadline_expired"))
      else r' == r
    ensures Recovered(Recovered(st, now), now) == Recovered(st, now)
  {
    forall i | i in st.records ensures RecoveredRecord(RecoveredRecord(st.records[i], now), now) == RecoveredRecord(st.records[i], now) {
    }
    assert Recovered(Recovered(st, now), now).records == Recovered(st, now).records;
  }

  // ---- Loading ----

  /** Indexing the records in the order of their files; a later record takes the key over. */
  function Indexed(records: map<JobId, Record>, names: seq<JobId>): (index: map<string, JobId>)
    requires forall id :: id in names ==> id in records
    ensures forall k :: k in index ==> index[k] in names && Key(records[index[k]].request) == k
    ensures forall id :: id in names ==> Key(records[id].request) in index
  {
    if names == [] then map[]
    else
      var last := names[|names| - 1];
      Indexed(records, names[..|names| - 1])[Key(records[last].request) := last]
  }

  ghost predicate LoadedUpTo(st: Store, files: map<JobId, Record>, names: seq<JobId>, i: nat)
    requires i <= |names| && forall id :: id in names <==> id in files
  {
    && (forall id :: id in st.records <==> id in names[..i]) && (forall id :: id in st.records ==> st.records[id] == files[id])
    && st.index == Indexed(files, names[..i])
  }

  lemma LoadStep(st: Store, files: map<JobId, Record>, names: seq<JobId>, i: nat)
    requires i <= |names| && forall id :: id in names <==> id in files
    ensures i == 0 && st == EMPTY ==> LoadedUpTo(st, files, names, i)
    ensures i < |names| && LoadedUpTo(st, files, names, i) ==>
      LoadedUpTo(Store(st.records[names[i] := files[names[i]]], st.index[Key(files[names[i]].request) := names[i]]), files, names, i + 1)
    ensures i == |names| && LoadedUpTo(st, files, names, i) ==> st == Store(files, Indexed(files, names))
  {
    hide *;
    if i < |names| && LoadedUpTo(st, files, names, i) {
      LoadMore(st, files, names, i);
    }
    if i == 0 && st == EMPTY {
      LoadNothing(files, names);
    }
    if i == |names| && LoadedUpTo(st, files, names, i) {
      LoadAll(st, files, names);
    }
  }

  lemma LoadNothing(files: map<JobId, Record>, names: seq<JobId>)
    requires forall id :: id in names <==> id in files
    ensures LoadedUpTo(EMPTY, files, names, 0)
  {
  }

  lemma LoadMore(st: Store, files: map<JobId, Record>, names: seq<JobId>, i: nat)
    requires i < |names| && (forall id :: id in names <==> id in files) && LoadedUpTo(st, files, names, i)
    ensures LoadedUpTo(Store(st.records[names[i] := files[names[i]]], st.index[Key(files[names[i]].request) := names[i]]), files, names, i + 1)
  {
    IndexedNext(files, names, i);
    NamesNext(names, i);
    hide Key, Indexed;
  }

  lemma NamesNext(names: seq<JobId>, i: nat)
    requires i < |names|
    ensures names[i] in names && forall id :: id in names[..i + 1] <==> id in names[..i] || id == names[i]
  {
    assert names[..i + 1] == names[..i] + [names[i]];
  }

  lemma IndexedNext(files: map<JobId, Record>, names: seq<JobId>, i: nat)
    requires i < |names| && forall id :: id in names ==> id in files
    ensures Indexed(files, names[..i + 1]) == Indexed(files, names[..i])[Key(files[names[i]].request) := names[i]]
  {
    assert names[..i + 1][..i] == names[..i] && names[..i + 1][i] == names[i];
    hide Key;
  }

  lemma LoadAll(st: Store, files: map<JobId, Record>, names: seq<JobId>)
    requires (forall id :: id in names <==> id in files) && LoadedUpTo(st, files, names, |names|)
    ensures st == Store(files, Indexed(files, names))
  {
    assert names[..|names|] == names;
    assert st.records == files;
    hide Indexed;
  }

  /** A loaded index is the inverse of the records exactly when no two files share a key. */
  lemma LoadedIndexIsInverse(records: map<JobId, Record>, names: seq<JobId>)
    requires forall id :: id in names <==> id in records
    ensures IndexIsInverse(Store(records, Indexed(records, names)))
       <==> forall i, j :: i in records && j in records && Key(records[i].request) == Key(records[j].request) ==> i == j
  {
    hide Key;
    var index := Indexed(records, names);
    if IndexIsInverse(Store(records, index)) {
      forall i, j | i in records && j in records && Key(records[i].request) == Key(records[j].request) ensures i == j {
        assert index[Key(records[i].request)] == i;
      }
    }
  }

  // ---- The mutable store ----

  class Jobs {
    var records: map<JobId, Record>
    var index: map<string, JobId>

    constructor ()
      ensures State() == EMPTY
    {
      records, index := map[], map[];
    }

    ghost function State(): Store
      reads this
    {
      Store(records, index)
    }

    /** Reads the record files in the order of their names. */
    method Load(files: map<JobId, Record>, names: seq<JobId>)
      requires forall id :: id in names <==> id in files
      requires records == map[] && index == map[]
      modifies this
      ensures State() == Store(files, Indexed(files, names))
    {
      hide Indexed, Key, LoadedUpTo;
      LoadStep(State(), files, names, 0);
      for i := 0 to |names|
        invariant LoadedUpTo(State(), files, names, i)
      {
        LoadStep(State(), files, names, i);
        var record := files[names[i]];
        records := records[names[i] := record];
        index := index[Key(record.request) := names[i]];
      }
      LoadStep(State(), files, names, |names|);
    }

    method Create(request: Request, jobId: JobId) returns (r: Result<(JobId, bool)>)
      requires jobId !in records
      modifies this
      ensures r == CreateResult(old(State()), request, jobId)
      ensures State() == Step(old(State()), Op.Create(request, jobId))
    {
      if Key(request) in index {
        var existing := index[Key(request)];
        if existing !in records {
          return Err(JobNotFound);
        }
        if records[existing].request != request {
          return Err(IdempotencyConflict);
        }
        return Ok((existing, false));
      }
      records := records[jobId := NewRecord(request)];
      index := index[Key(request) := jobId];
      return Ok((jobId, true));
    }

    method Transition(jobId: JobId, state: JobState, patch: Patch) returns (error: Option<Error>)
      modifies this
      ensures error == TransitionError(old(State()), jobId, state)
      ensures State() == Step(old(State()), Op.Transition(jobId, state, patch))
    {
      if jobId !in records {
        return Some(JobNotFound);
      }
      if state !in Transitions(records[jobId].state) {
        return Some(InvalidStateTransition);
      }
      records := records[jobId := Moved(records[jobId], state, patch)];
      return None;
    }

    method PatchJob(jobId: JobId, patch: Patch) returns (error: Option<Error>)
      modifies this
      ensures error == if jobId in old(records) then None else Some(JobNotFound)
      ensures State() == Step(old(State()), Op.PatchJob(jobId, patch))
    {
      if jobId !in records {
        return Some(JobNotFound);
      }
      records := records[jobId := Patched(records[jobId], patch)];
      return None;
    }

    method DeleteTerminal(jobId: JobId) returns (error: Option<Error>)
      modifies this
      ensures error == DeleteError(old(State()), jobId)
      ensures State() == Step(old(State()), Op.DeleteTerminal(jobId))
    {
      if jobId !in records {
        return Some(JobNotFound);
      }
      var record := records[jobId];
      if !IsTerminal(record.state) {
        return Some(JobNotTerminal);
      }
      records := records - {jobId};
      if Key(record.request) in index && index[Key(record.request)] == jobId {
        index := index - {Key(record.request)};
      }
      return None;
    }

    /** Goes through the records and moves those a restart left uncertain or overdue. */
    method RecoverUncertain(now: nat)
      modifies this
      ensures State() == Step(old(State()), Op.RecoverUncertain(now))
    {
      hide Moved, Key;
      ghost var st := State();
      var todo := records.Keys;
      while todo != {}
        invariant todo <= st.records.Keys && index == st.index && records.Keys == st.records.Keys
        invariant forall id :: id in records ==>
          records[id] == if id in todo then st.records[id] else RecoveredRecord(st.records[id], now)
      {
        var id :| id in todo;
        if IsUncertain(records[id].state) {
          var _ := Transition(id, NeedsAttention, Patch(SetError("daemon_restarted"), None));
        } else if records[id].state == Queued && records[id].request.deadline <= now {
          var _ := Transition(id, Expired, Patch(SetError("deadline_expired"), None));
        }
        todo := todo - {id};
      }
      assert records == Recovered(st, now).records;
    }
  }
}
