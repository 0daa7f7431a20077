/**
 * The v1 scheduler: at most three jobs run, at most one per conversation thread, at most twenty wait. Events are
 * the steps between two awaits; `V1Scheduler` at the end is the mutable object.
 */
module Scheduler {
  import opened Options
  import opened JobStates

  type JobId = string

  const ACTIVE_JOBS := 3
  const QUEUED_JOBS := 20

  datatype Job = Job(state: JobState, thread: Option<string>)

  /** The submission that holds the submit lock: counted, then recorded, then announced. */
  datatype Submission = NoSubmission | Admitted(id: JobId, thread: Option<string>) | Recorded

  /**
   * `order` lists the jobs by creation; `started` remembers every job ever given a slot.
   */
  datatype State = State(
    jobs: map<JobId, Job>,
    order: seq<JobId>,
    active: map<JobId, string>,
    activeThreads: set<string>,
    scheduling: bool,
    stopping: bool,
    submission: Submission,
    started: set<JobId>)

  function ThreadKey(id: JobId, job: Job): string {
    if job.thread.Some? then job.thread.value else "job:" + id
  }

  predicate Ready(s: State, id: JobId) {
    id in s.jobs && s.jobs[id].state == Queued && ThreadKey(id, s.jobs[id]) !in s.activeThreads
  }

  /** The oldest queued job whose thread is free. */
  function FirstReady(s: State, ids: seq<JobId>): (found: Option<JobId>)
    ensures found.None? ==> forall id :: id in ids ==> !Ready(s, id)
    ensures found.Some? ==> found.value in ids && Ready(s, found.value)
  {
    if ids == [] then None else if Ready(s, ids[0]) then Some(ids[0]) else FirstReady(s, ids[1..])
  }

  lemma {:induction false} FirstReadyIsOldest(s: State, ids: seq<JobId>, i: nat, j: nat)
    requires i < j < |ids| && FirstReady(s, ids) == Some(ids[j])
    requires Unrepeated(ids)
    ensures !Ready(s, ids[i])
  {
    hide Ready;
    if i > 0 {
      assert ids[1..][j - 1] == ids[j];
      FirstReadyIsOldest(s, ids[1..], i - 1, j - 1);
    }
  }

  function Started(s: State, id: JobId): State
    requires id in s.jobs
  {
    var key := ThreadKey(id, s.jobs[id]);
    s.(active := s.active[id := key], activeThreads := s.activeThreads + {key}, started := s.started + {id})
  }

  /** Active jobs hold their threads, one each. */
  ghost predicate SlotsFit(s: State) {
    && (forall id :: id in s.active ==> id in s.jobs && s.active[id] == ThreadKey(id, s.jobs[id]))
    && (forall id :: id in s.active ==> s.active[id] in s.activeThreads)
    && (forall t :: t in s.activeThreads ==> exists id :: id in s.active && s.active[id] == t)
    && (forall i, j :: i in s.active && j in s.active && s.active[i] == s.active[j] ==> i == j)
    && |s.active| <= ACTIVE_JOBS
  }

  lemma StartedFits(s: State, id: JobId)
    requires SlotsFit(s) && Ready(s, id) && |s.active| < ACTIVE_JOBS
    ensures id !in s.active && SlotsFit(Started(s, id)) && |Started(s, id).active| == |s.active| + 1
  {
    var s', key := Started(s, id), ThreadKey(id, s.jobs[id]);
    forall t | t in s'.activeThreads ensures exists j :: j in s'.active && s'.active[j] == t {
      if t == key {
        assert s'.active[id] == t;
      } else {
        var j :| j in s.active && s.active[j] == t;
        assert s'.active[j] == t;
      }
    }
  }

  /** The slots filled from the queue. */
  ghost function Filled(s: State): State
    requires SlotsFit(s)
    decreases ACTIVE_JOBS - |s.active|
  {
    if s.stopping || |s.active| >= ACTIVE_JOBS then s
    else
      var next := FirstReady(s, s.order);
      if next.None? then s
      else
        StartedFits(s, next.value);
        Filled(Started(s, next.value))
  }

  // ---- Events ----

  datatype Event =
    | Admit(id: JobId, thread: Option<string>)
    | Record
    | Announce
    | SaveFails
    | Fill
    | Transition(id: JobId, to: JobState)
    | Finish(id: JobId)
    | Delete(id: JobId)
    | Stop

  function Schedule(s: State): State {
    if s.scheduling || s.stopping then s else s.(scheduling := true)
  }

  function Without(ids: seq<JobId>, id: JobId): (rest: seq<JobId>)
    ensures forall other :: other in rest <==> other in ids && other != id
  {
    if ids == [] then []
    else
      assert ids == [ids[0]] + ids[1..];
      if ids[0] == id then Without(ids[1..], id) else [ids[0]] + Without(ids[1..], id)
  }

  lemma {:induction false} WithoutStaysUnrepeated(ids: seq<JobId>, id: JobId)
    requires Unrepeated(ids)
    ensures Unrepeated(Without(ids, id))
  {
    if ids != [] {
      assert ids[0] !in ids[1..];
      WithoutStaysUnrepeated(ids[1..], id);
    }
  }

  ghost predicate Unrepeated(ids: seq<JobId>) {
    forall m, n :: 0 <= m < n < |ids| ==> ids[m] != ids[n]
  }

  function QueuedJobs(s: State): set<JobId> {
    set id | id in s.jobs && s.jobs[id].state == Queued
  }

  /**
   * Only an execution moves its job, except that a queued job can be cancelled and a job that needs attention
   * settled from outside. Identifiers are never reused; retention deletes terminal jobs long after their end.
   */
  predicate Enabled(s: State, e: Event) {
    match e
    case Admit(id, _) => s.submission.NoSubmission? && id !in s.jobs && id !in s.started
    case Record => s.submission.Admitted?
    case Announce => s.submission.Recorded?
    case SaveFails => s.submission.Recorded?
    case Fill => s.scheduling
    case Transition(id, to) =>
      id in s.jobs && (id in s.active || (s.jobs[id].state == Queued && to == Cancelled) || s.jobs[id].state == NeedsAttention)
    case Finish(id) => id in s.active
    case Delete(id) => id in s.jobs && IsTerminal(s.jobs[id].state) && id !in s.active
    case Stop => true
  }

  ghost function Step(s: State, e: Event): State
    requires SlotsFit(s) && Enabled(s, e)
  {
    match e
    case Admit(id, thread) => if |QueuedJobs(s)| >= QUEUED_JOBS then s else s.(submission := Admitted(id, thread))
    case Record =>
      s.(jobs := s.jobs[s.submission.id := Job(Queued, s.submission.thread)],
         order := s.order + [s.submission.id], submission := Recorded)
    case Announce => Schedule(s.(submission := NoSubmission))
    case SaveFails => s.(submission := NoSubmission)
    case Fill => Filled(s.(scheduling := false))
    case Transition(id, to) =>
      if to in Transitions(s.jobs[id].state) then s.(jobs := s.jobs[id := s.jobs[id].(state := to)]) else s
    case Finish(id) => Finished(s, id)
    case Delete(id) => s.(jobs := s.jobs - {id}, order := Without(s.order, id))
    case Stop => s.(stopping := true)
  }

  /** A job its execution left unfinished is failed; the slot and the thread are given back. */
  function Finished(s: State, id: JobId): State
    requires id in s.active && id in s.jobs
  {
    var job := s.jobs[id];
    Schedule(s.(
      jobs := s.jobs[id := if IsTerminal(job.state) then job else job.(state := Failed)],
      active := s.active - {id}, activeThreads := s.activeThreads - {s.active[id]}))
  }

  // ---- The invariant ----

  ghost predicate QueueFits(s: State) {
    && (forall id :: id in s.jobs <==> id in s.order) && Unrepeated(s.order)
    && |QueuedJobs(s)| + (if s.submission.Admitted? then 1 else 0) <= QUEUED_JOBS
    && (s.submission.Admitted? ==> s.submission.id !in s.jobs && s.submission.id !in s.started)
  }

  /** A job is given a slot once, and is being executed only while it holds one. */
  ghost predicate StartsFit(s: State) {
    && s.active.Keys <= s.started && s.active.Keys <= s.jobs.Keys
    && (forall id :: id in s.started && id in s.jobs && s.jobs[id].state == Queued ==> id in s.active)
    && (forall id :: id in s.jobs && IsUncertain(s.jobs[id].state) ==> id in s.active)
  }

  ghost predicate Inv(s: State) {
    SlotsFit(s) && QueueFits(s) && StartsFit(s)
  }

  // ---- Filling ----

  /** What a fill leaves alone, and what it may start: jobs never started before, now holding slots. */
  ghost predicate OnlyStarts(s: State, s': State) {
    && s' == s.(active := s'.active, activeThreads := s'.activeThreads, started := s'.started)
    && s.active.Keys <= s'.active.Keys && s.activeThreads <= s'.activeThreads && s.started <= s'.started
    && (forall id :: id in s'.started && id !in s.started <==> id in s'.active && id !in s.active)
    && (forall id :: id in s'.active && id !in s.active ==> Ready(s, id) && id !in s.started)
    && (forall id :: id in s.active ==> s'.active[id] == s.active[id])
  }

  ghost predicate IsFull(s: State) {
    s.stopping || |s.active| == ACTIVE_JOBS || forall id :: !Ready(s, id)
  }

  lemma StartIsFirst(s: State, id: JobId)
    requires SlotsFit(s) && StartsFit(s) && QueueFits(s) && Ready(s, id) && |s.active| < ACTIVE_JOBS
    ensures id in s.jobs
    ensures SlotsFit(Started(s, id)) && StartsFit(Started(s, id)) && QueueFits(Started(s, id)) && OnlyStarts(s, Started(s, id))
  {
    assert id in s.jobs && s.jobs[id].state == Queued;
    StartedFits(s, id);
    assert id !in s.started by { hide SlotsFit, QueueFits, ThreadKey; }
    hide *;
    StartOnlyStarts(s, id);
    StartKeepsStarts(s, id);
    StartKeepsQueue(s, id);
  }

  lemma StartOnlyStarts(s: State, id: JobId)
    requires Ready(s, id) && id !in s.active && id !in s.started
    ensures id in s.jobs && OnlyStarts(s, Started(s, id))
  {
    hide ThreadKey;
  }

  lemma StartKeepsStarts(s: State, id: JobId)
    requires StartsFit(s) && id in s.jobs
    ensures StartsFit(Started(s, id))
  {
    hide ThreadKey, IsUncertain;
  }

  lemma StartKeepsQueue(s: State, id: JobId)
    requires QueueFits(s) && id in s.jobs
    ensures QueueFits(Started(s, id))
  {
    hide ThreadKey;
    assert QueuedJobs(Started(s, id)) == QueuedJobs(s);
  }

  lemma OnlyStartsIsTransitive(a: State, b: State, c: State)
    requires OnlyStarts(a, b) && OnlyStarts(b, c)
    ensures OnlyStarts(a, c)
  {
    hide ThreadKey;
  }

  /** A fill keeps the slots in order and stops only when every slot or every waiting job's thread is taken. */
  lemma {:induction false} FillIsMaximal(s: State)
    requires SlotsFit(s) && StartsFit(s) && QueueFits(s)
    ensures SlotsFit(Filled(s)) && StartsFit(Filled(s)) && OnlyStarts(s, Filled(s)) && IsFull(Filled(s))
    decreases ACTIVE_JOBS - |s.active|
  {
    hide SlotsFit, StartsFit, QueueFits, OnlyStarts, Ready, Started, FirstReady;
    SlotsAreBounded(s);
    NothingStarts(s);
    if !s.stopping && |s.active| < ACTIVE_JOBS {
      var next := FirstReady(s, s.order);
      if next.None? {
        OnlyQueuedAreReady(s);
      } else {
        StartIsFirst(s, next.value);
        StartedFits(s, next.value);
        FillIsMaximal(Started(s, next.value));
        OnlyStartsIsTransitive(s, Started(s, next.value), Filled(Started(s, next.value)));
      }
    }
  }

  lemma SlotsAreBounded(s: State)
    requires SlotsFit(s)
    ensures |s.active| <= ACTIVE_JOBS
  {
  }

  lemma NothingStarts(s: State)
    ensures OnlyStarts(s, s)
  {
  }

  lemma OnlyQueuedAreReady(s: State)
    requires QueueFits(s)
    ensures (forall id :: id in s.order ==> !Ready(s, id)) ==> forall id :: !Ready(s, id)
  {
  }

  /** Within a thread, jobs get their slots in the order they were created. */
  lemma {:induction false} ThreadsAreServedInOrder(s: State, i: nat, j: nat)
    requires SlotsFit(s) && StartsFit(s) && QueueFits(s) && i < j < |s.order|
    requires ThreadKey(s.order[i], s.jobs[s.order[i]]) == ThreadKey(s.order[j], s.jobs[s.order[j]])
    requires s.order[j] in Filled(s).active && s.order[j] !in s.active
    ensures s.jobs[s.order[i]].state != Queued
    decreases ACTIVE_JOBS - |s.active|
  {
    assert s.order[i] in s.jobs && s.order[j] in s.jobs;
    hide *;
    FilledStep(s, s.order[j]);
    var id := FirstReady(s, s.order).value;
    StartIsFirst(s, id);
    SameJobs(s, id);
    if id == s.order[j] {
      OldestFirst(s, i, j);
    } else {
      StartedFits(s, id);
      ThreadsAreServedInOrder(Started(s, id), i, j);
    }
  }

  lemma FilledStep(s: State, id: JobId)
    requires SlotsFit(s) && id in Filled(s).active && id !in s.active
    ensures |s.active| < ACTIVE_JOBS && FirstReady(s, s.order).Some? && Ready(s, FirstReady(s, s.order).value)
    ensures SlotsFit(Started(s, FirstReady(s, s.order).value)) && Filled(s) == Filled(Started(s, FirstReady(s, s.order).value))
  {
    hide SlotsFit, Ready, FirstReady;
    if FirstReady(s, s.order).Some? && |s.active| < ACTIVE_JOBS {
      StartedFits(s, FirstReady(s, s.order).value);
    }
  }

  lemma SameJobs(s: State, id: JobId)
    requires id in s.jobs
    ensures Started(s, id).jobs == s.jobs && Started(s, id).order == s.order
    ensures forall other :: other in Started(s, id).active <==> other in s.active || other == id
  {
  }

  lemma OldestFirst(s: State, i: nat, j: nat)
    requires i < j < |s.order| && Unrepeated(s.order)
    requires s.order[i] in s.jobs && s.order[j] in s.jobs
    requires ThreadKey(s.order[i], s.jobs[s.order[i]]) == ThreadKey(s.order[j], s.jobs[s.order[j]])
    requires FirstReady(s, s.order) == Some(s.order[j])
    ensures s.jobs[s.order[i]].state != Queued
  {
    FirstReadyIsOldest(s, s.order, i, j);
    assert Ready(s, s.order[j]);
    hide FirstReady, ThreadKey;
  }

  // ---- Every event keeps the invariant ----

  lemma FillKeepsInv(s: State)
    requires Inv(s)
    ensures Inv(Filled(s.(scheduling := false)))
  {
    var t := s.(scheduling := false);
    SameSlots(s, t);
    FillIsMaximal(t);
    StillQueued(t, Filled(t));
    hide *;
    InvIs(Filled(t));
  }

  lemma InvIs(s: State)
    requires SlotsFit(s) && QueueFits(s) && StartsFit(s)
    ensures Inv(s)
  {
    hide SlotsFit, QueueFits, StartsFit;
  }

  lemma SameSlots(s: State, t: State)
    requires Inv(s) && t == s.(scheduling := t.scheduling, stopping := t.stopping)
    ensures SlotsFit(t) && StartsFit(t) && QueueFits(t)
  {
  }

  lemma StillQueued(s: State, s': State)
    requires QueueFits(s) && OnlyStarts(s, s')
    ensures QueueFits(s')
  {
    assert QueuedJobs(s') == QueuedJobs(s);
  }

  lemma SlotsFrame(s: State, s': State)
    requires SlotsFit(s) && s'.active == s.active && s'.activeThreads == s.activeThreads
    requires forall id :: id in s.active && id in s.jobs ==> id in s'.jobs && s'.jobs[id].thread == s.jobs[id].thread
    ensures SlotsFit(s')
  {
    assert forall id :: id in s.active ==> id in s'.jobs && ThreadKey(id, s'.jobs[id]) == ThreadKey(id, s.jobs[id]);
    hide ThreadKey;
  }

  /** A job that moves on is active, or it ends; a new job is queued. */
  lemma StartsFrame(s: State, s': State)
    requires StartsFit(s) && s'.active == s.active && s'.started == s.started && s.jobs.Keys <= s'.jobs.Keys
    requires forall id | id in s.jobs && s'.jobs[id].state != s.jobs[id].state ::
               s'.jobs[id].state != Queued && (IsTerminal(s'.jobs[id].state) || id in s.active)
    requires forall id :: id in s'.jobs && id !in s.jobs ==> s'.jobs[id].state == Queued && id !in s.started
    ensures StartsFit(s')
  {
  }

  lemma AdmitKeepsInv(s: State, id: JobId, thread: Option<string>)
    requires Inv(s) && Enabled(s, Admit(id, thread))
    ensures Inv(Step(s, Admit(id, thread)))
  {
    var s' := Step(s, Admit(id, thread));
    assert s' == s.(submission := s'.submission);
    assert QueuedJobs(s') == QueuedJobs(s);
    assert QueueFits(s') by { hide SlotsFit, StartsFit, QueuedJobs, Ready; }
    hide *;
    FrameAll(s, s');
  }

  lemma FrameAll(s: State, s': State)
    requires Inv(s) && QueueFits(s') && s' == s.(submission := s'.submission)
    ensures Inv(s')
  {
    hide SlotsFit, StartsFit, QueueFits, Ready, IsTerminal;
    SlotsFrame(s, s');
    StartsFrame(s, s');
  }

  lemma RecordKeepsInv(s: State)
    requires Inv(s) && s.submission.Admitted?
    ensures Inv(Step(s, Record))
  {
    var s', id := Step(s, Record), s.submission.id;
    var job := Job(Queued, s.submission.thread);
    assert s' == s.(jobs := s.jobs[id := job], order := s.order + [id], submission := Recorded);
    hide SlotsFit, StartsFit, IsTerminal;
    RecordedQueue(s, s', job);
    SlotsFrame(s, s');
    StartsFrame(s, s');
    hide *;
    InvIs(s');
  }

  lemma RecordedQueue(s: State, s': State, job: Job)
    requires QueueFits(s) && s.submission.Admitted? && job.state == Queued
    requires s' == s.(jobs := s.jobs[s.submission.id := job], order := s.order + [s.submission.id], submission := Recorded)
    ensures QueueFits(s') && s.submission.id !in s.jobs && s.submission.id !in s.started
  {
    OneMoreQueued(s, s', s.submission.id, job);
    OneMoreId(s.order, s.submission.id);
    hide QueuedJobs, Unrepeated;
  }

  lemma OneMoreQueued(s: State, s': State, id: JobId, job: Job)
    requires id !in s.jobs && job.state == Queued && s'.jobs == s.jobs[id := job]
    ensures |QueuedJobs(s')| == |QueuedJobs(s)| + 1
  {
    assert QueuedJobs(s') == QueuedJobs(s) + {id};
  }

  lemma OneMoreId(ids: seq<JobId>, id: JobId)
    requires Unrepeated(ids) && id !in ids
    ensures Unrepeated(ids + [id]) && forall other :: other in ids + [id] <==> other in ids || other == id
  {
  }

  lemma AnnouncedKeepsInv(s: State, saved: bool)
    requires Inv(s) && s.submission.Recorded?
    ensures Inv(Step(s, if saved then Announce else SaveFails))
  {
    var s' := Step(s, if saved then Announce else SaveFails);
    assert QueuedJobs(s') == QueuedJobs(s);
    hide Ready, QueuedJobs, SlotsFit, StartsFit;
    SlotsFrame(s, s');
    StartsFrame(s, s');
  }

  lemma TransitionKeepsInv(s: State, id: JobId, to: JobState)
    requires Inv(s) && Enabled(s, Transition(id, to)) && to in Transitions(s.jobs[id].state)
    ensures Inv(Step(s, Transition(id, to)))
  {
    MoveIs(s, id, to);
    hide *;
    MovedKeepsInv(s, Step(s, Transition(id, to)), id, to);
  }

  lemma MoveIs(s: State, id: JobId, to: JobState)
    requires SlotsFit(s) && Enabled(s, Transition(id, to)) && to in Transitions(s.jobs[id].state)
    ensures Step(s, Transition(id, to)) == s.(jobs := s.jobs[id := s.jobs[id].(state := to)])
    ensures to != Queued && (IsTerminal(to) || id in s.active)
  {
    hide SlotsFit;
  }

  lemma MovedKeepsInv(s: State, s': State, id: JobId, to: JobState)
    requires Inv(s) && id in s.jobs && s' == s.(jobs := s.jobs[id := s.jobs[id].(state := to)])
    requires to != Queued && (IsTerminal(to) || id in s.active)
    ensures Inv(s')
  {
    hide SlotsFit, StartsFit, QueueFits, IsTerminal, Ready;
    MovedQueue(s, s', id, to);
    SlotsFrame(s, s');
    StartsFrame(s, s');
  }

  lemma MovedQueue(s: State, s': State, id: JobId, to: JobState)
    requires QueueFits(s) && id in s.jobs && to != Queued && s' == s.(jobs := s.jobs[id := s.jobs[id].(state := to)])
    ensures QueueFits(s')
  {
    FewerQueued(s, s', id, to);
    hide QueuedJobs;
  }

  lemma FewerQueued(s: State, s': State, id: JobId, to: JobState)
    requires id in s.jobs && s'.jobs == s.jobs[id := s.jobs[id].(state := to)] && to != Queued
    ensures |QueuedJobs(s')| <= |QueuedJobs(s)|
  {
    assert QueuedJobs(s') == QueuedJobs(s) - {id};
  }

  lemma FinishKeepsInv(s: State, id: JobId)
    requires Inv(s) && id in s.active
    ensures Inv(Step(s, Finish(id)))
  {
    FinishIs(s, id);
    hide *;
    FinishedSlots(s, id);
    FinishedQueue(s, id);
    FinishedStarts(s, id);
    InvIs(Finished(s, id));
  }

  /** What the end of an execution leaves: a job that did not end is failed, an ended one keeps its state. */
  lemma FinishRecords(s: State, id: JobId)
    requires Inv(s) && id in s.active
    ensures SlotsFit(s) && id in s.jobs && s.active[id] in s.activeThreads
    ensures var s' := Step(s, Finish(id));
      && s'.jobs == s.jobs[id := Job(if IsTerminal(s.jobs[id].state) then s.jobs[id].state else Failed, s.jobs[id].thread)]
      && s'.active == s.active - {id} && s'.activeThreads == s.activeThreads - {s.active[id]}
      && s'.order == s.order && s'.started == s.started && s'.submission == s.submission && s'.stopping == s.stopping
      && s'.scheduling == (s.scheduling || !s.stopping)
  {
    FinishIs(s, id);
    hide Inv, SlotsFit, QueueFits, StartsFit, Step, ThreadKey;
    ActiveHolds(s, id);
  }

  lemma ActiveHolds(s: State, id: JobId)
    requires SlotsFit(s) && id in s.active
    ensures id in s.jobs && s.active[id] in s.activeThreads
  {
    hide ThreadKey;
  }

  lemma FinishIs(s: State, id: JobId)
    requires Inv(s) && id in s.active
    ensures SlotsFit(s) && QueueFits(s) && StartsFit(s) && id in s.jobs && Step(s, Finish(id)) == Finished(s, id)
  {
    hide QueueFits, StartsFit, Finished;
  }

  lemma FinishedQueue(s: State, id: JobId)
    requires QueueFits(s) && id in s.active && id in s.jobs
    ensures QueueFits(Finished(s, id))
  {
    FewerQueued(s, Finished(s, id), id, if IsTerminal(s.jobs[id].state) then s.jobs[id].state else Failed);
    hide QueuedJobs;
  }

  lemma FinishedStarts(s: State, id: JobId)
    requires StartsFit(s) && id in s.active && id in s.jobs
    ensures StartsFit(Finished(s, id))
  {
  }

  lemma FinishedSlots(s: State, id: JobId)
    requires SlotsFit(s) && id in s.active
    ensures id in s.jobs && SlotsFit(Finished(s, id)) && IsTerminal(Finished(s, id).jobs[id].state)
  {
    var s' := Finished(s, id);
    assert s'.active == s.active - {id} && s'.activeThreads == s.activeThreads - {s.active[id]};
    assert s'.jobs.Keys == s.jobs.Keys && forall j :: j in s.jobs ==> s'.jobs[j].thread == s.jobs[j].thread;
    hide Finished, IsTerminal;
    FreedSlots(s, s', id);
  }

  lemma FreedSlots(s: State, s': State, id: JobId)
    requires SlotsFit(s) && id in s.active
    requires s'.active == s.active - {id} && s'.activeThreads == s.activeThreads - {s.active[id]}
    requires s'.jobs.Keys == s.jobs.Keys && forall j :: j in s.jobs ==> s'.jobs[j].thread == s.jobs[j].thread
    ensures SlotsFit(s')
  {
    forall j | j in s'.active ensures ThreadKey(j, s'.jobs[j]) == s'.active[j] {
      assert j in s.active;
    }
    hide ThreadKey;
    forall t | t in s'.activeThreads ensures exists j :: j in s'.active && s'.active[j] == t {
      var j :| j in s.active && s.active[j] == t;
      assert j in s'.active;
    }
    OneLess(s.active, id);
  }

  lemma OneLess<K, V>(m: map<K, V>, k: K)
    requires k in m
    ensures |m - {k}| == |m| - 1
  {
    assert (m - {k}).Keys == m.Keys - {k};
    assert |m - {k}| == |(m - {k}).Keys| && |m| == |m.Keys|;
  }

  lemma DeleteKeepsInv(s: State, id: JobId)
    requires Inv(s) && Enabled(s, Delete(id))
    ensures Inv(Step(s, Delete(id)))
  {
    var s' := s.(jobs := s.jobs - {id}, order := Without(s.order, id));
    DeleteIs(s, id);
    hide *;
    DeletedQueue(s, s', id);
    DeletedSlots(s, s', id);
    DeletedStarts(s, s', id);
    InvIs(s');
  }

  lemma DeleteIs(s: State, id: JobId)
    requires Inv(s) && Enabled(s, Delete(id))
    ensures SlotsFit(s) && QueueFits(s) && StartsFit(s) && id in s.jobs && s.jobs[id].state != Queued && id !in s.active
    ensures Step(s, Delete(id)) == s.(jobs := s.jobs - {id}, order := Without(s.order, id))
  {
    hide SlotsFit, QueueFits, StartsFit, Without;
  }

  lemma DeletedQueue(s: State, s': State, id: JobId)
    requires QueueFits(s) && id in s.jobs && s.jobs[id].state != Queued
    requires s' == s.(jobs := s.jobs - {id}, order := Without(s.order, id))
    ensures QueueFits(s')
  {
    assert QueuedJobs(s') == QueuedJobs(s);
    WithoutStaysUnrepeated(s.order, id);
    hide Without, Unrepeated, QueuedJobs;
  }

  lemma DeletedSlots(s: State, s': State, id: JobId)
    requires SlotsFit(s) && id !in s.active && s' == s.(jobs := s.jobs - {id}, order := s'.order)
    ensures SlotsFit(s')
  {
    hide *;
    SlotsFrame(s, s');
  }

  lemma DeletedStarts(s: State, s': State, id: JobId)
    requires StartsFit(s) && id !in s.active && s' == s.(jobs := s.jobs - {id}, order := s'.order)
    ensures StartsFit(s')
  {
    hide IsUncertain;
  }

  lemma StepKeepsInv(s: State, e: Event)
    requires Inv(s) && Enabled(s, e)
    ensures SlotsFit(s) && Inv(Step(s, e))
  {
    hide SlotsFit, QueueFits, StartsFit;
    match e
    case Admit(id, thread) => AdmitKeepsInv(s, id, thread);
    case Record => RecordKeepsInv(s);
    case Announce => AnnouncedKeepsInv(s, true);
    case SaveFails => AnnouncedKeepsInv(s, false);
    case Fill => FillKeepsInv(s);
    case Transition(id, to) =>
      if to in Transitions(s.jobs[id].state) {
        TransitionKeepsInv(s, id, to);
      }
    case Finish(id) => FinishKeepsInv(s, id);
    case Delete(id) => DeleteKeepsInv(s, id);
    case Stop => StopKeepsInv(s);
  }

  lemma StopKeepsInv(s: State)
    requires Inv(s)
    ensures Inv(s.(stopping := true))
  {
    SameSlots(s, s.(stopping := true));
  }

  // ---- Runs ----

  ghost predicate IsRun(states: seq<State>, events: seq<Event>) {
    && |states| == |events| + 1
    && (forall i :: 0 <= i < |events| ==> Enabled(states[i], events[i]))
    && (forall i, j | 0 <= i < |events| && j == i + 1 :: SlotsFit(states[i]) ==> states[j] == Step(states[i], events[i]))
  }

  lemma {:induction false} ReachableStatesFit(states: seq<State>, events: seq<Event>, n: nat)
    requires IsRun(states, events) && Inv(states[0]) && n <= |events|
    ensures Inv(states[n])
  {
    if n > 0 {
      ReachableStatesFit(states, events, n - 1);
      assert Enabled(states[n - 1], events[n - 1]);
      StepKeepsInv(states[n - 1], events[n - 1]);
      assert states[n] == Step(states[n - 1], events[n - 1]);
      hide *;
    }
  }

  predicate IsExecuting(s: State, id: JobId) {
    id in s.jobs && IsUncertain(s.jobs[id].state)
  }

  /** Three slots, one per thread; twenty waiting jobs; and one executing job per thread. */
  lemma LimitsHold(s: State, i: JobId, j: JobId)
    requires Inv(s)
    ensures |s.active| <= 3 && |QueuedJobs(s)| <= 20
    ensures forall t :: t in s.activeThreads <==> exists id :: id in s.active && s.active[id] == t
    ensures IsExecuting(s, i) && IsExecuting(s, j) && ThreadKey(i, s.jobs[i]) == ThreadKey(j, s.jobs[j]) ==> i == j
  {
    hide ThreadKey, IsUncertain;
  }

  predicate StartsAt(states: seq<State>, n: nat, id: JobId) {
    n + 1 < |states| && id !in states[n].active && id in states[n + 1].active
  }

  lemma StepRemembersStarts(s: State, e: Event, id: JobId)
    requires Inv(s) && Enabled(s, e)
    ensures SlotsFit(s) && (id in s.started ==> id in Step(s, e).started)
    ensures id !in s.active && id in Step(s, e).active ==> id !in s.started && id in Step(s, e).started
  {
    if e.Fill? {
      var t := s.(scheduling := false);
      SameSlots(s, t);
      FillIsMaximal(t);
    }
    hide Filled, QueuedJobs, StartsFit, QueueFits, Ready, ThreadKey;
  }

  lemma {:induction false} StartsAreRemembered(states: seq<State>, events: seq<Event>, m: nat, n: nat, id: JobId)
    requires IsRun(states, events) && Inv(states[0]) && m <= n <= |events| && id in states[m].started
    ensures id in states[n].started
    decreases n - m
  {
    hide Inv, Step, Enabled, SlotsFit;
    if m < n {
      ReachableStatesFit(states, events, m);
      assert Enabled(states[m], events[m]);
      StepRemembersStarts(states[m], events[m], id);
      assert states[m + 1] == Step(states[m], events[m]);
      StartsAreRemembered(states, events, m + 1, n, id);
    }
  }

  /** No job is given a slot twice in a run. */
  lemma NoJobStartsTwice(states: seq<State>, events: seq<Event>, m: nat, n: nat, id: JobId)
    requires IsRun(states, events) && Inv(states[0]) && m < n < |events| && StartsAt(states, m, id)
    ensures !StartsAt(states, n, id)
  {
    hide Inv, Step, Enabled, SlotsFit;
    ReachableStatesFit(states, events, m);
    ReachableStatesFit(states, events, n);
    assert Enabled(states[m], events[m]) && Enabled(states[n], events[n]);
    StepRemembersStarts(states[m], events[m], id);
    assert states[m + 1] == Step(states[m], events[m]);
    StartsAreRemembered(states, events, m + 1, n, id);
    StepRemembersStarts(states[n], events[n], id);
    assert states[n + 1] == Step(states[n], events[n]);
  }

  // ---- Wake-ups ----

  /** A slot and a queued job's thread are free. */
  ghost predicate HasWork(s: State) {
    |s.active| < ACTIVE_JOBS && exists id :: Ready(s, id)
  }

  /** While there is work, a fill is on its way, unless the daemon stops. */
  ghost predicate WakesUp(s: State) {
    HasWork(s) ==> s.scheduling || s.stopping || s.submission.Recorded?
  }

  /** Every event but a failed save keeps that, and three of them bring it back. */
  lemma StepKeepsWakeup(s: State, e: Event)
    requires Inv(s) && Enabled(s, e) && !e.SaveFails?
    requires WakesUp(s) || e.Announce? || e.Fill? || e.Finish?
    ensures SlotsFit(s) && WakesUp(Step(s, e))
  {
    hide Transitions, StartsFit;
    match e
    case Fill =>
      SameSlots(s, s.(scheduling := false));
      FillIsMaximal(s.(scheduling := false));
      FullHasNoWork(Step(s, e));
      hide SlotsFit, QueueFits, Filled, Ready;
    case Announce => hide SlotsFit, QueueFits, Ready;
    case Finish(id) => hide QueueFits, Ready;
    case Record => hide SlotsFit, QueueFits, Ready;
    case _ =>
      NoMoreWork(s, e);
      hide SlotsFit, QueueFits, HasWork;
  }

  lemma FullHasNoWork(s: State)
    requires IsFull(s)
    ensures WakesUp(s)
  {
    hide Ready;
  }

  lemma NoMoreWork(s: State, e: Event)
    requires SlotsFit(s) && Enabled(s, e) && (e.Admit? || e.Transition? || e.Delete? || e.Stop?)
    ensures HasWork(Step(s, e)) ==> HasWork(s)
  {
    hide SlotsFit, Transitions, Without;
    var s' := Step(s, e);
    assert s'.active == s.active && s'.activeThreads == s.activeThreads;
    assert forall id :: id in s'.jobs && s'.jobs[id].state == Queued ==> id in s.jobs && s.jobs[id] == s'.jobs[id] by {
      if e.Transition? { QueuedIsNoTarget(); }
    }
    hide *;
    LessToDo(s, s');
  }

  lemma QueuedIsNoTarget()
    ensures forall from :: Queued !in Transitions(from)
  {
  }

  lemma LessToDo(s: State, s': State)
    requires s'.active == s.active && s'.activeThreads == s.activeThreads
    requires forall id :: id in s'.jobs && s'.jobs[id].state == Queued ==> id in s.jobs && s.jobs[id] == s'.jobs[id]
    ensures HasWork(s') ==> HasWork(s)
  {
    hide ThreadKey;
    assert forall id :: Ready(s', id) ==> Ready(s, id);
  }

  /** A failed save loses the wake-up exactly when there is work and no fill is on its way. */
  lemma FailedSaveLosesWakeupExactly(s: State)
    requires Inv(s) && Enabled(s, SaveFails)
    ensures SlotsFit(s) && (!WakesUp(Step(s, SaveFails)) <==> HasWork(s) && !s.scheduling && !s.stopping)
  {
    var s' := Step(s, SaveFails);
    assert forall id :: Ready(s', id) == Ready(s, id);
    hide SlotsFit, QueueFits, StartsFit, Ready;
  }

  /** No run without a failed save ever loses a wake-up. */
  lemma {:induction false} WakeupsAreNeverLost(states: seq<State>, events: seq<Event>, n: nat)
    requires IsRun(states, events) && Inv(states[0]) && WakesUp(states[0]) && n <= |events| && SaveFails !in events[..n]
    ensures WakesUp(states[n])
  {
    hide Inv, Step, Enabled, SlotsFit, WakesUp;
    if n > 0 {
      assert events[..n] == events[..n - 1] + [events[n - 1]];
      WakeupsAreNeverLost(states, events, n - 1);
      ReachableStatesFit(states, events, n - 1);
      assert Enabled(states[n - 1], events[n - 1]);
      StepKeepsWakeup(states[n - 1], events[n - 1]);
      assert states[n] == Step(states[n - 1], events[n - 1]);
    }
  }

  const IDLE := State(map[], [], map[], {}, false, false, NoSubmission, {})

  /** The run that shows it: the only submission is recorded, its save fails, and nobody looks at the queue. */
  lemma FailedSaveLosesAWakeup() returns (states: seq<State>)
    ensures |states| == 4 && states[0] == IDLE && IsRun(states, [Admit("x", None), Record, SaveFails])
    ensures Inv(states[0]) && WakesUp(states[0])
    ensures Ready(states[3], "x") && HasWork(states[3]) && !WakesUp(states[3])
  {
    var admitted := IDLE.(submission := Admitted("x", None));
    var recorded := admitted.(jobs := map["x" := Job(Queued, None)], order := ["x"], submission := Recorded);
    states := [IDLE, admitted, recorded, recorded.(submission := NoSubmission)];
    assert QueuedJobs(IDLE) == {};
    assert Step(IDLE, Admit("x", None)) == admitted;
    assert Step(admitted, Record) == recorded by { assert [] + ["x"] == ["x"]; assert map[]["x" := Job(Queued, None)] == recorded.jobs; }
    assert Ready(states[3], "x");
  }

  // ---- The mutable scheduler ----

  class V1Scheduler {
    var jobs: map<JobId, Job>
    var order: seq<JobId>
    var active: map<JobId, string>
    var activeThreads: set<string>
    var scheduling: bool
    var stopping: bool
    var submission: Submission
    ghost var started: set<JobId>

    constructor ()
      ensures Inv(Current())
    {
      jobs, order, active, activeThreads := map[], [], map[], {};
      scheduling, stopping, submission, started := true, false, NoSubmission, {};
      new;
      assert QueuedJobs(Current()) == {};
    }

    ghost function Current(): State
      reads this
    {
      State(jobs, order, active, activeThreads, scheduling, stopping, submission, started)
    }

    method AskForFill()
      modifies this`scheduling
      ensures Current() == Schedule(old(Current()))
    {
      if scheduling || stopping {
        return;
      }
      scheduling := true;
    }

    /** The next job to start, searched in the order of creation. */
    method FindNext() returns (next: Option<JobId>)
      ensures next == FirstReady(Current(), order)
    {
      hide Ready;
      assert order[0..] == order;
      for i := 0 to |order|
        invariant FirstReady(Current(), order[i..]) == FirstReady(Current(), order)
      {
        var id := order[i];
        assert order[i..][0] == id && order[i..][1..] == order[i + 1..];
        if ReadyNow(id) {
          return Some(id);
        }
      }
      return None;
    }

    predicate ReadyNow(id: JobId)
      reads this
      ensures ReadyNow(id) == Ready(Current(), id)
    {
      id in jobs && jobs[id].state == Queued && ThreadKey(id, jobs[id]) !in activeThreads
    }

    /** The fill, as a loop over the free slots. */
    method FillSlots()
      requires SlotsFit(Current())
      modifies this`active, this`activeThreads, this`started
      ensures Current() == Filled(old(Current()))
    {
      hide SlotsFit, FirstReady, Ready;
      while !stopping && |active| < ACTIVE_JOBS
        invariant SlotsFit(Current()) && Filled(Current()) == Filled(old(Current()))
        decreases ACTIVE_JOBS - |active|
      {
        var next := FindNext();
        if next.None? {
          return;
        }
        StartedFits(Current(), next.value);
        ReadyIsThere(Current(), next.value);
        var key := ThreadKey(next.value, jobs[next.value]);
        activeThreads := activeThreads + {key};
        active := active[next.value := key];
        started := started + {next.value};
      }
    }

    /** The microtask a request for a fill queues. */
    method RunFill()
      requires Inv(Current()) && scheduling
      modifies this
      ensures SlotsFit(old(Current())) && Current() == Step(old(Current()), Fill)
    {
      hide Filled, StartsFit, QueueFits;
      ghost var s := Current();
      scheduling := false;
      SameSlots(s, Current());
      FillSlots();
    }

    /** Takes the submit lock and counts the queue. */
    method Submit(id: JobId, thread: Option<string>) returns (full: bool)
      requires Inv(Current()) && submission.NoSubmission? && id !in jobs && id !in started
      modifies this
      ensures SlotsFit(old(Current())) && Current() == Step(old(Current()), Admit(id, thread))
      ensures full <==> |QueuedJobs(old(Current()))| >= QUEUED_JOBS
    {
      hide StartsFit, QueueFits;
      full := |set j | j in jobs && jobs[j].state == Queued| >= QUEUED_JOBS;
      if !full {
        submission := Admitted(id, thread);
      }
    }

    method RecordSubmission()
      requires Inv(Current()) && submission.Admitted?
      modifies this
      ensures SlotsFit(old(Current())) && Current() == Step(old(Current()), Record)
    {
      hide StartsFit, QueueFits;
      jobs, order := jobs[submission.id := Job(Queued, submission.thread)], order + [submission.id];
      submission := Recorded;
    }

    /** Releases the lock; only a saved submission asks for a fill. */
    method EndSubmission(saved: bool)
      requires Inv(Current()) && submission.Recorded?
      modifies this
      ensures SlotsFit(old(Current())) && Current() == Step(old(Current()), if saved then Announce else SaveFails)
    {
      hide StartsFit, QueueFits;
      submission := NoSubmission;
      if saved {
        AskForFill();
      }
    }

    /** A transition of the job store: by the job's execution, by a cancellation, or by the user afterwards. */
    method Move(id: JobId, to: JobState)
      requires Inv(Current()) && Enabled(Current(), Transition(id, to))
      modifies this`jobs
      ensures SlotsFit(old(Current())) && Current() == Step(old(Current()), Transition(id, to))
    {
      hide StartsFit, QueueFits;
      if to in Transitions(jobs[id].state) {
        jobs := jobs[id := jobs[id].(state := to)];
      }
    }

    /** The end of an execution: the job is failed unless it ended, then its slot and thread are released. */
    method EndExecution(id: JobId)
      requires Inv(Current()) && id in active
      modifies this
      ensures SlotsFit(old(Current())) && Current() == Step(old(Current()), Finish(id))
    {
      ghost var s := Current();
      FinishIs(s, id);
      ReleasedIs(s, id);
      hide SlotsFit, StartsFit, QueueFits, Step, Inv, Finished, Released, Schedule;
      if !IsTerminal(jobs[id].state) {
        jobs := jobs[id := jobs[id].(state := Failed)];
      }
      activeThreads := activeThreads - {active[id]};
      active := active - {id};
      assert Current() == Released(s, id);
      AskForFill();
    }
  }

  /** The state at the end of an execution, before the request for a fill. */
  function Released(s: State, id: JobId): State
    requires id in s.active && id in s.jobs
  {
    s.(jobs := if IsTerminal(s.jobs[id].state) then s.jobs else s.jobs[id := s.jobs[id].(state := Failed)],
       active := s.active - {id}, activeThreads := s.activeThreads - {s.active[id]})
  }

  lemma ReleasedIs(s: State, id: JobId)
    requires id in s.active && id in s.jobs
    ensures Finished(s, id) == Schedule(Released(s, id))
    ensures Released(s, id).active == s.active - {id} && Released(s, id).activeThreads == s.activeThreads - {s.active[id]}
    ensures Released(s, id).jobs == if IsTerminal(s.jobs[id].state) then s.jobs else s.jobs[id := s.jobs[id].(state := Failed)]
    ensures Released(s, id) == s.(jobs := Released(s, id).jobs, active := s.active - {id}, activeThreads := s.activeThreads - {s.active[id]})
  {
    hide IsTerminal, Schedule;
    assert s.jobs[id := s.jobs[id]] == s.jobs;
  }

  lemma ReadyIsThere(s: State, id: JobId)
    requires Ready(s, id)
    ensures id in s.jobs
  {
  }
}
