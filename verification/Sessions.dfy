/**
 * The session store: which peer session each conversation thread owns, and the way back. Records keep only what
 * the two maps and the ownership rules depend on.
 */
module Sessions {
  import opened Options

  type ThreadId = string
  type SessionId = string

  datatype Target = Claude | Codex

  datatype Status = Idle | Running | NeedsAttention

  datatype Session = Session(
    target: Target,
    claudeSessionId: Option<SessionId>,
    peerSessionId: Option<SessionId>,
    model: Option<string>,
    status: Status,
    createdAt: nat)

  datatype AssignOptions = AssignOptions(status: Option<Status>, contextReset: bool, model: Option<string>)

  datatype Error = SessionMappingConflict | SessionTargetMismatch

  datatype Store = Store(byThread: map<ThreadId, Session>, bySession: map<SessionId, ThreadId>)

  const EMPTY := Store(map[], map[])

  function IdOf(s: Session): Option<SessionId> {
    if s.peerSessionId.Some? then s.peerSessionId else s.claudeSessionId
  }

  // ---- Steps ----

  function AssignError(st: Store, thread: ThreadId, session: SessionId, target: Target, options: AssignOptions): Option<Error> {
    if session in st.bySession && st.bySession[session] != thread then Some(SessionMappingConflict)
    else if thread in st.byThread && st.byThread[thread].target != target then Some(SessionTargetMismatch)
    else if thread in st.byThread && IdOf(st.byThread[thread]) != Some(session) && !options.contextReset then Some(SessionMappingConflict)
    else None
  }

  function NewSession(existing: Option<Session>, session: SessionId, target: Target, options: AssignOptions, now: nat): Session {
    Session(
      target,
      if target == Claude then Some(session) else None,
      if target == Claude then None else Some(session),
      if options.model.Some? then options.model else if existing.Some? then existing.value.model else None,
      if options.status.Some? then options.status.value else Idle,
      if existing.Some? then existing.value.createdAt else now)
  }

  /** The session a thread gives up when it gets another one. */
  function Released(st: Store, thread: ThreadId, session: SessionId): set<SessionId> {
    if thread in st.byThread && IdOf(st.byThread[thread]).Some? && IdOf(st.byThread[thread]) != Some(session)
    then {IdOf(st.byThread[thread]).value} else {}
  }

  function Assigned(st: Store, thread: ThreadId, session: SessionId, target: Target, options: AssignOptions, now: nat): Store {
    if AssignError(st, thread, session, target, options).Some? then st
    else
      var existing := if thread in st.byThread then Some(st.byThread[thread]) else None;
      Store(st.byThread[thread := NewSession(existing, session, target, options, now)],
            (st.bySession - Released(st, thread, session))[session := thread])
  }

  function WithStatus(st: Store, thread: ThreadId, status: Status): Store {
    if thread !in st.byThread then st else st.(byThread := st.byThread[thread := st.byThread[thread].(status := status)])
  }

  datatype Op =
    | AssignPeer(thread: ThreadId, session: SessionId, target: Target, options: AssignOptions, now: nat)
    | SetStatus(thread: ThreadId, status: Status)

  function Step(st: Store, op: Op): Store {
    match op
    case AssignPeer(thread, session, target, options, now) => Assigned(st, thread, session, target, options, now)
    case SetStatus(thread, status) => WithStatus(st, thread, status)
  }

  function Run(st: Store, ops: seq<Op>): Store {
    if ops == [] then st else Step(Run(st, ops[..|ops| - 1]), ops[|ops| - 1])
  }

  // ---- The two maps are inverse ----

  ghost predicate Inverse(st: Store) {
    && (forall t :: t in st.byThread ==>
          IdOf(st.byThread[t]).Some? && IdOf(st.byThread[t]).value in st.bySession && st.bySession[IdOf(st.byThread[t]).value] == t)
    && (forall s :: s in st.bySession ==> st.bySession[s] in st.byThread && IdOf(st.byThread[st.bySession[s]]) == Some(s))
  }

  lemma StepKeepsInverse(st: Store, op: Op)
    requires Inverse(st)
    ensures Inverse(Step(st, op))
  {
  }

  lemma {:induction false} ReachableMapsAreInverse(st: Store, ops: seq<Op>)
    requires Inverse(st)
    ensures Inverse(Run(st, ops))
  {
    hide Inverse, Step;
    if ops != [] {
      ReachableMapsAreInverse(st, ops[..|ops| - 1]);
      StepKeepsInverse(Run(st, ops[..|ops| - 1]), ops[|ops| - 1]);
    }
  }

  /** A thread never changes its target, and no thread is ever dropped. */
  lemma {:induction false} TargetsAreFixed(st: Store, ops: seq<Op>, thread: ThreadId)
    requires thread in st.byThread
    ensures thread in Run(st, ops).byThread && Run(st, ops).byThread[thread].target == st.byThread[thread].target
  {
    if ops != [] {
      TargetsAreFixed(st, ops[..|ops| - 1], thread);
    }
  }

  // ---- Assignments ----

  predicate Owns(st: Store, thread: ThreadId, session: SessionId) {
    thread in st.byThread && IdOf(st.byThread[thread]) == Some(session)
  }

  /**
   * An assignment is accepted exactly when no other thread owns the session and a known thread keeps its target and,
   * unless its context is reset, its session.
   */
  lemma AssignmentAcceptedExactly(st: Store, thread: ThreadId, session: SessionId, target: Target, options: AssignOptions)
    requires Inverse(st)
    ensures AssignError(st, thread, session, target, options).None?
       <==> && (forall other :: Owns(st, other, session) ==> other == thread)
            && (thread in st.byThread ==> st.byThread[thread].target == target)
            && (thread in st.byThread && !Owns(st, thread, session) ==> options.contextReset)
    ensures AssignError(st, thread, session, target, options) == Some(SessionTargetMismatch)
       <==> (forall other :: Owns(st, other, session) ==> other == thread)
            && thread in st.byThread && st.byThread[thread].target != target
  {
    forall other | Owns(st, other, session) ensures session in st.bySession && st.bySession[session] == other {
    }
    if session in st.bySession {
      assert Owns(st, st.bySession[session], session);
    }
    hide IdOf;
  }

  /** Then the thread owns the session and nobody else anything new; a refused assignment changes nothing. */
  lemma AssignmentRecords(st: Store, thread: ThreadId, session: SessionId, target: Target, options: AssignOptions, now: nat)
    requires Inverse(st)
    ensures AssignError(st, thread, session, target, options).Some? ==>
      Step(st, Op.AssignPeer(thread, session, target, options, now)) == st
    ensures AssignError(st, thread, session, target, options).None? ==>
      var st' := Step(st, Op.AssignPeer(thread, session, target, options, now));
      && Owns(st', thread, session) && session in st'.bySession && st'.bySession[session] == thread
      && (forall other, s :: other != thread ==> (Owns(st', other, s) <==> Owns(st, other, s)))
      && (forall s :: Owns(st', thread, s) ==> s == session)
      && var r := st'.byThread[thread];
         && r.target == target && r.status == (if options.status.Some? then options.status.value else Idle)
         && r.model == (if options.model.Some? then options.model
                        else if thread in st.byThread then st.byThread[thread].model else None)
         && r.createdAt == (if thread in st.byThread then st.byThread[thread].createdAt else now)
         && (r.claudeSessionId.Some? <==> target == Claude) && (r.peerSessionId.Some? <==> target == Codex)
  {
  }

  /** A status update changes the status of a known thread only. */
  lemma StatusRecords(st: Store, thread: ThreadId, status: Status)
    ensures var st' := Step(st, Op.SetStatus(thread, status));
      && st'.bySession == st.bySession && st'.byThread.Keys == st.byThread.Keys
      && (thread in st.byThread ==> st'.byThread[thread] == st.byThread[thread].(status := status))
      && (forall other :: other in st.byThread && other != thread ==> st'.byThread[other] == st.byThread[other])
  {
  }

  /** An accepted assignment of another session to the thread, which only a context reset allows. */
  predicate Resets(st: Store, op: Op, thread: ThreadId, session: SessionId) {
    op.AssignPeer? && op.thread == thread && op.session != session && op.options.contextReset
    && AssignError(st, thread, op.session, op.target, op.options).None?
  }

  lemma StepKeepsOwner(st: Store, op: Op, thread: ThreadId, session: SessionId)
    requires Inverse(st) && session in st.bySession && st.bySession[session] == thread
    ensures Resets(st, op, thread, session) <==> !(session in Step(st, op).bySession && Step(st, op).bySession[session] == thread)
  {
  }

  /** A session stays with its thread until that thread itself releases it by a context reset. */
  lemma {:induction false} SessionsMoveOnlyAfterAReset(st: Store, ops: seq<Op>, thread: ThreadId, session: SessionId)
    requires Inverse(st) && session in st.bySession && st.bySession[session] == thread
    requires !(session in Run(st, ops).bySession && Run(st, ops).bySession[session] == thread)
    ensures exists i :: 0 <= i < |ops| && Resets(Run(st, ops[..i]), ops[i], thread, session)
  {
    hide Inverse, Step, Resets;
    var n := |ops| - 1;
    var before := Run(st, ops[..n]);
    ReachableMapsAreInverse(st, ops[..n]);
    if session in before.bySession && before.bySession[session] == thread {
      StepKeepsOwner(before, ops[n], thread, session);
      assert Resets(Run(st, ops[..n]), ops[n], thread, session);
    } else {
      SessionsMoveOnlyAfterAReset(st, ops[..n], thread, session);
      var i :| 0 <= i < n && Resets(Run(st, ops[..n][..i]), ops[..n][i], thread, session);
      assert ops[..n][..i] == ops[..i] && ops[..n][i] == ops[i];
    }
  }

  // ---- Loading ----

  datatype Entry = Entry(thread: ThreadId, session: Session)

  /** Every entry names a session, and no session two threads. */
  ghost predicate Loadable(entries: seq<Entry>) {
    && (forall e :: e in entries ==> IdOf(e.session).Some?)
    && (forall e, f :: e in entries && f in entries && IdOf(e.session) == IdOf(f.session) ==> e.thread == f.thread)
  }

  ghost predicate OneSessionPerThread(entries: seq<Entry>) {
    forall e, f :: e in entries && f in entries && e.thread == f.thread ==> IdOf(e.session) == IdOf(f.session)
  }

  ghost predicate ThreadsFrom(byThread: map<ThreadId, Session>, entries: seq<Entry>) {
    (forall t :: t in byThread ==> Entry(t, byThread[t]) in entries) && (forall e :: e in entries ==> e.thread in byThread)
  }

  ghost predicate SessionsFrom(bySession: map<SessionId, ThreadId>, entries: seq<Entry>) {
    && (forall s :: s in bySession ==> exists e :: e in entries && IdOf(e.session) == Some(s) && e.thread == bySession[s])
    && (forall e :: e in entries ==> IdOf(e.session).Some? && IdOf(e.session).value in bySession
                                     && bySession[IdOf(e.session).value] == e.thread)
  }

  /** What the maps hold once the entries were read in order. */
  ghost predicate LoadedFrom(st: Store, entries: seq<Entry>) {
    ThreadsFrom(st.byThread, entries) && SessionsFrom(st.bySession, entries)
  }

  /** A loaded store is a bijection exactly when the file lists no thread with two sessions. */
  lemma LoadedMapsAreInverse(st: Store, entries: seq<Entry>)
    requires LoadedFrom(st, entries)
    ensures Inverse(st) <==> OneSessionPerThread(entries)
  {
    if Inverse(st) {
      forall e, f | e in entries && f in entries && e.thread == f.thread ensures IdOf(e.session) == IdOf(f.session) {
        assert IdOf(st.byThread[e.thread]) == IdOf(e.session);
        assert IdOf(st.byThread[e.thread]) == IdOf(f.session);
      }
    }
    if OneSessionPerThread(entries) {
      forall s | s in st.bySession ensures st.bySession[s] in st.byThread && IdOf(st.byThread[st.bySession[s]]) == Some(s) {
        var e :| e in entries && IdOf(e.session) == Some(s) && e.thread == st.bySession[s];
        assert Entry(e.thread, st.byThread[e.thread]) in entries;
      }
    }
  }

  /** Such a file loads: its thread keeps the second session, and the first one still leads to the thread. */
  lemma TwoSessionsOfOneThreadLoad()
    ensures var first, second := Session(Claude, Some("s"), None, None, Idle, 0), Session(Claude, Some("u"), None, None, Idle, 0);
      var entries, st := [Entry("t", first), Entry("t", second)], Store(map["t" := second], map["s" := "t", "u" := "t"]);
      Loadable(entries) && LoadedFrom(st, entries) && !OneSessionPerThread(entries) && !Inverse(st)
  {
    var first, second := Session(Claude, Some("s"), None, None, Idle, 0), Session(Claude, Some("u"), None, None, Idle, 0);
    var entries, st := [Entry("t", first), Entry("t", second)], Store(map["t" := second], map["s" := "t", "u" := "t"]);
    assert entries[0] in entries && entries[1] in entries;
    assert "s" in st.bySession && "u" in st.bySession && "s" != "u";
  }

  // ---- The mutable store ----

  class SessionStore {
    var byThread: map<ThreadId, Session>
    var bySession: map<SessionId, ThreadId>

    constructor ()
      ensures Current() == EMPTY
    {
      byThread, bySession := map[], map[];
    }

    ghost function Current(): Store
      reads this
    {
      Store(byThread, bySession)
    }

    /** Reads the session file; stops at an entry without a session or a session with two threads. */
    method Load(entries: seq<Entry>) returns (ok: bool)
      requires Current() == EMPTY
      modifies this
      ensures ok <==> Loadable(entries)
      ensures ok ==> LoadedFrom(Current(), entries)
    {
      hide IdOf, Loadable, LoadedFrom;
      LoadStart(entries);
      for i := 0 to |entries|
        invariant Loadable(entries[..i]) && LoadedFrom(Current(), entries[..i])
      {
        var e := entries[i];
        LoadEntry(Current(), entries, i);
        var session := IdOf(e.session);
        if session.None? {
          return false;
        }
        if session.value in bySession && bySession[session.value] != e.thread {
          return false;
        }
        byThread := byThread[e.thread := e.session];
        bySession := bySession[session.value := e.thread];
      }
      assert entries[..|entries|] == entries;
      return true;
    }

    method AssignPeer(thread: ThreadId, session: SessionId, target: Target, options: AssignOptions, now: nat)
      returns (error: Option<Error>)
      modifies this
      ensures error == AssignError(old(Current()), thread, session, target, options)
      ensures Current() == Step(old(Current()), Op.AssignPeer(thread, session, target, options, now))
    {
      if session in bySession && bySession[session] != thread {
        return Some(SessionMappingConflict);
      }
      var existing := if thread in byThread then Some(byThread[thread]) else None;
      if existing.Some? && existing.value.target != target {
        return Some(SessionTargetMismatch);
      }
      if existing.Some? && IdOf(existing.value) != Some(session) && !options.contextReset {
        return Some(SessionMappingConflict);
      }
      if existing.Some? && IdOf(existing.value) != Some(session) {
        var previous := IdOf(existing.value);
        if previous.Some? {
          bySession := bySession - {previous.value};
        }
      }
      byThread := byThread[thread := NewSession(existing, session, target, options, now)];
      bySession := bySession[session := thread];
      return None;
    }

    method SetStatus(thread: ThreadId, status: Status)
      modifies this`byThread
      ensures Current() == Step(old(Current()), Op.SetStatus(thread, status))
    {
      if thread in byThread {
        byThread := byThread[thread := byThread[thread].(status := status)];
      }
    }
  }

  lemma LoadStart(entries: seq<Entry>)
    ensures Loadable(entries[..0]) && LoadedFrom(EMPTY, entries[..0])
  {
  }

  /** The next entry is refused exactly when it makes the file unloadable; otherwise it goes into both maps. */
  lemma LoadEntry(st: Store, entries: seq<Entry>, i: nat)
    requires i < |entries| && Loadable(entries[..i]) && LoadedFrom(st, entries[..i])
    ensures var e := entries[i];
      var session := IdOf(e.session);
      if session.None? || (session.value in st.bySession && st.bySession[session.value] != e.thread) then !Loadable(entries)
      else Loadable(entries[..i + 1])
           && LoadedFrom(Store(st.byThread[e.thread := e.session], st.bySession[session.value := e.thread]), entries[..i + 1])
  {
    var e := entries[i];
    var session := IdOf(e.session);
    assert entries[..i + 1] == entries[..i] + [e];
    if session.None? || (session.value in st.bySession && st.bySession[session.value] != e.thread) {
      RefusedEntry(st, entries, i);
    } else {
      LoadStep(st, entries[..i], e, session.value);
    }
    hide *;
  }

  lemma RefusedEntry(st: Store, entries: seq<Entry>, i: nat)
    requires i < |entries| && LoadedFrom(st, entries[..i])
    requires IdOf(entries[i].session).None?
          || (IdOf(entries[i].session).value in st.bySession && st.bySession[IdOf(entries[i].session).value] != entries[i].thread)
    ensures !Loadable(entries)
  {
    hide IdOf, ThreadsFrom;
    assert entries[i] in entries;
    if IdOf(entries[i].session).Some? {
      var s := IdOf(entries[i].session).value;
      var e :| e in entries[..i] && IdOf(e.session) == Some(s) && e.thread == st.bySession[s];
      assert e in entries;
    }
  }

  lemma LoadStep(st: Store, entries: seq<Entry>, e: Entry, session: SessionId)
    requires Loadable(entries) && LoadedFrom(st, entries) && IdOf(e.session) == Some(session)
    requires session in st.bySession ==> st.bySession[session] == e.thread
    ensures Loadable(entries + [e])
    ensures LoadedFrom(Store(st.byThread[e.thread := e.session], st.bySession[session := e.thread]), entries + [e])
  {
    hide IdOf, ThreadsFrom, SessionsFrom;
    LoadableStep(st.bySession, entries, e, session);
    ThreadsStep(st.byThread, entries, e);
    SessionsStep(st.bySession, entries, e, session);
  }

  lemma LoadableStep(bySession: map<SessionId, ThreadId>, entries: seq<Entry>, e: Entry, session: SessionId)
    requires Loadable(entries) && SessionsFrom(bySession, entries) && IdOf(e.session) == Some(session)
    requires session in bySession ==> bySession[session] == e.thread
    ensures Loadable(entries + [e])
  {
    hide IdOf;
    assert forall f :: f in entries + [e] <==> f in entries || f == e;
  }

  lemma ThreadsStep(byThread: map<ThreadId, Session>, entries: seq<Entry>, e: Entry)
    requires ThreadsFrom(byThread, entries)
    ensures ThreadsFrom(byThread[e.thread := e.session], entries + [e])
  {
    assert forall f :: f in entries + [e] <==> f in entries || f == e;
  }

  lemma SessionsStep(bySession: map<SessionId, ThreadId>, entries: seq<Entry>, e: Entry, session: SessionId)
    requires SessionsFrom(bySession, entries) && IdOf(e.session) == Some(session)
    requires session in bySession ==> bySession[session] == e.thread
    ensures SessionsFrom(bySession[session := e.thread], entries + [e])
  {
    hide IdOf;
    assert forall f :: f in entries + [e] <==> f in entries || f == e;
    forall s | s in bySession ensures exists f :: f in entries + [e] && IdOf(f.session) == Some(s) && f.thread == bySession[s] {
      var f :| f in entries && IdOf(f.session) == Some(s) && f.thread == bySession[s];
      assert f in entries + [e];
    }
  }
}
