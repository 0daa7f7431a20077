/**
 * The keyed lock both job stores use: each caller waits for the promise of the caller before it and leaves its
 * own in a map. A caller is a ticket, numbered in call order; its promise resolves when its action has ended,
 * whether it returned or threw.
 */
module KeyedLock {
  import opened Options

  type Key = string

  datatype Phase = Waiting | Running | Done

  datatype Ticket = Ticket(key: Key, previous: Option<nat>, phase: Phase)

  datatype State = State(tickets: seq<Ticket>, locks: map<Key, nat>)

  datatype Event = Call(key: Key) | Enter(ticket: nat) | Finish(ticket: nat)

  const IDLE := State([], map[])

  predicate IsReleased(s: State, t: nat) {
    t < |s.tickets| && s.tickets[t].phase == Done
  }

  /** Waiting on a promise: the first caller's is resolved from the start. */
  predicate MayEnter(s: State, t: nat) {
    && t < |s.tickets| && s.tickets[t].phase == Waiting
    && (s.tickets[t].previous.Some? ==> IsReleased(s, s.tickets[t].previous.value))
  }

  predicate Enabled(s: State, e: Event) {
    match e
    case Call(_) => true
    case Enter(t) => MayEnter(s, t)
    case Finish(t) => t < |s.tickets| && s.tickets[t].phase == Running
  }

  function Called(s: State, key: Key): State {
    State(s.tickets + [Ticket(key, if key in s.locks then Some(s.locks[key]) else None, Waiting)], s.locks[key := |s.tickets|])
  }

  function Entered(s: State, t: nat): State
    requires t < |s.tickets|
  {
    s.(tickets := s.tickets[t := s.tickets[t].(phase := Running)])
  }

  /** The map entry is removed by the last caller in line only. */
  function Finished(s: State, t: nat): State
    requires t < |s.tickets|
  {
    var key := s.tickets[t].key;
    State(s.tickets[t := s.tickets[t].(phase := Done)], if key in s.locks && s.locks[key] == t then s.locks - {key} else s.locks)
  }

  function Step(s: State, e: Event): State
    requires Enabled(s, e)
  {
    match e
    case Call(key) => Called(s, key)
    case Enter(t) => Entered(s, t)
    case Finish(t) => Finished(s, t)
  }

  // ---- The invariant ----

  predicate Before(s: State, i: nat, j: nat) {
    i < j < |s.tickets| && s.tickets[i].key == s.tickets[j].key
  }

  /** A caller has entered only when every earlier caller of its key is done. */
  ghost predicate InOrder(s: State) {
    forall i: nat, j: nat :: Before(s, i, j) && s.tickets[j].phase != Waiting ==> s.tickets[i].phase == Done
  }

  /** A caller waits for the caller right before it; with none in line, all earlier ones were done. */
  ghost predicate Chained(s: State) {
    forall j: nat :: j < |s.tickets| ==>
      match s.tickets[j].previous
      case Some(p) => Before(s, p, j) && forall i: nat :: Before(s, i, j) ==> i <= p
      case None => forall i: nat :: Before(s, i, j) ==> s.tickets[i].phase == Done
  }

  /** An entry names the last caller of its key, who is not done; without one, every caller is. */
  ghost predicate EntriesFit(s: State) {
    && (forall k :: k in s.locks ==> s.locks[k] < |s.tickets| && s.tickets[s.locks[k]].key == k && s.tickets[s.locks[k]].phase != Done)
    && (forall i: nat :: i < |s.tickets| && s.tickets[i].key in s.locks ==> i <= s.locks[s.tickets[i].key])
    && (forall i: nat :: i < |s.tickets| && s.tickets[i].phase != Done ==> s.tickets[i].key in s.locks)
  }

  ghost predicate Inv(s: State) {
    InOrder(s) && Chained(s) && EntriesFit(s)
  }

  lemma CallKeepsInv(s: State, key: Key)
    requires Inv(s)
    ensures Inv(Called(s, key))
  {
    var s' := Called(s, key);
    assert forall i: nat, j: nat :: j < |s.tickets| ==> Before(s', i, j) == Before(s, i, j);
  }

  lemma EarlierAreDone(s: State, t: nat)
    requires Inv(s) && MayEnter(s, t)
    ensures forall i: nat :: Before(s, i, t) ==> s.tickets[i].phase == Done
  {
    if s.tickets[t].previous.Some? {
      var p := s.tickets[t].previous.value;
      forall i: nat | Before(s, i, t) ensures s.tickets[i].phase == Done {
        assert i == p || Before(s, i, p);
      }
    }
  }

  lemma EnterKeepsInv(s: State, t: nat)
    requires Inv(s) && MayEnter(s, t)
    ensures Inv(Entered(s, t))
  {
    EarlierAreDone(s, t);
    var s' := Entered(s, t);
    assert forall i: nat, j: nat :: Before(s', i, j) == Before(s, i, j);
    assert forall i: nat, j: nat :: Before(s, i, j) && s'.tickets[j].phase != Waiting ==> i != t;
  }

  lemma FinishKeepsInv(s: State, t: nat)
    requires Inv(s) && Enabled(s, Finish(t))
    ensures Inv(Finished(s, t))
  {
    FinishKeepsOrder(s, t);
    FinishKeepsEntries(s, t);
    hide InOrder, Chained, EntriesFit, Finished;
  }

  lemma FinishKeepsOrder(s: State, t: nat)
    requires InOrder(s) && Chained(s) && t < |s.tickets| && s.tickets[t].phase == Running
    ensures InOrder(Finished(s, t)) && Chained(Finished(s, t))
  {
    var s' := Finished(s, t);
    assert forall i: nat, j: nat :: Before(s', i, j) == Before(s, i, j);
    assert forall i: nat :: i < |s.tickets| ==> s'.tickets[i].previous == s.tickets[i].previous;
    assert forall i: nat :: i < |s.tickets| && s.tickets[i].phase == Done ==> s'.tickets[i].phase == Done;
    hide Before;
  }

  lemma FinishKeepsEntries(s: State, t: nat)
    requires EntriesFit(s) && t < |s.tickets| && InOrder(s) && s.tickets[t].phase == Running
    ensures EntriesFit(Finished(s, t))
  {
    forall i: nat | i < |s.tickets| && i < t && s.tickets[i].key == s.tickets[t].key ensures s.tickets[i].phase == Done {
      assert Before(s, i, t);
    }
    hide InOrder, Before;
  }

  lemma StepKeepsInv(s: State, e: Event)
    requires Inv(s) && Enabled(s, e)
    ensures Inv(Step(s, e))
  {
    hide Inv, Called, Entered, Finished, MayEnter;
    match e
    case Call(key) => CallKeepsInv(s, key);
    case Enter(t) => EnterKeepsInv(s, t);
    case Finish(t) => FinishKeepsInv(s, t);
  }

  ghost predicate IsRun(states: seq<State>, events: seq<Event>) {
    && |states| == |events| + 1 && states[0] == IDLE
    && (forall i :: 0 <= i < |events| ==> Enabled(states[i], events[i]))
    && (forall i, j | 0 <= i < |events| && j == i + 1 :: states[j] == Step(states[i], events[i]))
  }

  lemma {:induction false} ReachableStatesFit(states: seq<State>, events: seq<Event>, n: nat)
    requires IsRun(states, events) && n <= |events|
    ensures Inv(states[n])
  {
    if n > 0 {
      ReachableStatesFit(states, events, n - 1);
      assert Enabled(states[n - 1], events[n - 1]);
      assert states[n] == Step(states[n - 1], events[n - 1]);
      hide *;
      StepKeepsInv(states[n - 1], events[n - 1]);
    }
  }

  // ---- What the lock promises ----

  /** At most one caller of a key runs, and callers enter and leave in call order. */
  lemma MutualExclusionInCallOrder(states: seq<State>, events: seq<Event>, n: nat, i: nat, j: nat)
    requires IsRun(states, events) && n <= |events| && Before(states[n], i, j)
    ensures !(states[n].tickets[i].phase == Running && states[n].tickets[j].phase == Running)
    ensures states[n].tickets[j].phase != Waiting ==> states[n].tickets[i].phase == Done
  {
    ReachableStatesFit(states, events, n);
    hide IsRun, Chained, EntriesFit;
  }

  /** The map has an entry for a key exactly while a caller of that key has not released. */
  lemma EntryWhileUnreleased(states: seq<State>, events: seq<Event>, n: nat, key: Key)
    requires IsRun(states, events) && n <= |events|
    ensures key in states[n].locks <==> exists t: nat :: t < |states[n].tickets| && states[n].tickets[t].key == key && !IsReleased(states[n], t)
  {
    ReachableStatesFit(states, events, n);
    hide IsRun, Chained, InOrder;
    if key in states[n].locks {
      assert !IsReleased(states[n], states[n].locks[key]);
    }
  }

  /** Nobody waits for ever on the lock itself: the oldest unreleased caller of a key runs or may enter now. */
  lemma OldestCallerProceeds(states: seq<State>, events: seq<Event>, n: nat, t: nat)
    requires IsRun(states, events) && n <= |events| && t < |states[n].tickets| && !IsReleased(states[n], t)
    requires forall i: nat :: Before(states[n], i, t) ==> IsReleased(states[n], i)
    ensures states[n].tickets[t].phase == Running || MayEnter(states[n], t)
  {
    ReachableStatesFit(states, events, n);
    hide IsRun, InOrder, EntriesFit;
  }

  // ---- The mutable lock ----

  class Locks {
    var locks: map<Key, nat>
    /** Every promise made so far. */
    var promises: seq<Ticket>

    constructor ()
      ensures Current() == IDLE
    {
      locks, promises := map[], [];
    }

    ghost function Current(): State
      reads this
    {
      State(promises, locks)
    }

    /** Queues up behind the last caller of the key. */
    method Queue(key: Key) returns (ticket: nat)
      modifies this
      ensures ticket == |old(promises)| && Current() == Step(old(Current()), Call(key))
    {
      var previous := if key in locks then Some(locks[key]) else None;
      ticket := |promises|;
      promises := promises + [Ticket(key, previous, Waiting)];
      locks := locks[key := ticket];
    }

    /** Resumes after `await previous`. */
    method Begin(ticket: nat)
      requires MayEnter(Current(), ticket)
      modifies this`promises
      ensures Current() == Step(old(Current()), Enter(ticket))
    {
      promises := promises[ticket := promises[ticket].(phase := Running)];
    }

    /** The `finally` block. */
    method Release(ticket: nat)
      requires Enabled(Current(), Finish(ticket))
      modifies this
      ensures Current() == Step(old(Current()), Finish(ticket))
    {
      var key := promises[ticket].key;
      promises := promises[ticket := promises[ticket].(phase := Done)];
      if key in locks && locks[key] == ticket {
        locks := locks - {key};
      }
    }
  }
}
