/** The v1 synchronization of a retained workspace: drift and scope checks, the approval gate, then the transaction. */
module WorkspaceSync {
  import opened Options
  import opened Paths
  import opened Trees
  import opened Overlays
  import opened Changes
  import opened ChangeTheorems
  import opened SyncTransaction
  import opened SyncTheorems
  import opened IdSets

  datatype Handle = Handle(baselineTarget: Manifest, baselineWorkspace: Manifest, allowed: seq<Path>)

  datatype Verdict =
    | BaselineDrift
    | ScopeViolation
    | ResultDrift
    | ApprovalNotRequired
    | ApprovalMismatch
    | AwaitingUser
    | Proceed

  datatype Outcome = Refused(why: Verdict) | Awaiting(highRisk: set<HighRiskChange>) | Synced(changedFiles: set<Path>) | SyncFailed

  function Lookup(m: Manifest, p: Path): Option<Entry> {
    if p in m then Some(m[p]) else None
  }

  predicate EntriesMatch(left: Option<Entry>, right: Option<Entry>) {
    && left.Some? && right.Some?
    && left.value.kind == right.value.kind && left.value.bytes == right.value.bytes
    && left.value.sha256 == right.value.sha256 && left.value.mode == right.value.mode
  }

  /** No path differs outside the allowed paths. */
  ghost predicate ScopeRespected(b: Manifest, c: Manifest, allowed: seq<Path>) {
    forall p :: Lookup(b, p) != Lookup(c, p) ==> UnderAny(allowed, p)
  }

  ghost predicate Injective(idOf: HighRiskChange -> Id) {
    forall x, y :: idOf(x) == idOf(y) ==> x == y
  }

  ghost predicate NoHighRisk(b: Manifest, c: Manifest) {
    forall x :: !IsHighRisk(b, c, x)
  }

  /** Exactly the pending high-risk changes are approved. */
  ghost predicate ApprovesExactly(b: Manifest, c: Manifest, idOf: HighRiskChange -> Id, approved: seq<Id>) {
    && (forall x :: IsHighRisk(b, c, x) ==> idOf(x) in approved)
    && (forall id :: id in approved ==> exists x :: IsHighRisk(b, c, x) && idOf(x) == id)
  }

  /** What the gate decides, in the order of the checks. */
  ghost function GateVerdict(b: Manifest, c: Manifest, handle: Handle, approved: Option<seq<Id>>, expected: Option<Manifest>,
                             idOf: HighRiskChange -> Id): Verdict {
    if b != handle.baselineTarget then BaselineDrift
    else if !ScopeRespected(b, c, handle.allowed) then ScopeViolation
    else if expected.Some? && expected.value != c then ResultDrift
    else if NoHighRisk(b, c) then (if approved.Some? then ApprovalNotRequired else Proceed)
    else if approved.None? then AwaitingUser
    else if !ApprovesExactly(b, c, idOf, approved.value) then ApprovalMismatch
    else Proceed
  }

  method WorkspaceChangesAllowed(b: Manifest, c: Manifest, allowed: seq<Path>) returns (ok: bool)
    ensures ok <==> ScopeRespected(b, c, allowed)
  {
    var todo := b.Keys + c.Keys;
    while todo != {}
      invariant todo <= b.Keys + c.Keys
      invariant forall p :: p !in todo && Lookup(b, p) != Lookup(c, p) ==> UnderAny(allowed, p)
    {
      var path :| path in todo;
      if !EntriesMatch(Lookup(b, path), Lookup(c, path)) && !UnderAny(allowed, path) {
        assert Lookup(b, path) != Lookup(c, path);
        return false;
      }
      todo := todo - {path};
    }
    return true;
  }

  class WorkspaceManager {
    const idOf: HighRiskChange -> Id

    constructor (idOf: HighRiskChange -> Id)
      ensures this.idOf == idOf
    {
      this.idOf := idOf;
    }

    method PendingIds(highRisk: set<HighRiskChange>) returns (ids: seq<Id>)
      ensures forall id :: id in ids <==> exists x :: x in highRisk && idOf(x) == id
    {
      var list := ListOf(highRisk);
      ids := [];
      for i := 0 to |list|
        invariant forall id :: id in ids <==> exists k :: 0 <= k < i && idOf(list[k]) == id
      {
        ids := ids + [idOf(list[i])];
      }
      forall id ensures id in ids <==> exists x :: x in highRisk && idOf(x) == id {
        if x :| x in highRisk && idOf(x) == id {
          assert x in Elements(list);
        }
        if k :| 0 <= k < |list| && idOf(list[k]) == id {
          assert list[k] in Elements(list);
        }
      }
    }

    /** The approval gate: none when nothing needs approval, an exact list of identifiers otherwise. */
    method ApprovalVerdict(b: Manifest, c: Manifest, highRisk: set<HighRiskChange>, approved: Option<seq<Id>>)
      returns (verdict: Verdict)
      requires Injective(idOf) && forall x :: x in highRisk <==> IsHighRisk(b, c, x)
      ensures verdict == if NoHighRisk(b, c) then (if approved.Some? then ApprovalNotRequired else Proceed)
                         else if approved.None? then AwaitingUser
                         else if !ApprovesExactly(b, c, idOf, approved.value) then ApprovalMismatch else Proceed
    {
      if highRisk == {} {
        return if approved.Some? then ApprovalNotRequired else Proceed;
      }
      var witnessChange :| witnessChange in highRisk;
      assert IsHighRisk(b, c, witnessChange);
      if approved.None? {
        return AwaitingUser;
      }
      var pending := PendingIds(highRisk);
      var matching := IdsMatch(pending, approved.value);
      assert matching <==> ApprovesExactly(b, c, idOf, approved.value) by {
        assert forall id :: id in Elements(pending) <==> id in pending;
        assert forall id :: id in Elements(approved.value) <==> id in approved.value;
        hide IsHighRisk;
        if matching {
          forall id | id in approved.value ensures exists x :: IsHighRisk(b, c, x) && idOf(x) == id {
            assert id in pending;
            var x :| x in highRisk && idOf(x) == id;
          }
        }
        if ApprovesExactly(b, c, idOf, approved.value) {
          forall id ensures id in pending <==> id in approved.value {
          }
        }
      }
      return if matching then Proceed else ApprovalMismatch;
    }

    /**
     * Synchronizes the retained workspace back into the author's tree. `roots` are the collapsed roots of the
     * transaction, when it comes to one.
     */
    method Sync(handle: Handle, disk: Transaction, approved: Option<seq<Id>>, expected: Option<Manifest>, fault: Fault)
      returns (outcome: Outcome, ghost roots: seq<Path>)
      requires WellFormed(disk.target) && WellFormed(disk.workspace)
      requires handle.baselineWorkspace == handle.baselineTarget && Injective(idOf)
      modifies disk
      ensures var b, w := old(disk.target), disk.workspace;
              var verdict := GateVerdict(ManifestOf(b), ManifestOf(w), handle, approved, expected, idOf);
        && (verdict == Proceed <==> outcome.Synced? || outcome.SyncFailed?)
        && (outcome.Refused? ==> outcome.why == verdict)
        && (outcome.Awaiting? <==> verdict == AwaitingUser)
        && (outcome.Awaiting? ==> forall x :: x in outcome.highRisk <==> IsHighRisk(ManifestOf(b), ManifestOf(w), x))
        && (verdict != Proceed ==> disk.target == b)
        && (verdict == Proceed ==>
             && Synchronizable(b, w, roots) && RootsDiffer(b, w, roots)
             && (outcome.Synced? <==> roots == [] || (fault.NoFault? && ScopeWillMatch(b, w, roots, handle.allowed, disk.dirMode)))
             && (outcome.Synced? ==> outcome.changedFiles == OrdinaryChanges(ManifestOf(b), ManifestOf(w)))
             && (outcome.Synced? ==> disk.target == Overlay(b, w, roots, roots, disk.dirMode))
             && (outcome.SyncFailed? ==>
                  disk.target == RolledBack(b, w, roots, Struck(b, w, roots, handle.allowed, fault, disk.dirMode), disk.dirMode)))
    {
      hide *;
      roots := [];
      var currentTarget := ManifestOf(disk.target);
      var currentWorkspace := ManifestOf(disk.workspace);
      ghost var b, w := disk.target, disk.workspace;
      VerdictSteps(currentTarget, currentWorkspace, handle, approved, expected, idOf);
      if currentTarget != handle.baselineTarget {
        return Refused(BaselineDrift), [];
      }
      var allowed := WorkspaceChangesAllowed(handle.baselineWorkspace, currentWorkspace, handle.allowed);
      if !allowed {
        return Refused(ScopeViolation), [];
      }
      if expected.Some? && expected.value != currentWorkspace {
        return Refused(ResultDrift), [];
      }
      RootIsNoEntry(disk.target);
      var changedFiles, highRisk := ClassifyWorkspaceChanges(handle.baselineWorkspace, currentWorkspace);
      var verdict := ApprovalVerdict(handle.baselineWorkspace, currentWorkspace, highRisk, approved);
      if verdict == AwaitingUser {
        return Awaiting(highRisk), [];
      }
      if verdict != Proceed {
        return Refused(verdict), [];
      }
      var affected := AffectedList(changedFiles, highRisk);
      ClassifiedNow(b, w, changedFiles, highRisk, affected);
      var affectedRoots := CollapseAffectedRoots(affected);
      ClassifiedRootsAreSynchronizable(b, w, changedFiles, highRisk, affectedRoots);
      ClassifiedRootsDiffer(b, w, changedFiles, highRisk, affectedRoots);
      var ok := disk.Apply(affectedRoots, handle.allowed, fault);
      SuccessIs(b, w, affectedRoots, handle.allowed, fault, disk.dirMode);
      return if ok then Synced(changedFiles) else SyncFailed, affectedRoots;
    }
  }

  lemma VerdictSteps(b: Manifest, c: Manifest, handle: Handle, approved: Option<seq<Id>>, expected: Option<Manifest>,
                     idOf: HighRiskChange -> Id)
    ensures var v := GateVerdict(b, c, handle, approved, expected, idOf);
      && (b != handle.baselineTarget ==> v == BaselineDrift)
      && (b == handle.baselineTarget && !ScopeRespected(b, c, handle.allowed) ==> v == ScopeViolation)
      && (b == handle.baselineTarget && ScopeRespected(b, c, handle.allowed) && expected.Some? && expected.value != c ==> v == ResultDrift)
      && (b == handle.baselineTarget && ScopeRespected(b, c, handle.allowed) && !(expected.Some? && expected.value != c) ==>
            v == if NoHighRisk(b, c) then (if approved.Some? then ApprovalNotRequired else Proceed)
                 else if approved.None? then AwaitingUser
                 else if !ApprovesExactly(b, c, idOf, approved.value) then ApprovalMismatch else Proceed)
  {
  }

  lemma RootIsNoEntry(t: Tree)
    requires WellFormed(t)
    ensures [] !in ManifestOf(t)
  {
  }

  method AffectedList(changed: set<Path>, highRisk: set<HighRiskChange>) returns (paths: seq<Path>)
    ensures Elements(paths) == AffectedPaths(changed, highRisk)
  {
    paths := ListOf(changed);
    var todo := highRisk;
    while todo != {}
      invariant todo <= highRisk
      invariant Elements(paths) == AffectedPaths(changed, highRisk - todo)
    {
      var x :| x in todo;
      assert highRisk - (todo - {x}) == (highRisk - todo) + {x};
      var more := if x.fromPath.Some? then [x.fromPath.value, x.path] else [x.path];
      assert Elements(paths + more) == Elements(paths) + Elements(more);
      paths := paths + more;
      todo := todo - {x};
    }
    assert highRisk - todo == highRisk;
  }

  lemma ClassifiedNow(b: Tree, w: Tree, changed: set<Path>, highRisk: set<HighRiskChange>, affected: seq<Path>)
    requires WellFormed(b) && WellFormed(w)
    requires changed == OrdinaryChanges(ManifestOf(b), ManifestOf(w))
    requires forall x :: x in highRisk <==> IsHighRisk(ManifestOf(b), ManifestOf(w), x)
    requires Elements(affected) == AffectedPaths(changed, highRisk)
    ensures Classified(b, w, changed, highRisk) && [] !in affected
    ensures Elements(affected) == AffectedPaths(changed, highRisk)
  {
    if [] in affected {
      assert [] in Elements(affected);
      DiffIsSound(b, w, changed, highRisk, []);
    }
  }

  lemma SuccessIs(b: Tree, w: Tree, roots: seq<Path>, allowed: seq<Path>, fault: Fault, dirMode: int)
    requires Synchronizable(b, w, roots)
    ensures Struck(b, w, roots, allowed, fault, dirMode).NoFault?
       <==> fault.NoFault? && ScopeWillMatch(b, w, roots, allowed, dirMode)
  {
    ScopedManifestsMatchExactly(b, w, roots, allowed, dirMode);
    hide Overlay, ScopeOf, ScopeWillMatch, Synchronizable;
  }

  ghost predicate RootsDiffer(b: Tree, w: Tree, roots: seq<Path>) {
    forall r :: r in roots ==> Get(b, r) != Get(w, r)
  }

  lemma ClassifiedRootsDiffer(b: Tree, w: Tree, changed: set<Path>, highRisk: set<HighRiskChange>, roots: seq<Path>)
    requires Classified(b, w, changed, highRisk)
    requires Elements(roots) == Outermost(AffectedPaths(changed, highRisk))
    ensures RootsDiffer(b, w, roots)
  {
    forall r | r in roots ensures Get(b, r) != Get(w, r) {
      assert r in Elements(roots);
      DiffIsSound(b, w, changed, highRisk, r);
    }
  }

  /** Without an approval no author path is deleted, renamed, retyped or given another mode. */
  lemma UnapprovedSyncKeepsEveryPath(b: Tree, w: Tree, handle: Handle, expected: Option<Manifest>, idOf: HighRiskChange -> Id,
                                     roots: seq<Path>, dirMode: int, p: Path)
    requires Synchronizable(b, w, roots)
    requires GateVerdict(ManifestOf(b), ManifestOf(w), handle, None, expected, idOf) == Proceed
    requires p in b
    ensures var t := Overlay(b, w, roots, roots, dirMode);
            p in t && t[p].File? == b[p].File? && t[p].mode == b[p].mode && (b[p].Directory? ==> t[p] == b[p])
  {
    OrdinaryChangesKeepEveryPath(b, w, OrdinaryChanges(ManifestOf(b), ManifestOf(w)), {}, p);
    AppliedTreeAt(b, w, roots, dirMode, p);
  }

  /** Neither a success nor a rollback, after any fault, touches a path outside the allowed ones. */
  lemma SyncStaysInScope(b: Tree, w: Tree, allowed: seq<Path>, roots: seq<Path>, fault: Fault, dirMode: int, p: Path)
    requires Synchronizable(b, w, roots) && RootsDiffer(b, w, roots)
    requires ScopeRespected(ManifestOf(b), ManifestOf(w), allowed) && !UnderAny(allowed, p)
    ensures Get(Overlay(b, w, roots, roots, dirMode), p) == Get(b, p)
    ensures Get(RolledBack(b, w, roots, fault, dirMode), p) == Get(b, p)
  {
    OutOfScope(b, w, allowed, roots, p);
    AppliedTreeAt(b, w, roots, dirMode, p);
    RolledBackOutOfScope(b, w, roots, fault, dirMode, p);
    hide Overlay, RolledBack, UnderAny, Synchronizable, ParentsOfPresent;
  }

  lemma OutOfScope(b: Tree, w: Tree, allowed: seq<Path>, roots: seq<Path>, p: Path)
    requires RootsDiffer(b, w, roots) && ScopeRespected(ManifestOf(b), ManifestOf(w), allowed) && !UnderAny(allowed, p)
    ensures Get(b, p) == Get(w, p) && !UnderAny(roots, p)
  {
    DifferencesAreAllowed(b, w, allowed);
    assert forall r :: r in roots ==> UnderAny(allowed, r);
  }

  lemma RolledBackOutOfScope(b: Tree, w: Tree, roots: seq<Path>, fault: Fault, dirMode: int, p: Path)
    requires Synchronizable(b, w, roots) && Get(b, p) == Get(w, p) && !UnderAny(roots, p)
    ensures Get(RolledBack(b, w, roots, fault, dirMode), p) == Get(b, p)
  {
    assert p in ParentsOfPresent(w, ParentsMadeFor(w, roots, fault)) ==> p in w;
    hide UnderAny, CoversDiff, Antichain;
  }

  lemma DifferencesAreAllowed(b: Tree, w: Tree, allowed: seq<Path>)
    requires ScopeRespected(ManifestOf(b), ManifestOf(w), allowed)
    ensures forall p :: Get(b, p) != Get(w, p) ==> UnderAny(allowed, p)
  {
    forall p | Get(b, p) != Get(w, p) ensures UnderAny(allowed, p) {
      assert Lookup(ManifestOf(b), p) != Lookup(ManifestOf(w), p);
    }
  }
}
