/** The v2 synchronization as a whole, and what it guarantees for the author's tree. */
module V2Sync {
  import opened Options
  import opened Paths
  import opened Trees
  import opened Overlays
  import opened V2Snapshots
  import opened V2Workspace

  /** The sealed baseline: the author's tree, its file identities and their ordered listing. */
  datatype Handle = Handle(baseline: Tree, baselineIds: FileIds, listing: seq<Identity>, targets: RepairTargets)

  datatype Outcome = Drifted | OutOfScope | Synced(changedFiles: seq<Path>, artifactDelta: bool) | Failed(changedFiles: seq<Path>)

  ghost predicate Unchanged(handle: Handle, t: Tree, ids: FileIds)
    requires handle.baseline.Keys <= handle.baselineIds.Keys && t.Keys <= ids.Keys
  {
    handle.baseline == t && forall p :: p in t ==> handle.baselineIds[p] == ids[p]
  }

  /** Checks for drift, validates the peer's changes, and runs the transaction. */
  method Sync(handle: Handle, disk: Transaction, ids: FileIds, listing: seq<Identity>, fault: Fault,
              observerThrows: bool, ghost before: (Path, Path) -> bool)
    returns (outcome: Outcome)
    requires WellFormed(disk.target) && WellFormed(disk.workspace)
    requires handle.baseline.Keys <= handle.baselineIds.Keys && disk.target.Keys <= ids.Keys && StrictOrder(before)
    requires IsSnapshot(handle.listing, handle.baseline, handle.baselineIds, before) && IsSnapshot(listing, disk.target, ids, before)
    modifies disk
    ensures outcome.Drifted? <==> !Unchanged(handle, old(disk.target), ids)
    ensures outcome.OutOfScope? <==>
      Unchanged(handle, old(disk.target), ids) && !OnlyRepairs(ManifestOf(old(disk.target)), ManifestOf(disk.workspace), handle.targets)
    ensures outcome.Drifted? || outcome.OutOfScope? ==> disk.target == old(disk.target) && disk.phases == old(disk.phases)
    ensures outcome.Synced? || outcome.Failed? ==>
      var b, w, changed := old(disk.target), disk.workspace, outcome.changedFiles;
      var struck := Struck(w, changed, disk.stagedMode, fault);
      && Validated(b, w, handle.targets, changed)
      && (outcome.Synced? <==> struck.NoFault?)
      && (outcome.Synced? ==> outcome.artifactDelta == (changed != []) && AllFiles(w, changed)
                              && disk.target == Patched(b, w, changed, disk.stagedMode))
      && (outcome.Failed? ==> disk.target == RolledBack(b, changed, struck, disk.stagedMode))
      && disk.phases == old(disk.phases) + PhaseTrace(|changed|, struck)
  {
    hide *;
    var same := SameV2Snapshot(handle.listing, listing, true);
    SnapshotComparisonDecidesTrees(handle.listing, handle.baseline, handle.baselineIds, listing, disk.target, ids, before, true);
    UnchangedIs(handle, disk.target, ids);
    if !same {
      return Drifted;
    }
    var changed := ValidateChanges(ManifestOf(handle.baseline), ManifestOf(disk.workspace), handle.targets);
    if changed.None? {
      return OutOfScope;
    }
    ValidatedNow(disk.target, disk.workspace, handle.targets, changed.value);
    var ok := disk.Replay(changed.value, fault, observerThrows);
    return if ok then Synced(changed.value, changed.value != []) else Failed(changed.value);
  }

  lemma UnchangedIs(handle: Handle, t: Tree, ids: FileIds)
    requires handle.baseline.Keys <= handle.baselineIds.Keys && t.Keys <= ids.Keys
    ensures Unchanged(handle, t, ids)
       <==> handle.baseline == t && (true ==> forall p :: p in handle.baseline ==> handle.baselineIds[p] == ids[p])
  {
  }

  lemma ValidatedNow(b: Tree, w: Tree, targets: RepairTargets, changed: seq<Path>)
    requires WellFormed(b) && WellFormed(w) && OnlyRepairs(ManifestOf(b), ManifestOf(w), targets)
    requires Distinct(changed) && Elements(changed) == ChangedPaths(ManifestOf(b), ManifestOf(w))
    ensures Validated(b, w, targets, changed) && Replaceable(b, w, changed) && AllFiles(w, changed)
  {
    ValidatedIsReplaceable(b, w, targets, changed);
  }

  lemma ValidatedIsReplaceable(b: Tree, w: Tree, targets: RepairTargets, changed: seq<Path>)
    requires Validated(b, w, targets, changed)
    ensures Replaceable(b, w, changed) && AllFiles(w, changed)
  {
    forall p | p in changed ensures HasFile(w, p) && (p in b ==> b[p].File?) {
      ValidatedResultOverlaysTheBaseline(b, w, targets, changed, p);
    }
    forall p, q | p in changed && q in Parents(p) ensures HasDirectory(b, q) {
      assert w[q].Directory?;
      ValidatedResultOverlaysTheBaseline(b, w, targets, changed, q);
    }
    hide OnlyRepairs;
  }

  /** A replaced tree is the peer's, content and modes, exactly when verification passes. */
  lemma VerifiedSyncCopiesTheWorkspace(b: Tree, w: Tree, targets: RepairTargets, changed: seq<Path>, mode: int)
    requires Validated(b, w, targets, changed)
    ensures AllFiles(w, changed)
    ensures Patched(b, w, changed, mode) == w <==> ModesMatch(w, changed, mode)
  {
    ValidatedIsReplaceable(b, w, targets, changed);
    forall p ensures p !in changed ==> Get(Patched(b, w, changed, mode), p) == Get(w, p)
             ensures p in changed ==> (Get(Patched(b, w, changed, mode), p) == Get(w, p) <==> w[p].mode == mode)
    {
      hide Patched, Validated;
      PatchedAt(b, w, changed, mode, p);
      ValidatedResultOverlaysTheBaseline(b, w, targets, changed, p);
      assert p in changed ==> HasFile(w, p);
    }
    hide Patched, Validated;
    if ModesMatch(w, changed, mode) {
      forall p ensures Get(Patched(b, w, changed, mode), p) == Get(w, p) {
        assert p in changed || p !in changed;
      }
      TreesAreEqual(Patched(b, w, changed, mode), w);
    }
    if Patched(b, w, changed, mode) == w {
      forall p | p in changed ensures p in w && w[p].mode == mode {
        assert HasFile(w, p);
        assert Get(Patched(b, w, changed, mode), p) == Get(w, p);
      }
    }
  }

  /** After a successful sync the author's tree equals the peer's workspace, at every path. */
  lemma SuccessfulSyncEqualsTheWorkspace(b: Tree, w: Tree, targets: RepairTargets, changed: seq<Path>, fault: Fault, mode: int)
    requires Validated(b, w, targets, changed) && Struck(w, changed, mode, fault).NoFault?
    ensures AllFiles(w, changed) && Patched(b, w, changed, mode) == w
  {
    assert ModesMatch(w, changed, mode) by { hide Validated; }
    hide *;
    VerifiedSyncCopiesTheWorkspace(b, w, targets, changed, mode);
  }

  // ---- Rollback ----

  ghost predicate SameContent(t: Tree, u: Tree) {
    t.Keys == u.Keys && forall p :: p in t ==> t[p].File? == u[p].File? && (if t[p].File? then t[p].data == u[p].data else t[p] == u[p])
  }

  /** No original is between its removal and the rename, and the backups are still there. */
  ghost predicate KeepsContent(b: Tree, changed: seq<Path>, fault: Fault) {
    match fault
    case AfterUnlink(n) => n < |changed| ==> changed[n] !in b
    case InCleanup(left) => forall p :: p in changed && p in b ==> p in left
    case _ => true
  }

  /** A rollback restores every file's content, and removes every created file, exactly under that condition. */
  lemma RollbackRestoresContentExactly(b: Tree, w: Tree, targets: RepairTargets, changed: seq<Path>, fault: Fault, mode: int)
    requires Validated(b, w, targets, changed)
    ensures SameContent(RolledBack(b, changed, fault, mode), b) <==> KeepsContent(b, changed, fault)
  {
    var t := RolledBack(b, changed, fault, mode);
    assert t.Keys <= b.Keys;
    if fault.AfterUnlink? && fault.index < |changed| && changed[fault.index] in b {
      assert changed[fault.index] !in t;
    }
    if SameContent(t, b) && fault.InCleanup? {
      forall p | p in changed && p in b ensures p in fault.left {
        assert p in t;
      }
    }
    hide Validated;
  }

  /** Modes come back exactly when the replaced originals had the backups' mode. */
  lemma RollbackRestoresModesExactly(b: Tree, changed: seq<Path>, fault: Fault, mode: int)
    requires KeepsContent(b, changed, fault)
    ensures RolledBack(b, changed, fault, mode) == b
       <==> forall p :: p in changed[..ReplacedCount(|changed|, fault)] && HasFile(b, p) ==> b[p].mode == mode
  {
    var t := RolledBack(b, changed, fault, mode);
    assert t.Keys == b.Keys;
    if t == b {
      forall p | p in changed[..ReplacedCount(|changed|, fault)] && HasFile(b, p) ensures b[p].mode == mode {
        assert t[p] == b[p];
      }
    }
  }

  const BEFORE := File([1], 420)
  const AFTER := File([2], 420)

  /** A change that sync can receive: the peer modified the one file it was asked to. */
  lemma OneRepairIsValidated()
    ensures Validated(map[["a"] := BEFORE], map[["a"] := AFTER], map[["a"] := Modify], [["a"]])
  {
    var b: Tree, w: Tree := map[["a"] := BEFORE], map[["a"] := AFTER];
    var mb, mw := ManifestOf(b), ManifestOf(w);
    var changed: seq<Path> := [["a"]];
    assert EntryAt(mb, ["a"]) != EntryAt(mw, ["a"]) by { assert EntryOf(BEFORE).sha256 != EntryOf(AFTER).sha256; }
    assert ChangedPaths(mb, mw) == {["a"]} == Elements(changed);
    assert Parents(["a"]) == {};
  }

  /** It fails verification, without any fault, when staged files get another mode than the peer's. */
  lemma ForeignModeFailsVerification()
    ensures var b, w, changed := map[["a"] := BEFORE], map[["a"] := AFTER], [["a"]];
      && Validated(b, w, map[["a"] := Modify], changed)
      && !ModesMatch(w, changed, 384) && Struck(w, changed, 384, NoFault) == Mismatch && Patched(b, w, changed, 384) != w
  {
    OneRepairIsValidated();
    var w: Tree := map[["a"] := AFTER];
    assert w[["a"]].mode != 384;
    VerifiedSyncCopiesTheWorkspace(map[["a"] := BEFORE], w, map[["a"] := Modify], [["a"]], 384);
  }

  /** Its rollback brings the content back with the wrong mode. */
  lemma RollbackChangesTheMode()
    ensures var b, changed := map[["a"] := BEFORE], [["a"]];
      && Validated(b, map[["a"] := AFTER], map[["a"] := Modify], changed) && KeepsContent(b, changed, AtReplace(0))
      && SameContent(RolledBack(b, changed, AtReplace(0), 384), b) && RolledBack(b, changed, AtReplace(0), 384) != b
  {
    OneRepairIsValidated();
    var b: Tree := map[["a"] := BEFORE];
    var changed: seq<Path> := [["a"]];
    RollbackRestoresContentExactly(b, map[["a"] := AFTER], map[["a"] := Modify], changed, AtReplace(0), 384);
    assert changed[..ReplacedCount(1, AtReplace(0))] == changed && HasFile(b, changed[0]) && b[changed[0]].mode != 384;
    RollbackRestoresModesExactly(b, changed, AtReplace(0), 384);
  }

  /** Its original is lost when the rename after the unlink fails, or when the cleanup stops without its backup. */
  lemma FailedRenameLosesTheOriginal()
    ensures var b, w, changed := map[["a"] := BEFORE], map[["a"] := AFTER], [["a"]];
      && Validated(b, w, map[["a"] := Modify], changed)
      && Struck(w, changed, 420, AfterUnlink(0)) == AfterUnlink(0) && !KeepsContent(b, changed, AfterUnlink(0))
      && ["a"] !in RolledBack(b, changed, AfterUnlink(0), 420)
      && Struck(w, changed, 420, InCleanup({})) == InCleanup({}) && !KeepsContent(b, changed, InCleanup({}))
      && ["a"] !in RolledBack(b, changed, InCleanup({}), 420)
  {
    OneRepairIsValidated();
    var changed: seq<Path> := [["a"]];
    var w: Tree := map[["a"] := AFTER];
    assert changed[0] == ["a"] && w[["a"]].mode == 420;
    assert ["a"] in changed;
  }
}
