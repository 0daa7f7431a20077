/**
 * Refreshing the peer's workspace from the author's project: a copy is staged beside it, checked against the
 * sealed baseline, swapped in by two renames, and checked again; a failure swaps the old workspace back.
 */
module WorkspaceRefresh {
  import opened Options
  import opened Paths
  import opened Trees

  /**
   * Where an error strikes: during the copy, at the rename that sets the old workspace aside, at the rename that
   * installs the copy, while the installed copy is read, or while the old workspace is removed, with only the
   * paths in `left` still on disk.
   */
  datatype Fault = NoFault | InCopy(copied: Tree) | AtBackup | AtInstall | AtCheck | InCleanup(left: set<Path>)

  function Remains(t: Tree, left: set<Path>): Tree {
    map p | p in t && p in left :: t[p]
  }

  /** The outcome: the source is copied, and `found` is what the final check reads. */
  predicate Succeeds(had: bool, source: Tree, baseline: Tree, found: Tree, fault: Fault) {
    && source == baseline && found == baseline
    && !(fault.InCopy? || fault.AtInstall? || fault.AtCheck? || (had && (fault.AtBackup? || fault.InCleanup?)))
  }

  /** A failed cleanup follows two successful checks, and the rollback then prefers what is left of the old workspace. */
  predicate CleanupFails(had: bool, source: Tree, baseline: Tree, found: Tree, fault: Fault) {
    had && source == baseline && found == baseline && fault.InCleanup?
  }

  /** The workspace after a failure. */
  function AfterFailure(before: Option<Tree>, source: Tree, baseline: Tree, found: Tree, fault: Fault): Option<Tree> {
    if CleanupFails(before.Some?, source, baseline, found, fault) then Some(Remains(before.value, fault.left)) else before
  }

  class Refresh {
    var workspace: Option<Tree>
    var staging: Option<Tree>
    var backup: Option<Tree>

    constructor (workspace: Option<Tree>)
      ensures this.workspace == workspace && staging.None? && backup.None?
    {
      this.workspace, staging, backup := workspace, None, None;
    }

    method Run(source: Tree, baseline: Tree, found: Tree, fault: Fault) returns (ok: bool)
      requires staging.None? && backup.None?
      modifies this
      ensures staging.None? && backup.None?
      ensures ok <==> Succeeds(old(workspace).Some?, source, baseline, found, fault)
      ensures workspace == if ok then Some(baseline) else AfterFailure(old(workspace), source, baseline, found, fault)
    {
      var backupCreated, replacementInstalled;
      ok, backupCreated, replacementInstalled := Swap(source, baseline, found, fault);
      if !ok {
        if replacementInstalled {
          workspace := None;
        }
        if backupCreated {
          workspace, backup := backup, None;
        }
        staging := None;
      }
    }

    /** The steps that may throw, and how far they got. */
    method Swap(source: Tree, baseline: Tree, found: Tree, fault: Fault)
      returns (ok: bool, backupCreated: bool, replacementInstalled: bool)
      requires staging.None? && backup.None?
      modifies this
      ensures ok <==> Succeeds(old(workspace).Some?, source, baseline, found, fault)
      ensures ok ==> workspace == Some(baseline) && staging.None? && backup.None?
      ensures !ok && !backupCreated ==> backup.None? && (if replacementInstalled then old(workspace).None? else workspace == old(workspace))
      ensures !ok && !backupCreated ==> !CleanupFails(old(workspace).Some?, source, baseline, found, fault)
      ensures !ok && backupCreated ==> old(workspace).Some? && backup == AfterFailure(old(workspace), source, baseline, found, fault)
    {
      backupCreated, replacementInstalled := false, false;
      if fault.InCopy? {
        staging := Some(fault.copied);
        return false, backupCreated, replacementInstalled;
      }
      staging := Some(source);
      ManifestDeterminesTree(source, baseline);
      if ManifestOf(staging.value) != ManifestOf(baseline) {
        return false, backupCreated, replacementInstalled;
      }
      if workspace.Some? {
        if fault.AtBackup? {
          return false, backupCreated, replacementInstalled;
        }
        backup, workspace := workspace, None;
        backupCreated := true;
      }
      if fault.AtInstall? {
        return false, backupCreated, replacementInstalled;
      }
      workspace, staging := staging, None;
      replacementInstalled := true;
      if fault.AtCheck? {
        return false, backupCreated, replacementInstalled;
      }
      ManifestDeterminesTree(found, baseline);
      if ManifestOf(found) != ManifestOf(baseline) {
        return false, backupCreated, replacementInstalled;
      }
      if backupCreated {
        if fault.InCleanup? {
          backup := Some(Remains(backup.value, fault.left));
          return false, backupCreated, replacementInstalled;
        }
        backup := None;
      }
      return true, backupCreated, replacementInstalled;
    }
  }

  /** A failed refresh leaves the old workspace as it was exactly when no part of it had been cleaned up. */
  lemma RefreshRestoresExactly(before: Tree, source: Tree, baseline: Tree, found: Tree, fault: Fault)
    requires !Succeeds(true, source, baseline, found, fault)
    ensures AfterFailure(Some(before), source, baseline, found, fault) == Some(before)
       <==> !(source == baseline && found == baseline && fault.InCleanup? && !(before.Keys <= fault.left))
  {
    if fault.InCleanup? && Remains(before, fault.left) == before {
      assert before.Keys == Remains(before, fault.left).Keys;
    }
    if fault.InCleanup? && before.Keys <= fault.left {
      assert Remains(before, fault.left) == before;
    }
  }

  /** Such a failure: the new copy was good, the old one is half deleted, and the half is what stays. */
  lemma FailedCleanupKeepsTheWreck()
    ensures var before, baseline := map[["a"] := File([1], 420), ["b"] := File([2], 420)], map[["a"] := File([3], 420)];
      var fault := InCleanup({["a"]});
      && !Succeeds(true, baseline, baseline, baseline, fault)
      && AfterFailure(Some(before), baseline, baseline, baseline, fault) == Some(map[["a"] := File([1], 420)])
  {
    var before: Tree := map[["a"] := File([1], 420), ["b"] := File([2], 420)];
    assert ["a"] != ["b"];
    assert Remains(before, {["a"]}) == map[["a"] := File([1], 420)];
  }
}
