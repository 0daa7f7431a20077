/**
 * The v2 workspace synchronizer: scope validation against explicit repair targets, then a per-file
 * transaction with staging, backup, replacement, verification and rollback. Phase observers may throw.
 */
module V2Workspace {
  import opened Options
  import opened Paths
  import opened Trees
  import opened Overlays
  import opened V2Snapshots

  datatype RepairAction = Modify | Create

  type RepairTargets = map<Path, RepairAction>

  datatype Phase = Sealed | SyncPrepared | Replace | Verify | Rollback

  // ---- Validation ----

  function EntryAt(m: Manifest, p: Path): Option<Entry> {
    if p in m then Some(m[p]) else None
  }

  predicate EntryChanged(before: Option<Entry>, after: Option<Entry>) {
    if before.None? || after.None? then before != after
    else before.value.kind != after.value.kind || before.value.bytes != after.value.bytes
         || before.value.sha256 != after.value.sha256 || before.value.mode != after.value.mode
  }

  ghost function ChangedPaths(b: Manifest, c: Manifest): set<Path> {
    set p | p in b.Keys + c.Keys && EntryAt(b, p) != EntryAt(c, p)
  }

  /** A new file at a create target, or new content with the old mode at a modify target. */
  ghost predicate IsRepair(before: Option<Entry>, after: Option<Entry>, target: Option<RepairAction>) {
    || (before.None? && after.Some? && after.value.kind == FileKind && target == Some(Create))
    || (before.Some? && after.Some? && before.value.kind == after.value.kind == FileKind
        && before.value.mode == after.value.mode && target == Some(Modify))
  }

  function TargetAt(targets: RepairTargets, p: Path): Option<RepairAction> {
    if p in targets then Some(targets[p]) else None
  }

  ghost predicate OnlyRepairs(b: Manifest, c: Manifest, targets: RepairTargets) {
    && (forall p :: p in ChangedPaths(b, c) ==> IsRepair(EntryAt(b, p), EntryAt(c, p), TargetAt(targets, p)))
    && (forall p :: p in targets && targets[p] == Create ==> p !in b)
  }

  /** Rejects every change that is not a repair; otherwise lists the changed paths. */
  method ValidateChanges(b: Manifest, c: Manifest, targets: RepairTargets) returns (changed: Option<seq<Path>>)
    ensures changed.Some? <==> OnlyRepairs(b, c, targets)
    ensures changed.Some? ==> Distinct(changed.value) && Elements(changed.value) == ChangedPaths(b, c)
  {
    var list: seq<Path> := [];
    var todo := b.Keys + c.Keys;
    while todo != {}
      invariant todo <= b.Keys + c.Keys
      invariant forall p :: p in ChangedPaths(b, c) && p !in todo ==> IsRepair(EntryAt(b, p), EntryAt(c, p), TargetAt(targets, p))
      invariant forall p :: p in list <==> p in ChangedPaths(b, c) && p !in todo
      invariant Distinct(list)
    {
      var path :| path in todo;
      var before, after, target := EntryAt(b, path), EntryAt(c, path), TargetAt(targets, path);
      todo := todo - {path};
      if EntryChanged(before, after) {
        assert path in ChangedPaths(b, c);
        if (before.Some? && before.value.kind == DirectoryKind) || (after.Some? && after.value.kind == DirectoryKind) {
          return None;
        }
        if !(before.None? && after.Some? && after.value.kind == FileKind && target == Some(Create)) {
          if before.None? || after.None? || before.value.kind != FileKind || after.value.kind != FileKind {
            return None;
          }
          if before.value.mode != after.value.mode {
            return None;
          }
          if target != Some(Modify) {
            return None;
          }
        }
        list := list + [path];
      }
    }
    if p :| p in targets && targets[p] == Create && p in b {
      return None;
    }
    return Some(list);
  }

  ghost predicate Validated(b: Tree, w: Tree, targets: RepairTargets, changed: seq<Path>) {
    && WellFormed(b) && WellFormed(w) && OnlyRepairs(ManifestOf(b), ManifestOf(w), targets)
    && Distinct(changed) && Elements(changed) == ChangedPaths(ManifestOf(b), ManifestOf(w))
  }

  /** A validated result is the baseline overlaid at listed targets: same directories, no path lost. */
  lemma ValidatedResultOverlaysTheBaseline(b: Tree, w: Tree, targets: RepairTargets, changed: seq<Path>, p: Path)
    requires Validated(b, w, targets, changed)
    ensures p !in changed ==> Get(w, p) == Get(b, p)
    ensures p in changed ==> HasFile(w, p) && Get(b, p) != Get(w, p) && p in targets
    ensures p in changed ==> if p in b then targets[p] == Modify && b[p].File? && b[p].mode == w[p].mode else targets[p] == Create
    ensures p in b ==> p in w && b[p].File? == w[p].File?
    ensures p in w && w[p].Directory? ==> p in b && b[p] == w[p]
  {
    var mb, mw := ManifestOf(b), ManifestOf(w);
    assert p in changed <==> p in Elements(changed);
    assert p in b ==> EntryAt(mb, p) == Some(EntryOf(b[p]));
    assert p in w ==> EntryAt(mw, p) == Some(EntryOf(w[p]));
    hide WellFormed, Distinct;
  }

  // ---- The transaction ----

  /**
   * Where an error strikes. `InBackup(n)`: while the n-th changed file is read or backed up. `AfterUnlink(n)`:
   * between the removal of its original and the rename. `AtReplace(n)`: in the observer called after it.
   * `InCleanup(left)`: while the transaction directory is removed, with only the backups in `left` on disk.
   */
  datatype Fault =
    | NoFault
    | AtSealed
    | InStaging(index: nat)
    | AtPrepared
    | InBackup(index: nat)
    | AfterUnlink(index: nat)
    | AtReplace(index: nat)
    | Mismatch
    | AtVerify
    | InCleanup(left: set<Path>)

  /** Staged copies are all created with one fixed mode. */
  function StagedFile(w: Tree, p: Path, mode: int): Node
    requires HasFile(w, p)
  {
    File(w[p].data, mode)
  }

  ghost predicate AllFiles(w: Tree, changed: seq<Path>) {
    forall p :: p in changed ==> HasFile(w, p)
  }

  /** The author's tree with some changed files replaced by the staged copies. */
  function Patched(b: Tree, w: Tree, done: seq<Path>, mode: int): Tree
    requires forall p :: p in done ==> HasFile(w, p)
  {
    b + map p | p in Elements(done) :: StagedFile(w, p, mode)
  }

  /** Verification compares whole entries, so it succeeds when the peer's modes are the staged mode. */
  ghost predicate ModesMatch(w: Tree, changed: seq<Path>, mode: int) {
    forall p :: p in changed ==> p in w && w[p].mode == mode
  }

  /** The fault that ends the attempt: faults at files that do not exist never strike, a mismatch comes first. */
  ghost function Struck(w: Tree, changed: seq<Path>, mode: int, fault: Fault): Fault {
    if fault.AtSealed? then AtSealed
    else if changed == [] then NoFault
    else if fault.AtPrepared? then AtPrepared
    else if (fault.InStaging? || fault.InBackup? || fault.AfterUnlink? || fault.AtReplace?) && fault.index < |changed| then fault
    else if !ModesMatch(w, changed, mode) || fault.Mismatch? then Mismatch
    else if fault.AtVerify? || fault.InCleanup? then fault
    else NoFault
  }

  /** How many files were replaced when the fault struck. */
  function ReplacedCount(count: nat, fault: Fault): (n: nat)
    ensures n <= count
  {
    match fault
    case InBackup(n) => if n < count then n else count
    case AfterUnlink(n) => if n < count then n else count
    case AtReplace(n) => if n < count then n + 1 else count
    case AtSealed => 0
    case InStaging(n) => if n < count then 0 else count
    case AtPrepared => 0
    case _ => count
  }

  ghost predicate IsLost(changed: seq<Path>, fault: Fault, p: Path) {
    || (fault.AfterUnlink? && fault.index < |changed| && p == changed[fault.index])
    || (fault.InCleanup? && p in changed && p !in fault.left)
  }

  /** The author's tree after a rollback: replaced files come back with the backup's mode. */
  ghost function RolledBack(b: Tree, changed: seq<Path>, fault: Fault, mode: int): Tree {
    map p | p in b && !IsLost(changed, fault, p) ::
      if p in changed[..ReplacedCount(|changed|, fault)] && b[p].File? then File(b[p].data, mode) else b[p]
  }

  function Repeat(phase: Phase, n: nat): (s: seq<Phase>)
    ensures |s| == n && forall i :: 0 <= i < n ==> s[i] == phase
  {
    if n == 0 then [] else Repeat(phase, n - 1) + [phase]
  }

  /** The phases announced to the observer before a rollback, the throwing one included. */
  function AttemptTrace(count: nat, fault: Fault): seq<Phase> {
    if fault.AtSealed? || count == 0 || fault.InStaging? then [Sealed]
    else if fault.AtPrepared? then [Sealed, SyncPrepared]
    else [Sealed, SyncPrepared] + Repeat(Replace, ReplacedCount(count, fault))
         + if fault.NoFault? || fault.AtVerify? || fault.InCleanup? then [Verify] else []
  }

  function PhaseTrace(count: nat, fault: Fault): seq<Phase> {
    AttemptTrace(count, fault) + if fault.NoFault? then [] else [Rollback]
  }

  /** What validation establishes for the transaction: files only, in directories the author already has. */
  ghost predicate Replaceable(b: Tree, w: Tree, changed: seq<Path>) {
    && Distinct(changed) && AllFiles(w, changed)
    && (forall p :: p in changed && p in b ==> b[p].File?)
    && (forall p, q :: p in changed && q in Parents(p) ==> HasDirectory(b, q))
  }

  /** The file whose original is gone although the file was not recorded as replaced. */
  function UnlinkedList(changed: seq<Path>, fault: Fault): seq<Path> {
    if fault.AfterUnlink? && fault.index < |changed| then [changed[fault.index]] else []
  }

  ghost function Unlinked(changed: seq<Path>, fault: Fault): set<Path> {
    Elements(UnlinkedList(changed, fault))
  }

  /** The backups of the files of `done` that the author had. */
  ghost function Originals(b: Tree, done: seq<Path>, mode: int): Tree {
    map p | p in b && p in done && b[p].File? :: File(b[p].data, mode)
  }

  ghost function SavedAtFault(b: Tree, changed: seq<Path>, fault: Fault, mode: int): Tree {
    var saved := Originals(b, changed[..ReplacedCount(|changed|, fault)], mode) + Originals(b, UnlinkedList(changed, fault), mode);
    if fault.InCleanup? then map p | p in saved && p in fault.left :: saved[p] else saved
  }

  ghost function Restored(saved: Tree, list: seq<Path>): Tree {
    map p | p in saved && p in list :: saved[p]
  }

  ghost predicate StagedFrom(staging: Tree, w: Tree, changed: seq<Path>, i: nat, mode: int) {
    forall k :: i <= k < |changed| ==> HasFile(w, changed[k]) && Get(staging, changed[k]) == Some(StagedFile(w, changed[k], mode))
  }

  class Transaction {
    const workspace: Tree
    const stagedMode: int
    var target: Tree
    var staging: Tree
    var backup: Tree
    var replaced: seq<Path>
    var phases: seq<Phase>

    constructor (target: Tree, workspace: Tree, stagedMode: int)
      ensures this.target == target && this.workspace == workspace && this.stagedMode == stagedMode && phases == []
    {
      this.target, this.workspace, this.stagedMode := target, workspace, stagedMode;
      staging, backup, replaced, phases := map[], map[], [], [];
    }

    /** Calls the phase observer, which sees the phase and may then throw. */
    method Announce(phase: Phase, throws: bool) returns (thrown: bool)
      modifies this`phases
      ensures phases == old(phases) + [phase] && thrown == throws
    {
      phases := phases + [phase];
      thrown := throws;
    }

    method StageFiles(changed: seq<Path>, n: nat)
      requires n <= |changed| && AllFiles(workspace, changed) && staging == map[]
      modifies this`staging
      ensures staging == Patched(map[], workspace, changed[..n], stagedMode)
    {
      for i := 0 to n
        invariant staging == Patched(map[], workspace, changed[..i], stagedMode)
      {
        PatchOneMore(map[], workspace, changed, i, stagedMode);
        staging := staging[changed[i] := StagedFile(workspace, changed[i], stagedMode)];
      }
    }

    /** Backs the author's file up, if there is one, and removes it. */
    method BackUpAndUnlink(path: Path) returns (hadOriginal: bool)
      requires path in target ==> target[path].File?
      modifies this`target, this`backup
      ensures hadOriginal == (path in old(target))
      ensures target == old(target) - {path}
      ensures backup == if hadOriginal then old(backup)[path := StagedFile(old(target), path, stagedMode)] else old(backup)
    {
      hadOriginal := path in target;
      if hadOriginal {
        backup := backup[path := StagedFile(target, path, stagedMode)];
        target := target - {path};
      }
    }

    /** `rename` of a staged file into the author's tree. */
    method InstallStaged(path: Path)
      requires path in staging && path !in target
      requires forall q :: q in Parents(path) ==> HasDirectory(target, q)
      modifies this`target, this`staging
      ensures target == old(target)[path := old(staging)[path]]
      ensures staging == old(staging) - {path}
    {
      target := target[path := staging[path]];
      staging := staging - {path};
    }

    /** The replacement loop: back up, unlink, rename, record, announce. */
    method ReplaceFiles(changed: seq<Path>, fault: Fault, ghost b: Tree) returns (ok: bool)
      requires Replaceable(b, workspace, changed) && target == b && backup == map[] && replaced == []
      requires staging == Patched(map[], workspace, changed, stagedMode)
      modifies this
      ensures !fault.AtSealed? && !fault.AtPrepared? && !(fault.InStaging? && fault.index < |changed|) ==>
        var n := ReplacedCount(|changed|, fault);
        && (ok <==> !((fault.InBackup? || fault.AfterUnlink? || fault.AtReplace?) && fault.index < |changed|))
        && replaced == changed[..n] && phases == old(phases) + Repeat(Replace, n)
        && target == Patched(b, workspace, changed[..n], stagedMode) - Unlinked(changed, fault)
        && backup == Originals(b, changed[..n], stagedMode) + Originals(b, UnlinkedList(changed, fault), stagedMode)
    {
      hide *;
      LoopStart(b, workspace, changed, stagedMode);
      for i := 0 to |changed|
        invariant target == Patched(b, workspace, changed[..i], stagedMode)
        invariant backup == Originals(b, changed[..i], stagedMode)
        invariant StagedFrom(staging, workspace, changed, i, stagedMode)
        invariant replaced == changed[..i] && phases == old(phases) + Repeat(Replace, i)
        invariant (fault.InBackup? || fault.AfterUnlink? || fault.AtReplace?) ==> fault.index >= i
      {
        var path := changed[i];
        ReplaceStep(b, workspace, changed, i, staging, stagedMode);
        if fault == InBackup(i) {
          CountIs(b, workspace, changed, fault, stagedMode);
          return false;
        }
        var _ := BackUpAndUnlink(path);
        if fault == AfterUnlink(i) {
          CountIs(b, workspace, changed, fault, stagedMode);
          return false;
        }
        InstallStaged(path);
        replaced := replaced + [path];
        var thrown := Announce(Replace, fault == AtReplace(i));
        if thrown {
          CountIs(b, workspace, changed, fault, stagedMode);
          return false;
        }
      }
      CountIs(b, workspace, changed, fault, stagedMode);
      return true;
    }

    /** Compares the replaced files with the peer's, entry by entry. */
    method VerifyFiles(changed: seq<Path>) returns (ok: bool)
      requires AllFiles(workspace, changed)
      requires forall p :: p in changed ==> Get(target, p) == Some(StagedFile(workspace, p, stagedMode))
      ensures ok <==> ModesMatch(workspace, changed, stagedMode)
    {
      for i := 0 to |changed|
        invariant ModesMatch(workspace, changed[..i], stagedMode)
      {
        assert changed[..i + 1] == changed[..i] + [changed[i]];
        assert HasFile(workspace, changed[i]);
        assert Get(target, changed[i]) == Some(StagedFile(workspace, changed[i], stagedMode));
        if EntryOf(workspace[changed[i]]) != EntryOf(target[changed[i]]) {
          return false;
        }
      }
      assert changed[..|changed|] == changed;
      return true;
    }

    /** Announces the rollback, ignoring a throwing observer, then undoes the recorded replacements in reverse. */
    method RollBack(observerThrows: bool)
      requires Distinct(replaced)
      modifies this
      ensures target == (old(target) - Elements(replaced)) + Restored(old(backup), replaced)
      ensures phases == old(phases) + [Rollback] && replaced == old(replaced)
    {
      var _ := Announce(Rollback, observerThrows);
      ghost var t, saved := target, backup;
      var list := replaced;
      assert list[|list|..] == [] && list[0..] == list;
      assert (t - Elements(list[|list|..])) + Restored(saved, list[|list|..]) == t;
      for i := |list| downto 0
        invariant target == (t - Elements(list[i..])) + Restored(saved, list[i..])
        invariant backup == saved - Elements(list[i..])
        invariant replaced == list && phases == old(phases) + [Rollback]
      {
        hide *;
        UndoStep(t, saved, list, i);
        var path := list[i];
        target := target - {path};
        if path in backup {
          target := target[path := backup[path]];
          backup := backup - {path};
        }
      }
    }

    /** The transaction itself, for changes that passed validation; `observerThrows` is about the rollback's announcement. */
    method Replay(changed: seq<Path>, fault: Fault, observerThrows: bool) returns (ok: bool)
      requires Replaceable(target, workspace, changed)
      modifies this
      ensures var struck := Struck(workspace, changed, stagedMode, fault);
        && (ok <==> struck.NoFault?)
        && (ok ==> target == Patched(old(target), workspace, changed, stagedMode))
        && (!ok ==> target == RolledBack(old(target), changed, struck, stagedMode))
        && phases == old(phases) + PhaseTrace(|changed|, struck)
    {
      hide *;
      ghost var b, before := target, phases;
      ghost var struck := Struck(workspace, changed, stagedMode, fault);
      ReplayFacts(b, workspace, changed, struck, stagedMode);
      staging, backup, replaced := map[], map[], [];
      ok := Attempt(changed, fault);
      if !ok {
        RollBack(observerThrows);
        RollbackResult(b, workspace, changed, struck, stagedMode);
      }
      TraceIs(|changed|, struck, before);
      staging, backup := map[], map[];
    }

    method Attempt(changed: seq<Path>, fault: Fault) returns (ok: bool)
      requires Replaceable(target, workspace, changed) && staging == map[] && backup == map[] && replaced == []
      modifies this
      ensures var struck, b := Struck(workspace, changed, stagedMode, fault), old(target);
              var n := ReplacedCount(|changed|, struck);
        && (ok <==> struck.NoFault?)
        && replaced == (if changed == [] then [] else changed[..n]) && phases == old(phases) + AttemptTrace(|changed|, struck)
        && target == Patched(b, workspace, replaced, stagedMode) - Unlinked(changed, struck)
        && backup == SavedAtFault(b, changed, struck, stagedMode)
    {
      hide *;
      ghost var b, before := target, phases;
      ghost var struck := Struck(workspace, changed, stagedMode, fault);
      StruckIs(b, workspace, changed, stagedMode, fault, before);
      CountIs(b, workspace, changed, fault, stagedMode);
      CountIs(b, workspace, changed, struck, stagedMode);
      var thrown := Announce(Sealed, fault.AtSealed?);
      if thrown {
        return false;
      }
      if changed == [] {
        return true;
      }
      StageFiles(changed, if fault.InStaging? && fault.index < |changed| then fault.index else |changed|);
      if fault.InStaging? && fault.index < |changed| {
        return false;
      }
      thrown := Announce(SyncPrepared, fault.AtPrepared?);
      if thrown {
        return false;
      }
      ok := ReplaceFiles(changed, fault, b);
      if !ok {
        return false;
      }
      PatchedHolds(b, workspace, changed, fault, stagedMode);
      ok := VerifyFiles(changed);
      if !ok || fault.Mismatch? {
        return false;
      }
      thrown := Announce(Verify, fault.AtVerify?);
      if thrown {
        return false;
      }
      if fault.InCleanup? {
        backup := map p | p in backup && p in fault.left :: backup[p];
        return false;
      }
      return true;
    }
  }

  lemma PatchOneMore(b: Tree, w: Tree, changed: seq<Path>, i: nat, mode: int)
    requires i < |changed| && AllFiles(w, changed)
    ensures Patched(b, w, changed[..i + 1], mode) == Patched(b, w, changed[..i], mode)[changed[i] := StagedFile(w, changed[i], mode)]
  {
    assert changed[..i + 1] == changed[..i] + [changed[i]];
    assert Elements(changed[..i + 1]) == Elements(changed[..i]) + {changed[i]};
  }

  lemma LoopStart(b: Tree, w: Tree, changed: seq<Path>, mode: int)
    requires Replaceable(b, w, changed)
    ensures AllFiles(w, changed[..0])
    ensures Patched(b, w, changed[..0], mode) == b && Originals(b, changed[..0], mode) == map[] && Repeat(Replace, 0) == []
    ensures StagedFrom(Patched(map[], w, changed, mode), w, changed, 0, mode)
  {
    forall k | 0 <= k < |changed|
      ensures HasFile(w, changed[k]) && Get(Patched(map[], w, changed, mode), changed[k]) == Some(StagedFile(w, changed[k], mode))
    {
      assert changed[k] in Elements(changed);
    }
  }

  lemma PatchedAt(b: Tree, w: Tree, done: seq<Path>, mode: int, p: Path)
    requires AllFiles(w, done)
    ensures Get(Patched(b, w, done, mode), p) == if p in done then Some(StagedFile(w, p, mode)) else Get(b, p)
  {
    assert p in done <==> p in Elements(done);
  }

  /** Everything one iteration needs, and what it leaves. */
  lemma ReplaceStep(b: Tree, w: Tree, changed: seq<Path>, i: nat, staging: Tree, mode: int)
    requires Replaceable(b, w, changed) && i < |changed| && StagedFrom(staging, w, changed, i, mode)
    ensures AllFiles(w, changed[..i]) && AllFiles(w, changed[..i + 1]) && HasFile(w, changed[i])
    ensures changed[i] in changed
    ensures var p, t := changed[i], Patched(b, w, changed[..i], mode);
      && (p in t ==> t[p].File?)
      && p in staging && (forall q :: q in Parents(p) ==> HasDirectory(t - {p}, q))
      && Patched(b, w, changed[..i + 1], mode) == (t - {p})[p := staging[p]]
      && StagedFrom(staging - {p}, w, changed, i + 1, mode)
    ensures var p, t := changed[i], Patched(b, w, changed[..i], mode);
      && Originals(b, changed[..i + 1], mode)
           == (if p in t then Originals(b, changed[..i], mode)[p := StagedFile(t, p, mode)] else Originals(b, changed[..i], mode))
      && Originals(b, changed[..i + 1], mode) == Originals(b, changed[..i], mode) + Originals(b, [p], mode)
    ensures changed[..i + 1] == changed[..i] + [changed[i]] && Repeat(Replace, i + 1) == Repeat(Replace, i) + [Replace]
  {
    hide *;
    NextFile(b, w, changed, i);
    AuthorVersion(b, w, changed, i, mode);
    PatchOneMore(b, w, changed, i, mode);
    StagedNext(staging, w, changed, i, mode);
    ParentsStay(b, w, changed, i, mode);
    OneMoreOriginal(b, changed, i, mode);
    PutBack(Patched(b, w, changed[..i], mode), changed[i], staging);
    GetIs(staging, changed[i]);
    OriginalUpdate(Originals(b, changed[..i], mode), changed[i], b, mode);
  }

  lemma NextFile(b: Tree, w: Tree, changed: seq<Path>, i: nat)
    requires Replaceable(b, w, changed) && i < |changed|
    ensures changed[i] in changed && changed[..i + 1] == changed[..i] + [changed[i]]
    ensures Distinct(changed) && AllFiles(w, changed) && AllFiles(w, changed[..i]) && AllFiles(w, changed[..i + 1])
    ensures HasFile(w, changed[i]) && (changed[i] in b ==> b[changed[i]].File?)
    ensures Repeat(Replace, i + 1) == Repeat(Replace, i) + [Replace]
  {
  }

  lemma OriginalUpdate(saved: Tree, p: Path, b: Tree, mode: int)
    ensures HasFile(b, p) ==> saved + map[p := StagedFile(b, p, mode)] == saved[p := StagedFile(b, p, mode)]
    ensures saved + map[] == saved
  {
  }

  /** A file not replaced yet is the author's own. */
  lemma AuthorVersion(b: Tree, w: Tree, changed: seq<Path>, i: nat, mode: int)
    requires Replaceable(b, w, changed) && i < |changed|
    ensures AllFiles(w, changed[..i])
    ensures var p, t := changed[i], Patched(b, w, changed[..i], mode);
      && (p in t <==> p in b)
      && (p in t ==> HasFile(t, p) && HasFile(b, p) && t[p].File? && b[p].File? && StagedFile(t, p, mode) == StagedFile(b, p, mode))
  {
    PatchedAt(b, w, changed[..i], mode, changed[i]);
    assert changed[i] in changed;
    FreshFile(changed, i);
    GetIs(Patched(b, w, changed[..i], mode), changed[i]);
    GetIs(b, changed[i]);
  }

  lemma PutBack(t: Tree, p: Path, staging: Tree)
    ensures p in staging ==> (t - {p})[p := staging[p]] == t[p := staging[p]]
  {
  }

  lemma GetIs(t: Tree, p: Path)
    ensures Get(t, p) == if p in t then Some(t[p]) else None
  {
  }

  lemma FreshFile(changed: seq<Path>, i: nat)
    requires Distinct(changed) && i < |changed|
    ensures changed[i] !in changed[..i]
  {
  }

  lemma StagedNext(staging: Tree, w: Tree, changed: seq<Path>, i: nat, mode: int)
    requires Distinct(changed) && i < |changed| && StagedFrom(staging, w, changed, i, mode)
    ensures HasFile(w, changed[i]) && Get(staging, changed[i]) == Some(StagedFile(w, changed[i], mode))
    ensures StagedFrom(staging - {changed[i]}, w, changed, i + 1, mode)
  {
    assert Get(staging, changed[i]).Some?;
    forall k | i + 1 <= k < |changed|
      ensures HasFile(w, changed[k]) && Get(staging - {changed[i]}, changed[k]) == Some(StagedFile(w, changed[k], mode))
    {
      assert changed[k] != changed[i];
      assert Get(staging, changed[k]) == Some(StagedFile(w, changed[k], mode));
    }
  }

  lemma ParentsStay(b: Tree, w: Tree, changed: seq<Path>, i: nat, mode: int)
    requires Replaceable(b, w, changed) && i < |changed|
    ensures AllFiles(w, changed[..i])
    ensures forall q :: q in Parents(changed[i]) ==> HasDirectory(Patched(b, w, changed[..i], mode) - {changed[i]}, q)
  {
    forall q | q in Parents(changed[i]) ensures HasDirectory(Patched(b, w, changed[..i], mode) - {changed[i]}, q) {
      PatchedAt(b, w, changed[..i], mode, q);
      assert changed[i] in changed;
      assert HasDirectory(b, q);
      assert q !in changed;
    }
  }

  lemma OneMoreOriginal(b: Tree, changed: seq<Path>, i: nat, mode: int)
    requires i < |changed| && (changed[i] in b ==> b[changed[i]].File?)
    ensures Originals(b, changed[..i + 1], mode) == Originals(b, changed[..i], mode) + Originals(b, [changed[i]], mode)
    ensures Originals(b, [changed[i]], mode) == if changed[i] in b then map[changed[i] := StagedFile(b, changed[i], mode)] else map[]
  {
    assert changed[..i + 1] == changed[..i] + [changed[i]];
  }

  lemma CountIs(b: Tree, w: Tree, changed: seq<Path>, fault: Fault, mode: int)
    requires Replaceable(b, w, changed)
    ensures AllFiles(w, changed)
    ensures (fault.InBackup? || fault.AfterUnlink?) && fault.index < |changed| ==> ReplacedCount(|changed|, fault) == fault.index
    ensures fault.AtReplace? && fault.index < |changed| ==> ReplacedCount(|changed|, fault) == fault.index + 1
    ensures (!(fault.InBackup? || fault.AfterUnlink? || fault.AtReplace?) || fault.index >= |changed|)
            && !fault.AtSealed? && !fault.AtPrepared? && !(fault.InStaging? && fault.index < |changed|)
            ==> ReplacedCount(|changed|, fault) == |changed|
    ensures Unlinked(changed, fault)
         == if fault.AfterUnlink? && fault.index < |changed| then {changed[fault.index]} else {}
    ensures UnlinkedList(changed, fault) == if fault.AfterUnlink? && fault.index < |changed| then [changed[fault.index]] else []
    ensures Originals(b, [], mode) == map[]
    ensures forall i :: 0 <= i <= |changed| ==> AllFiles(w, changed[..i])
    ensures changed[..|changed|] == changed
  {
  }

  lemma UndoStep(t: Tree, saved: Tree, list: seq<Path>, i: nat)
    requires Distinct(list) && i < |list|
    ensures var p := list[i];
            var cur := (t - Elements(list[i + 1..])) + Restored(saved, list[i + 1..]);
            var backup := saved - Elements(list[i + 1..]);
      && (t - Elements(list[i..])) + Restored(saved, list[i..]) == (if p in backup then (cur - {p})[p := backup[p]] else cur - {p})
      && saved - Elements(list[i..]) == (if p in backup then backup - {p} else backup)
  {
    var p, rest := list[i], list[i + 1..];
    assert list[i..] == [p] + rest;
    assert Elements(list[i..]) == {p} + Elements(rest);
    assert p !in Elements(rest);
    var cur, backup := (t - Elements(rest)) + Restored(saved, rest), saved - Elements(rest);
    var l := (t - Elements(list[i..])) + Restored(saved, list[i..]);
    var r := if p in backup then (cur - {p})[p := backup[p]] else cur - {p};
    forall q ensures Get(l, q) == Get(r, q) {
      assert q in list[i..] <==> q in Elements(list[i..]);
      assert q in rest <==> q in Elements(rest);
      hide Distinct, Elements;
    }
    TreesAreEqual(l, r);
    hide Distinct, Elements, Restored;
  }

  lemma TraceIs(count: nat, fault: Fault, before: seq<Phase>)
    ensures PhaseTrace(count, fault) == AttemptTrace(count, fault) + (if fault.NoFault? then [] else [Rollback])
    ensures before + AttemptTrace(count, fault) + (if fault.NoFault? then [] else [Rollback]) == before + PhaseTrace(count, fault)
  {
  }

  lemma ReplayFacts(b: Tree, w: Tree, changed: seq<Path>, struck: Fault, mode: int)
    requires Replaceable(b, w, changed)
    ensures AllFiles(w, changed[..ReplacedCount(|changed|, struck)]) && AllFiles(w, changed)
    ensures Distinct(changed[..ReplacedCount(|changed|, struck)])
    ensures struck.NoFault? ==> Patched(b, w, changed[..ReplacedCount(|changed|, struck)], mode) - Unlinked(changed, struck)
                                == Patched(b, w, changed, mode)
  {
    assert changed[..|changed|] == changed;
  }

  lemma PatchedHolds(b: Tree, w: Tree, changed: seq<Path>, fault: Fault, mode: int)
    requires Replaceable(b, w, changed)
    ensures AllFiles(w, changed)
    ensures Patched(b, w, changed, mode) - {} == Patched(b, w, changed, mode)
    ensures forall p :: p in changed ==> Get(Patched(b, w, changed, mode), p) == Some(StagedFile(w, p, mode))
  {
    forall p | p in changed ensures Get(Patched(b, w, changed, mode), p) == Some(StagedFile(w, p, mode)) {
      PatchedAt(b, w, changed, mode, p);
    }
  }

  /** A fault whose index exceeds the list never struck; otherwise clearing and restoring gives the closed form. */
  lemma RollbackResult(b: Tree, w: Tree, changed: seq<Path>, fault: Fault, mode: int)
    requires Replaceable(b, w, changed) && AllFiles(w, changed[..ReplacedCount(|changed|, fault)])
    ensures var replaced := changed[..ReplacedCount(|changed|, fault)];
      ((Patched(b, w, replaced, mode) - Unlinked(changed, fault)) - Elements(replaced))
        + Restored(SavedAtFault(b, changed, fault, mode), replaced)
      == RolledBack(b, changed, fault, mode)
  {
    var replaced := changed[..ReplacedCount(|changed|, fault)];
    var l := ((Patched(b, w, replaced, mode) - Unlinked(changed, fault)) - Elements(replaced))
               + Restored(SavedAtFault(b, changed, fault, mode), replaced);
    assert Distinct(changed);
    forall p ensures Get(l, p) == Get(RolledBack(b, changed, fault, mode), p) {
      hide *;
      UndoneAt(Patched(b, w, replaced, mode), changed, fault, SavedAtFault(b, changed, fault, mode), replaced, p);
      PatchedAt(b, w, replaced, mode, p);
      if p in replaced { SavedAt(b, changed, fault, mode, p); }
      RolledBackAt(b, w, changed, fault, mode, p);
    }
    TreesAreEqual(l, RolledBack(b, changed, fault, mode));
  }

  lemma UndoneAt(t: Tree, changed: seq<Path>, fault: Fault, saved: Tree, replaced: seq<Path>, p: Path)
    ensures Get(((t - Unlinked(changed, fault)) - Elements(replaced)) + Restored(saved, replaced), p)
         == if p in replaced then Get(saved, p) else if p in Unlinked(changed, fault) then None else Get(t, p)
  {
    assert p in replaced <==> p in Elements(replaced);
  }

  lemma SavedAt(b: Tree, changed: seq<Path>, fault: Fault, mode: int, p: Path)
    requires Distinct(changed) && p in changed[..ReplacedCount(|changed|, fault)]
    ensures Get(SavedAtFault(b, changed, fault, mode), p)
         == if HasFile(b, p) && (fault.InCleanup? ==> p in fault.left) then Some(File(b[p].data, mode)) else None
  {
    UnlinkedIsNotReplaced(changed, fault);
    hide Distinct;
  }

  lemma RolledBackAt(b: Tree, w: Tree, changed: seq<Path>, fault: Fault, mode: int, p: Path)
    requires Replaceable(b, w, changed)
    ensures Get(RolledBack(b, changed, fault, mode), p)
         == if p in changed[..ReplacedCount(|changed|, fault)]
            then (if HasFile(b, p) && (fault.InCleanup? ==> p in fault.left) then Some(File(b[p].data, mode)) else None)
            else if p in Unlinked(changed, fault) then None else Get(b, p)
  {
    UnlinkedIsNotReplaced(changed, fault);
    assert p in changed[..ReplacedCount(|changed|, fault)] ==> p in changed;
    hide Distinct;
  }

  lemma UnlinkedIsNotReplaced(changed: seq<Path>, fault: Fault)
    requires Distinct(changed)
    ensures forall p :: p in Unlinked(changed, fault) ==> p !in changed[..ReplacedCount(|changed|, fault)]
    ensures fault.InCleanup? ==> changed[..ReplacedCount(|changed|, fault)] == changed
  {
  }

  /** The state at each exit of the attempt. */
  lemma StruckIs(b: Tree, w: Tree, changed: seq<Path>, mode: int, fault: Fault, before: seq<Phase>)
    requires Replaceable(b, w, changed)
    ensures var struck := Struck(w, changed, mode, fault);
            var early := fault.AtSealed? || changed == [] || fault.AtPrepared? || (fault.InStaging? && fault.index < |changed|);
            var striking := (fault.InBackup? || fault.AfterUnlink? || fault.AtReplace?) && fault.index < |changed|;
      && (early ==> struck == (if fault.AtSealed? then AtSealed else if changed == [] then NoFault else fault)
                    && ReplacedCount(|changed|, struck) == 0 && changed[..0] == [] && Unlinked(changed, struck) == {}
                    && SavedAtFault(b, changed, struck, mode) == map[] && AllFiles(w, []) && Patched(b, w, [], mode) - {} == b)
      && (fault.AtSealed? || changed == [] || (fault.InStaging? && fault.index < |changed| && !fault.AtPrepared?) ==>
            before + AttemptTrace(|changed|, struck) == before + [Sealed])
      && (!fault.AtSealed? && changed != [] && fault.AtPrepared? ==>
            before + AttemptTrace(|changed|, struck) == before + [Sealed] + [SyncPrepared])
      && (!early && striking ==> struck == fault)
      && (!early && !striking ==> struck == (if !ModesMatch(w, changed, mode) || fault.Mismatch? then Mismatch
                                             else if fault.AtVerify? || fault.InCleanup? then fault else NoFault)
                                  && ReplacedCount(|changed|, struck) == |changed| && Unlinked(changed, struck) == {})
      && (!early ==> var n := ReplacedCount(|changed|, struck);
            && AllFiles(w, changed[..n])
            && before + AttemptTrace(|changed|, struck)
                 == before + [Sealed] + [SyncPrepared] + Repeat(Replace, n)
                    + (if struck.NoFault? || struck.AtVerify? || struck.InCleanup? then [Verify] else [])
            && SavedAtFault(b, changed, struck, mode)
                 == (var saved := Originals(b, changed[..n], mode) + Originals(b, UnlinkedList(changed, struck), mode);
                     if struck.InCleanup? then map p | p in saved && p in struck.left :: saved[p] else saved))
  {
    assert changed[..0] == [];
    assert Originals(b, [], mode) == map[];
    hide Originals, ModesMatch, Replaceable;
  }
}
