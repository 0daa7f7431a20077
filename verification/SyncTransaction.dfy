/**
 * The v1 synchronization transaction: stage the peer's version of every affected root, move the author's
 * version to a backup, move the staged version in, compare, and on any error clear the roots and move the
 * backups back.
 */
module SyncTransaction {
  import opened Options
  import opened Paths
  import opened Trees
  import opened Overlays

  /**
   * Where an error strikes. `InStaging(n)` and `InBackup(n)`: after n roots of that loop. `InReplace(n, depth)`:
   * after n roots, with the parents of the next one created down to a depth. `InCleanup(left)`: while the
   * transaction directory is removed, with only the backup paths in `left` still on disk.
   */
  datatype Fault =
    | NoFault
    | InStaging(done: nat)
    | InBackup(done: nat)
    | AfterBackup
    | InReplace(done: nat, depth: nat)
    | AfterReplace
    | InCleanup(left: set<Path>)

  function Clamp(n: nat, limit: nat): nat {
    if n <= limit then n else limit
  }

  /** The peer's changes are covered: every difference but an added directory lies under a root. */
  ghost predicate CoversDiff(b: Tree, w: Tree, roots: seq<Path>) {
    forall p :: Get(b, p) != Get(w, p) && !(p !in b && HasDirectory(w, p)) ==> UnderAny(roots, p)
  }

  ghost predicate Synchronizable(b: Tree, w: Tree, roots: seq<Path>) {
    WellFormed(b) && WellFormed(w) && Roots(roots) && CoversDiff(b, w, roots)
  }

  /** The entries a scoped manifest lists; its hash is injective in them. */
  function ScopeOf(t: Tree, allowed: seq<Path>): Manifest {
    map p | p in t && UnderAny(allowed, p) :: EntryOf(t[p])
  }

  /** The backup paths that survive when only `left` was not yet removed. */
  function Surviving(t: Tree, left: set<Path>): Tree {
    map p | p in t && p in left && Parents(p) <= left :: t[p]
  }

  /** `mkdir -p` of the parent of `p` never meets a file on the way. */
  ghost predicate Unblocked(t: Tree, p: Path) {
    forall q :: q in Parents(p) && q in t ==> t[q].Directory?
  }

  /** How far each loop came when the fault struck. */
  function BackedUp(roots: seq<Path>, fault: Fault): seq<Path> {
    match fault
    case InStaging(_) => []
    case InBackup(n) => roots[..Clamp(n, |roots|)]
    case _ => roots
  }

  function ReplacedRoots(roots: seq<Path>, fault: Fault): seq<Path> {
    match fault
    case InStaging(_) => []
    case InBackup(_) => []
    case AfterBackup => []
    case InReplace(n, _) => roots[..Clamp(n, |roots|)]
    case _ => roots
  }

  /**
   * The ancestor of root `n` whose parents a recursive `mkdir` has made when it stops after `depth` components; a
   * root the peer does not have is skipped.
   */
  function NextParent(w: Tree, roots: seq<Path>, n: nat, depth: nat): seq<Path> {
    if n < |roots| && roots[n] in w then [roots[n][..Clamp(depth, |roots[n]|)]] else []
  }

  /** The paths whose parents exist in the target when the fault strikes. */
  function ParentsMadeFor(w: Tree, roots: seq<Path>, fault: Fault): seq<Path> {
    match fault
    case InReplace(n, depth) => ReplacedRoots(roots, fault) + NextParent(w, roots, Clamp(n, |roots|), depth)
    case _ => ReplacedRoots(roots, fault)
  }

  /** The target when the fault strikes. */
  ghost function TargetAtFault(b: Tree, w: Tree, roots: seq<Path>, fault: Fault, dirMode: int): Tree {
    CreatedParents(b, w, ParentsMadeFor(w, roots, fault), dirMode)
      + Kept(b, BackedUp(roots, fault)) + Installed(w, ReplacedRoots(roots, fault))
  }

  /** The backup directory when the fault strikes. */
  ghost function BackupAtFault(b: Tree, roots: seq<Path>, fault: Fault, dirMode: int): Tree {
    var backup := Overlay(map[], b, roots, BackedUp(roots, fault), dirMode);
    if fault.InCleanup? then Surviving(backup, fault.left) else backup
  }

  /** Whether an author's path under the roots is moved back by the rollback. */
  ghost predicate Recovered(roots: seq<Path>, fault: Fault, p: Path) {
    UnderAny(BackedUp(roots, fault), p) && (fault.InCleanup? ==> p in fault.left && Parents(p) <= fault.left)
  }

  /** The author's tree after a rollback. */
  ghost function RolledBack(b: Tree, w: Tree, roots: seq<Path>, fault: Fault, dirMode: int): Tree {
    CreatedParents(b, w, ParentsMadeFor(w, roots, fault), dirMode)
      + map p | p in b && (UnderAny(roots, p) ==> Recovered(roots, fault, p)) :: b[p]
  }

  /** The fault that ends the attempt: a mismatch of the scoped manifests strikes before the cleanup can. */
  ghost function Struck(b: Tree, w: Tree, roots: seq<Path>, allowed: seq<Path>, fault: Fault, dirMode: int): Fault {
    if (fault.NoFault? || fault.InCleanup?) && ScopeOf(Overlay(b, w, roots, roots, dirMode), allowed) != ScopeOf(w, allowed)
    then AfterReplace else fault
  }

  class Transaction {
    const workspace: Tree
    const dirMode: int
    var target: Tree
    var staging: Tree
    var backup: Tree
    var backups: seq<Path>

    constructor (target: Tree, workspace: Tree, dirMode: int)
      ensures this.target == target && this.workspace == workspace && this.dirMode == dirMode
    {
      this.target, this.workspace, this.dirMode := target, workspace, dirMode;
      staging, backup, backups := map[], map[], [];
    }

    /** Copies one entry of the peer's workspace, directories recursively. */
    method CopyEntry(path: Path) returns (copied: bool)
      requires WellFormed(workspace) && path != []
      requires forall q :: q in staging ==> !(path <= q)
      modifies this`staging
      ensures copied == (path in workspace)
      ensures !copied ==> staging == old(staging)
      ensures copied ==> staging == MissingParents(old(staging), path, dirMode) + old(staging) + Subtree(workspace, path)
      decreases Subtree(workspace, path).Keys
    {
      if path !in workspace {
        return false;
      }
      ghost var base := MissingParents(staging, path, dirMode) + staging;
      staging := MissingParents(staging, path, dirMode) + staging;
      if workspace[path].Directory? {
        staging := staging[path := Directory(dirMode)];
        ghost var start := staging;
        var children := set q | q in workspace && |q| == |path| + 1 && path <= q;
        CopiedChildrenStart(workspace, path);
        while children != {}
          invariant forall q :: q in children ==> q in workspace && |q| == |path| + 1 && path <= q
          invariant staging == start + CopiedChildren(workspace, path, children)
        {
          var child :| child in children;
          CopyChildStep(workspace, path, children, child, start, dirMode);
          var _ := CopyEntry(child);
          children := children - {child};
        }
        staging := staging[path := workspace[path]];
        CopiedChildrenEnd(workspace, path, base, dirMode);
      } else {
        staging := staging[path := workspace[path]];
        FileSubtree(workspace, path);
      }
      return true;
    }

    /** Copies the first `n` roots of the peer's workspace into the staging directory. */
    method StageRoots(roots: seq<Path>, n: nat)
      requires WellFormed(workspace) && Roots(roots) && n <= |roots| && staging == map[]
      modifies this`staging
      ensures staging == Overlay(map[], workspace, roots, roots[..n], dirMode)
    {
      hide *;
      NothingDoneYet(workspace, workspace, roots, dirMode);
      for i := 0 to n
        invariant staging == Overlay(map[], workspace, roots, roots[..i], dirMode)
      {
        StageStep(workspace, roots, i, dirMode);
        var _ := CopyEntry(roots[i]);
      }
    }

    /** Moves the author's version of the first `n` roots into the backup directory. */
    method BackUpRoots(roots: seq<Path>, n: nat)
      requires WellFormed(target) && Roots(roots) && n <= |roots| && backup == map[] && backups == []
      modifies this`target, this`backup, this`backups
      ensures target == Kept(old(target), roots[..n])
      ensures backup == Overlay(map[], old(target), roots, roots[..n], dirMode)
      ensures backups == Present(old(target), roots[..n])
    {
      hide *;
      ghost var b := target;
      NothingDoneYet(b, map[], roots, dirMode);
      for i := 0 to n
        invariant target == Kept(b, roots[..i])
        invariant backup == Overlay(map[], b, roots, roots[..i], dirMode)
        invariant backups == Present(b, roots[..i])
      {
        var path := roots[i];
        BackUpStep(b, roots, i, dirMode);
        if path in target {
          backup := MissingParents(backup, path, dirMode) + backup + Subtree(target, path);
          target := Without(target, path);
          backups := backups + [path];
        }
      }
    }

    /** `mkdir -p` of the parent of a target path; the system refuses it when a file is in the way. */
    method MakeTargetParents(path: Path)
      requires Unblocked(target, path)
      modifies this`target
      ensures target == MissingParents(old(target), path, dirMode) + old(target)
    {
      target := MissingParents(target, path, dirMode) + target;
    }

    /** `rename` from the staging directory; the destination is free and its parent is a directory. */
    method InstallStaged(path: Path)
      requires path in staging && (forall q :: q in target ==> !(path <= q))
      requires forall q :: q in Parents(path) ==> HasDirectory(target, q)
      modifies this`target, this`staging
      ensures target == old(target) + Subtree(old(staging), path)
      ensures staging == Without(old(staging), path)
    {
      target := target + Subtree(staging, path);
      staging := Without(staging, path);
    }

    /** One step of the replacement loop: a root that was never staged is skipped. */
    method ReplaceRoot(roots: seq<Path>, i: nat, ghost b: Tree)
      requires Synchronizable(b, workspace, roots) && i < |roots|
      requires target == Overlay(b, workspace, roots, roots[..i], dirMode) && StagedFrom(staging, workspace, roots, i)
      modifies this`target, this`staging
      ensures target == Overlay(b, workspace, roots, roots[..i + 1], dirMode) && StagedFrom(staging, workspace, roots, i + 1)
    {
      hide *;
      ReplaceStep(b, workspace, roots, i, staging, dirMode);
      if roots[i] in staging {
        MakeTargetParents(roots[i]);
        InstallStaged(roots[i]);
      }
    }

    /**
     * Moves the staged version of the first `n` roots to the target; the parents of the next one are created down
     * to `depth` before the loop stops.
     */
    method ReplaceRoots(roots: seq<Path>, n: nat, depth: nat, ghost b: Tree)
      requires Synchronizable(b, workspace, roots) && n <= |roots|
      requires target == Kept(b, roots) && staging == Overlay(map[], workspace, roots, roots, dirMode)
      modifies this`target, this`staging
      ensures target == CreatedParents(b, workspace, roots[..n] + NextParent(workspace, roots, n, depth), dirMode)
                          + Kept(b, roots) + Installed(workspace, roots[..n])
    {
      hide *;
      StagedSubtrees(b, workspace, roots, dirMode);
      NothingDoneYet(b, workspace, roots, dirMode);
      for i := 0 to n
        invariant target == Overlay(b, workspace, roots, roots[..i], dirMode) && StagedFrom(staging, workspace, roots, i)
      {
        ReplaceRoot(roots, i, b);
      }
      OverlayParts(b, workspace, roots, roots[..n], dirMode);
      NoNextParent(workspace, roots, n, depth);
      if n < |roots| {
        MakeNextParents(roots, n, depth, b);
      }
    }

    method MakeNextParents(roots: seq<Path>, n: nat, depth: nat, ghost b: Tree)
      requires Synchronizable(b, workspace, roots) && n < |roots|
      requires target == Overlay(b, workspace, roots, roots[..n], dirMode) && StagedFrom(staging, workspace, roots, n)
      modifies this`target
      ensures target == CreatedParents(b, workspace, roots[..n] + NextParent(workspace, roots, n, depth), dirMode)
                          + Kept(b, roots) + Installed(workspace, roots[..n])
    {
      hide *;
      ReplaceStep(b, workspace, roots, n, staging, dirMode);
      NextParents(b, workspace, roots, n, depth, dirMode);
      if roots[n] in staging {
        AncestorIsUnblocked(target, roots[n], Clamp(depth, |roots[n]|));
        MakeTargetParents(roots[n][..Clamp(depth, |roots[n]|)]);
      }
    }

    /** Clears every root, then moves each backup back; errors of single steps are swallowed. */
    method Rollback(roots: seq<Path>)
      requires WellFormed(backup) && Roots(roots) && BackupsOf(roots, backups)
      requires forall i :: 0 <= i < |backups| ==> Unblocked(Kept(target, roots), backups[i])
      modifies this`target, this`backup
      ensures target == Overlay(Kept(old(target), roots), old(backup), roots, backups, dirMode)
    {
      hide *;
      ghost var t, saved := target, backup;
      var moved := backups;
      RollbackStart(t, saved, roots, moved, dirMode);
      for i := |roots| downto 0
        invariant target == Kept(t, roots[i..]) && backup == saved
      {
        ClearBack(t, roots, i);
        target := Without(target, roots[i]);
      }
      for i := |moved| downto 0
        invariant target == Overlay(Kept(t, roots), saved, roots, moved[i..], dirMode)
        invariant StagedRest(backup, saved, moved, i)
      {
        KeptTwice(t, roots);
        RestoreStep(Kept(t, roots), saved, roots, moved, i, backup, dirMode);
        var path := moved[i];
        if path in backup {
          MakeTargetParents(path);
          target := target + Subtree(backup, path);
          backup := Without(backup, path);
        }
      }
    }

    /** The body of the transaction up to the error, if there is one. */
    method Attempt(roots: seq<Path>, allowed: seq<Path>, fault: Fault) returns (ok: bool)
      requires Synchronizable(target, workspace, roots)
      requires staging == map[] && backup == map[] && backups == []
      modifies this
      ensures var struck := Struck(old(target), workspace, roots, allowed, fault, dirMode);
        && (ok <==> struck.NoFault?)
        && target == TargetAtFault(old(target), workspace, roots, struck, dirMode)
        && backup == BackupAtFault(old(target), roots, struck, dirMode)
        && backups == Present(old(target), BackedUp(roots, struck))
    {
      hide *;
      ghost var b := target;
      WholeList(b, workspace, roots);
      StruckIs(b, workspace, roots, allowed, fault, dirMode);
      FaultPoint(b, workspace, roots, fault, dirMode);
      FaultPoint(b, workspace, roots, AfterReplace, dirMode);
      var all := |roots|;
      StageRoots(roots, if fault.InStaging? then Clamp(fault.done, all) else all);
      if fault.InStaging? {
        return false;
      }
      BackUpRoots(roots, if fault.InBackup? then Clamp(fault.done, all) else all);
      if fault.InBackup? || fault.AfterBackup? {
        return false;
      }
      ReplaceRoots(roots, if fault.InReplace? then Clamp(fault.done, all) else all, if fault.InReplace? then fault.depth else 0, b);
      if fault.InReplace? || fault.AfterReplace? {
        return false;
      }
      if ScopeOf(workspace, allowed) != ScopeOf(target, allowed) {
        return false;
      }
      if fault.InCleanup? {
        backup := Surviving(backup, fault.left);
        return false;
      }
      return true;
    }

    /** Applies the peer's changes at `roots`, all of them or, up to what `RolledBack` says, none. */
    method Apply(roots: seq<Path>, allowed: seq<Path>, fault: Fault) returns (ok: bool)
      requires Synchronizable(target, workspace, roots)
      modifies this
      ensures var struck := Struck(old(target), workspace, roots, allowed, fault, dirMode);
        && (ok <==> roots == [] || struck.NoFault?)
        && (ok ==> target == Overlay(old(target), workspace, roots, roots, dirMode))
        && (!ok ==> target == RolledBack(old(target), workspace, roots, struck, dirMode))
    {
      if roots == [] {
        return true;
      }
      ghost var b := target;
      ghost var struck := Struck(b, workspace, roots, allowed, fault, dirMode);
      staging, backup, backups := map[], map[], [];
      ok := Attempt(roots, allowed, fault);
      if ok {
        AttemptCompletes(b, workspace, roots, dirMode);
      } else {
        RollbackIsPossible(b, workspace, roots, struck, dirMode);
        Rollback(roots);
        RollbackResult(b, workspace, roots, struck, dirMode);
      }
      staging, backup := map[], map[];
    }
  }

  function ChildToward(path: Path, q: Path): Path
    requires path < q
  {
    q[..|path| + 1]
  }

  /** The descendants of `path` that sit under a child already copied. */
  ghost function CopiedChildren(w: Tree, path: Path, todo: set<Path>): Tree {
    map q | q in w && path < q && ChildToward(path, q) !in todo :: w[q]
  }

  lemma ChildParents(path: Path, child: Path)
    requires path != [] && path < child && |child| == |path| + 1
    ensures Parents(child) == Parents(path) + {path}
  {
    assert path == child[..|path|];
    forall q | q in Parents(child) ensures q in Parents(path) + {path} {
      assert |q| < |path| ==> q == path[..|q|];
    }
    forall q | q in Parents(path) ensures q in Parents(child) {
      assert q == child[..|q|];
    }
  }

  lemma CopiedChildrenStart(w: Tree, path: Path)
    requires WellFormed(w) && path != []
    ensures CopiedChildren(w, path, set q | q in w && |q| == |path| + 1 && path <= q) == map[]
  {
    forall q | q in w && path < q ensures ChildToward(path, q) in w && path <= ChildToward(path, q) {
      var child := ChildToward(path, q);
      if child != q {
        ParentsAreWithinTree(w, child, q);
      }
    }
  }

  lemma CopiedChildrenEnd(w: Tree, path: Path, base: Tree, dirMode: int)
    requires path in w
    ensures (base[path := Directory(dirMode)] + CopiedChildren(w, path, {}))[path := w[path]] == base + Subtree(w, path)
  {
    var l, r := (base[path := Directory(dirMode)] + CopiedChildren(w, path, {}))[path := w[path]], base + Subtree(w, path);
    forall q ensures Get(l, q) == Get(r, q) {
      assert path <= q <==> q == path || path < q;
    }
    TreesAreEqual(l, r);
  }

  lemma FileSubtree(w: Tree, path: Path)
    requires WellFormed(w) && path != [] && HasFile(w, path)
    ensures Subtree(w, path) == map[path := w[path]]
  {
    forall q | q in w && path <= q && q != path ensures false {
      ParentsAreWithinTree(w, path, q);
    }
  }

  lemma CopyChildStep(w: Tree, path: Path, todo: set<Path>, child: Path, start: Tree, dirMode: int)
    requires path != [] && child in todo && child in w && path <= child && |child| == |path| + 1
    requires path in w && path in start && Parents(path) <= start.Keys
    requires forall q :: q in start ==> !(path < q)
    ensures var before := start + CopiedChildren(w, path, todo);
      && (forall q :: q in before ==> !(child <= q))
      && MissingParents(before, child, dirMode) + before + Subtree(w, child) == start + CopiedChildren(w, path, todo - {child})
    ensures Subtree(w, child).Keys < Subtree(w, path).Keys
  {
    var before := start + CopiedChildren(w, path, todo);
    ChildParents(path, child);
    assert MissingParents(before, child, dirMode) == map[];
    forall q ensures child <= q <==> path < q && ChildToward(path, q) == child {
      assert child <= q ==> q[..|path| + 1] == child;
    }
    var l, r := MissingParents(before, child, dirMode) + before + Subtree(w, child), start + CopiedChildren(w, path, todo - {child});
    forall q ensures Get(l, q) == Get(r, q) {}
    TreesAreEqual(l, r);
    assert path in Subtree(w, path) && path !in Subtree(w, child);
  }

  lemma NextRoot(roots: seq<Path>, i: nat)
    requires i < |roots|
    ensures Elements(roots[..i + 1]) == Elements(roots[..i]) + {roots[i]}
    ensures forall x :: x in roots[..i] ==> x in roots
  {
    assert roots[..i + 1] == roots[..i] + [roots[i]];
  }

  lemma NotEarlier(roots: seq<Path>, i: nat)
    requires Antichain(roots) && i < |roots|
    ensures roots[i] !in roots[..i]
  {
    forall k | 0 <= k < i ensures roots[k] != roots[i] {
      assert roots[k] <= roots[i] ==> k == i;
    }
  }

  lemma NothingDoneYet(b: Tree, w: Tree, roots: seq<Path>, dirMode: int)
    ensures Kept(b, roots[..0]) == b && Present(b, roots[..0]) == []
    ensures Overlay(map[], b, roots, roots[..0], dirMode) == map[]
    ensures Overlay(b, w, roots, roots[..0], dirMode) == Kept(b, roots)
  {
  }

  lemma OverlayParts(b: Tree, w: Tree, roots: seq<Path>, done: seq<Path>, dirMode: int)
    ensures Overlay(b, w, roots, done, dirMode) == CreatedParents(b, w, done, dirMode) + Kept(b, roots) + Installed(w, done)
  {
  }

  /** The roots that exist in `b`, in order: what the backup loop moves away. */
  function Present(b: Tree, roots: seq<Path>): (r: seq<Path>)
    ensures forall x :: x in r <==> x in roots && x in b
  {
    if roots == [] then [] else
      var init, last := roots[..|roots| - 1], roots[|roots| - 1];
      assert roots == init + [last];
      Present(b, init) + if last in b then [last] else []
  }

  ghost predicate BackupsOf(roots: seq<Path>, backups: seq<Path>) {
    Antichain(backups) && forall r :: r in backups ==> r in roots
  }

  lemma {:induction false} PresentIsAntichain(b: Tree, roots: seq<Path>)
    requires Antichain(roots)
    ensures BackupsOf(roots, Present(b, roots))
  {
    if roots != [] {
      var init, last := roots[..|roots| - 1], roots[|roots| - 1];
      PresentIsAntichain(b, init);
      forall r | r in Present(b, init) ensures !(r <= last) && !(last <= r) {
        var k :| 0 <= k < |init| && init[k] == r;
        assert roots[k] == r;
      }
      AntichainAppend(Present(b, init), last);
    }
  }

  /** The roots from `i` on still wait in the staging directory as the peer left them. */
  ghost predicate StagedFrom(staging: Tree, w: Tree, roots: seq<Path>, i: nat) {
    forall k :: i <= k < |roots| ==> Subtree(staging, roots[k]) == Subtree(w, roots[k])
  }

  lemma StageStep(w: Tree, roots: seq<Path>, i: nat, dirMode: int)
    requires WellFormed(w) && Roots(roots) && i < |roots|
    ensures var r, s := roots[i], Overlay(map[], w, roots, roots[..i], dirMode);
      && r != [] && (forall q :: q in s ==> !(r <= q))
      && Overlay(map[], w, roots, roots[..i + 1], dirMode)
           == (if r in w then MissingParents(s, r, dirMode) + s + Subtree(w, r) else s)
  {
    NextRoot(roots, i);
    NotEarlier(roots, i);
    InstallStep(map[], w, roots, roots[..i], roots[i], roots[..i + 1], dirMode);
  }

  lemma BackUpStep(b: Tree, roots: seq<Path>, i: nat, dirMode: int)
    requires WellFormed(b) && Roots(roots) && i < |roots|
    ensures var r, t, s := roots[i], Kept(b, roots[..i]), Overlay(map[], b, roots, roots[..i], dirMode);
      && (r in t <==> r in b)
      && Kept(b, roots[..i + 1]) == (if r in b then Without(t, r) else t)
      && Overlay(map[], b, roots, roots[..i + 1], dirMode)
           == (if r in b then MissingParents(s, r, dirMode) + s + Subtree(t, r) else s)
      && Present(b, roots[..i + 1]) == Present(b, roots[..i]) + (if r in b then [r] else [])
  {
    var r := roots[i];
    NextRoot(roots, i);
    InstallStep(map[], b, roots, roots[..i], r, roots[..i + 1], dirMode);
    ClearStep(b, roots[..i], r, roots[..i + 1]);
    UntouchedRoot(b, roots, i);
    assert roots[..i + 1][..i] == roots[..i];
    if r !in b {
      forall p | p in b ensures !(r <= p) {
        if r <= p && r != p { ParentsAreWithinTree(b, r, p); }
      }
      assert Without(Kept(b, roots[..i]), r) == Kept(b, roots[..i]);
    }
  }

  /** Clearing the roots before this one leaves its subtree alone. */
  lemma UntouchedRoot(b: Tree, roots: seq<Path>, i: nat)
    requires Roots(roots) && i < |roots|
    ensures Subtree(Kept(b, roots[..i]), roots[i]) == Subtree(b, roots[i])
    ensures roots[i] in Kept(b, roots[..i]) <==> roots[i] in b
  {
    forall p | p in b && roots[i] <= p ensures !UnderAny(roots[..i], p) {
      if r :| r in roots[..i] && r <= p {
        var k :| 0 <= k < i && roots[k] == r;
        RootOfPathIsUnique(roots, k, i, p);
      }
    }
  }

  lemma PresentInSubtree(t: Tree, u: Tree, path: Path)
    requires Subtree(t, path) == Subtree(u, path)
    ensures path in t <==> path in u
  {
    assert path in t <==> path in Subtree(t, path);
    assert path in u <==> path in Subtree(u, path);
  }

  lemma StagedSubtrees(b: Tree, w: Tree, roots: seq<Path>, dirMode: int)
    requires Synchronizable(b, w, roots)
    ensures StagedFrom(Overlay(map[], w, roots, roots, dirMode), w, roots, 0)
  {
    var staged := Overlay(map[], w, roots, roots, dirMode);
    forall k | 0 <= k < |roots| ensures Subtree(staged, roots[k]) == Subtree(w, roots[k]) {
      hide *;
      forall p ensures Get(Subtree(staged, roots[k]), p) == Get(Subtree(w, roots[k]), p) {
        StagedAt(w, roots, roots[k], dirMode, p);
      }
      TreesAreEqual(Subtree(staged, roots[k]), Subtree(w, roots[k]));
    }
  }

  lemma StagedAt(w: Tree, roots: seq<Path>, r: Path, dirMode: int, p: Path)
    requires Roots(roots) && r in roots
    ensures Get(Subtree(Overlay(map[], w, roots, roots, dirMode), r), p) == Get(Subtree(w, r), p)
  {
    OverlayIsPointwise(map[], w, roots, roots, dirMode, p);
    if r <= p {
      assert UnderAny(roots, p);
      if p in ParentsOfPresent(w, roots) {
        var r' :| r' in roots && r' in w && p in Parents(r');
        ParentsAreNotUnderRoots(roots, r', p);
      }
    }
    hide Overlay, Antichain;
  }

  lemma RemainingSubtrees(staging: Tree, w: Tree, roots: seq<Path>, i: nat)
    requires Roots(roots) && i < |roots| && StagedFrom(staging, w, roots, i)
    ensures StagedFrom(Without(staging, roots[i]), w, roots, i + 1)
  {
    forall k | i < k < |roots| ensures Subtree(Without(staging, roots[i]), roots[k]) == Subtree(staging, roots[k]) {
      forall p | p in staging && roots[k] <= p ensures !(roots[i] <= p) {
        if roots[i] <= p { RootOfPathIsUnique(roots, i, k, p); }
      }
    }
  }

  /** An author's file never stands where a directory of the peer has to be created. */
  lemma RootIsUnblocked(b: Tree, w: Tree, roots: seq<Path>, i: nat, dirMode: int)
    requires Synchronizable(b, w, roots) && i < |roots| && roots[i] in w
    ensures Unblocked(Overlay(b, w, roots, roots[..i], dirMode), roots[i])
  {
    NextRoot(roots, i);
    var o := Overlay(b, w, roots, roots[..i], dirMode);
    forall q | q in Parents(roots[i]) && q in o ensures o[q].Directory? {
      ParentsAreNotUnderRoots(roots, roots[i], q);
      OverlayIsPointwise(b, w, roots, roots[..i], dirMode, q);
      assert !UnderAny(roots[..i], q);
      assert w[q].Directory?;
      assert q in b ==> Get(b, q) == Get(w, q);
    }
  }

  lemma ReplaceStep(b: Tree, w: Tree, roots: seq<Path>, i: nat, staging: Tree, dirMode: int)
    requires Synchronizable(b, w, roots) && i < |roots| && StagedFrom(staging, w, roots, i)
    ensures var r, t, u := roots[i], Overlay(b, w, roots, roots[..i], dirMode), Overlay(b, w, roots, roots[..i + 1], dirMode);
      && (r in staging <==> r in w)
      && (r in w ==>
           && Unblocked(t, r)
           && (forall q :: q in MissingParents(t, r, dirMode) + t ==> !(r <= q))
           && (forall q :: q in Parents(r) ==> HasDirectory(MissingParents(t, r, dirMode) + t, q))
           && u == MissingParents(t, r, dirMode) + t + Subtree(staging, r)
           && StagedFrom(Without(staging, r), w, roots, i + 1))
      && (r !in w ==> u == t && StagedFrom(staging, w, roots, i + 1))
  {
    var r, t := roots[i], Overlay(b, w, roots, roots[..i], dirMode);
    NextRoot(roots, i);
    InstallStep(b, w, roots, roots[..i], r, roots[..i + 1], dirMode);
    PresentInSubtree(staging, w, r);
    NotEarlier(roots, i);
    if r in w {
      RootIsUnblocked(b, w, roots, i, dirMode);
      RemainingSubtrees(staging, w, roots, i);
    }
  }

  lemma NoNextParent(w: Tree, roots: seq<Path>, n: nat, depth: nat)
    requires n <= |roots|
    ensures n == |roots| ==> roots[..n] + NextParent(w, roots, n, depth) == roots[..n]
  {
  }

  lemma NextParents(b: Tree, w: Tree, roots: seq<Path>, n: nat, depth: nat, dirMode: int)
    requires Synchronizable(b, w, roots) && n < |roots|
    ensures Clamp(depth, |roots[n]|) <= |roots[n]|
    ensures CreatedParents(b, w, roots[..n] + NextParent(w, roots, n, depth), dirMode) + Kept(b, roots) + Installed(w, roots[..n])
         == (if roots[n] in w
             then MissingParents(Overlay(b, w, roots, roots[..n], dirMode), roots[n][..Clamp(depth, |roots[n]|)], dirMode) else map[])
            + Overlay(b, w, roots, roots[..n], dirMode)
  {
    hide *;
    NextParentIs(w, roots, n, depth);
    if roots[n] in w {
      var next := roots[n][..Clamp(depth, |roots[n]|)];
      EarlierParents(b, w, roots, n, next);
      NextParentsMade(b, w, roots, n, next, dirMode);
    } else {
      OverlayParts(b, w, roots, roots[..n], dirMode);
    }
  }

  lemma NextParentIs(w: Tree, roots: seq<Path>, n: nat, depth: nat)
    requires n < |roots|
    ensures Clamp(depth, |roots[n]|) <= |roots[n]|
    ensures roots[n] in w ==> NextParent(w, roots, n, depth) == [roots[n][..Clamp(depth, |roots[n]|)]]
    ensures roots[n] !in w ==> roots[..n] + NextParent(w, roots, n, depth) == roots[..n]
  {
  }

  lemma NextParentsMade(b: Tree, w: Tree, roots: seq<Path>, n: nat, next: Path, dirMode: int)
    requires Synchronizable(b, w, roots) && n < |roots| && Parents(next) <= Parents(roots[n])
    requires ParentsOfPresent(w, roots[..n] + [next]) == ParentsOfPresent(w, roots[..n]) + Parents(next)
    ensures CreatedParents(b, w, roots[..n] + [next], dirMode) + Kept(b, roots) + Installed(w, roots[..n])
         == MissingParents(Overlay(b, w, roots, roots[..n], dirMode), next, dirMode) + Overlay(b, w, roots, roots[..n], dirMode)
  {
    var o := Overlay(b, w, roots, roots[..n], dirMode);
    var l := CreatedParents(b, w, roots[..n] + [next], dirMode) + Kept(b, roots) + Installed(w, roots[..n]);
    var r := MissingParents(o, next, dirMode) + o;
    forall p ensures Get(l, p) == Get(r, p) {
      OverlayIsPointwise(b, w, roots, roots[..n], dirMode, p);
      NextParentsAt(b, w, roots, n, next, dirMode, p);
      hide Overlay, OverlayAt, CreatedParents, Kept, Installed;
    }
    hide *;
    TreesAreEqual(l, r);
  }

  lemma AncestorParents(next: Path, root: Path)
    requires next <= root
    ensures Parents(next) <= Parents(root)
  {
    forall q | q in Parents(next) ensures q in Parents(root) {
      assert q == next[..|q|] == root[..|q|];
    }
  }

  lemma AncestorIsUnblocked(t: Tree, root: Path, k: nat)
    requires k <= |root| && Unblocked(t, root)
    ensures Unblocked(t, root[..k])
  {
    AncestorParents(root[..k], root);
    hide Parents;
  }

  lemma EarlierParents(b: Tree, w: Tree, roots: seq<Path>, n: nat, next: Path)
    requires Synchronizable(b, w, roots) && n < |roots| && next <= roots[n]
    ensures Parents(next) <= Parents(roots[n])
    ensures roots[n] in w ==> ParentsOfPresent(w, roots[..n] + [next]) == ParentsOfPresent(w, roots[..n]) + Parents(next)
  {
    AncestorParents(next, roots[n]);
    if roots[n] in w && next != [] && next != roots[n] {
      ParentsAreWithinTree(w, next, roots[n]);
    }
  }

  lemma NextParentsAt(b: Tree, w: Tree, roots: seq<Path>, n: nat, next: Path, dirMode: int, p: Path)
    requires Roots(roots) && n < |roots| && Parents(next) <= Parents(roots[n])
    requires ParentsOfPresent(w, roots[..n] + [next]) == ParentsOfPresent(w, roots[..n]) + Parents(next)
    ensures Get(CreatedParents(b, w, roots[..n] + [next], dirMode) + Kept(b, roots) + Installed(w, roots[..n]), p)
         == if p in Parents(next) && OverlayAt(b, w, roots, roots[..n], dirMode, p).None?
            then Some(Directory(dirMode))
            else OverlayAt(b, w, roots, roots[..n], dirMode, p)
  {
    hide Antichain;
    if p in Parents(next) {
      ParentsAreNotUnderRoots(roots, roots[n], p);
    }
    hide UnderAny, ParentsOfPresent, Parents;
  }

  lemma RollbackStart(t: Tree, saved: Tree, roots: seq<Path>, backups: seq<Path>, dirMode: int)
    ensures Kept(t, roots[|roots|..]) == t && roots[0..] == roots && backups[0..] == backups
    ensures Overlay(Kept(t, roots), saved, roots, backups[|backups|..], dirMode) == Kept(t, roots[0..])
    ensures StagedRest(saved, saved, backups, |backups|)
  {
  }

  lemma ClearBack(t: Tree, roots: seq<Path>, i: nat)
    requires i < |roots|
    ensures Kept(t, roots[i..]) == Without(Kept(t, roots[i + 1..]), roots[i])
  {
    assert roots[i..] == [roots[i]] + roots[i + 1..];
    ClearStep(t, roots[i + 1..], roots[i], roots[i..]);
  }

  /** Backups not restored yet are intact. */
  ghost predicate StagedRest(backup: Tree, saved: Tree, backups: seq<Path>, i: nat) {
    forall k :: 0 <= k < i && k < |backups| ==> Subtree(backup, backups[k]) == Subtree(saved, backups[k])
  }

  lemma RestoreStep(t: Tree, saved: Tree, roots: seq<Path>, backups: seq<Path>, i: nat, backup: Tree, dirMode: int)
    requires WellFormed(saved) && Roots(roots) && BackupsOf(roots, backups)
    requires i < |backups| && StagedRest(backup, saved, backups, i + 1) && Unblocked(Kept(t, roots), backups[i])
    ensures var r, o := backups[i], Overlay(t, saved, roots, backups[i + 1..], dirMode);
      && (r in backup <==> r in saved) && Unblocked(o, r)
      && Overlay(t, saved, roots, backups[i..], dirMode)
           == (if r in backup then MissingParents(o, r, dirMode) + o + Subtree(backup, r) else o)
      && StagedRest(if r in backup then Without(backup, r) else backup, saved, backups, i)
  {
    var r := backups[i];
    assert backups[i..] == [r] + backups[i + 1..];
    assert Elements(backups[i..]) == Elements(backups[i + 1..]) + {r};
    hide Overlay, Unblocked, Kept, WellFormed;
    InstallStep(t, saved, roots, backups[i + 1..], r, backups[i..], dirMode);
    PresentInSubtree(backup, saved, r);
    RestoreIsUnblocked(t, saved, roots, backups, i, dirMode);
    RestStays(backup, saved, backups, i);
    hide StagedRest;
  }

  lemma RestStays(backup: Tree, saved: Tree, backups: seq<Path>, i: nat)
    requires i < |backups| && Antichain(backups) && StagedRest(backup, saved, backups, i + 1)
    ensures Subtree(backup, backups[i]) == Subtree(saved, backups[i])
    ensures StagedRest(backup, saved, backups, i) && StagedRest(Without(backup, backups[i]), saved, backups, i)
  {
    forall k | 0 <= k < i ensures Subtree(Without(backup, backups[i]), backups[k]) == Subtree(backup, backups[k]) {
      forall p | p in backup && backups[k] <= p ensures !(backups[i] <= p) {
        if backups[i] <= p { RootOfPathIsUnique(backups, i, k, p); }
      }
    }
  }

  lemma KeptTwice(t: Tree, roots: seq<Path>)
    ensures Kept(Kept(t, roots), roots) == Kept(t, roots)
  {
  }

  lemma RestoreIsUnblocked(t: Tree, saved: Tree, roots: seq<Path>, backups: seq<Path>, i: nat, dirMode: int)
    requires Roots(roots) && BackupsOf(roots, backups) && i < |backups| && Unblocked(Kept(t, roots), backups[i])
    ensures Unblocked(Overlay(t, saved, roots, backups[i + 1..], dirMode), backups[i])
  {
    var o := Overlay(t, saved, roots, backups[i + 1..], dirMode);
    forall q | q in Parents(backups[i]) && q in o ensures o[q].Directory? {
      ParentsAreNotUnderRoots(roots, backups[i], q);
      ParentsAreNotUnderRoots(backups, backups[i], q);
      OverlayIsPointwise(t, saved, roots, backups[i + 1..], dirMode, q);
      assert !UnderAny(backups[i + 1..], q);
    }
  }

  lemma WholeList(b: Tree, w: Tree, roots: seq<Path>)
    requires Synchronizable(b, w, roots)
    ensures WellFormed(b) && WellFormed(w) && Roots(roots)
    ensures roots[..|roots|] == roots && roots + NextParent(w, roots, |roots|, 0) == roots
    ensures forall n: nat :: Clamp(n, |roots|) <= |roots|
  {
  }

  lemma StruckIs(b: Tree, w: Tree, roots: seq<Path>, allowed: seq<Path>, fault: Fault, dirMode: int)
    ensures !fault.NoFault? && !fault.InCleanup? ==> Struck(b, w, roots, allowed, fault, dirMode) == fault
    ensures fault.NoFault? || fault.InCleanup? ==>
      Struck(b, w, roots, allowed, fault, dirMode)
        == (if ScopeOf(w, allowed) != ScopeOf(CreatedParents(b, w, roots, dirMode) + Kept(b, roots) + Installed(w, roots), allowed)
            then AfterReplace else fault)
  {
  }

  /** The state at each kind of fault, phase by phase. */
  lemma FaultPoint(b: Tree, w: Tree, roots: seq<Path>, fault: Fault, dirMode: int)
    ensures fault.InStaging? ==> TargetAtFault(b, w, roots, fault, dirMode) == b
    ensures fault.InBackup? ==> TargetAtFault(b, w, roots, fault, dirMode) == Kept(b, roots[..Clamp(fault.done, |roots|)])
    ensures fault.AfterBackup? ==> TargetAtFault(b, w, roots, fault, dirMode) == Kept(b, roots)
    ensures fault.InReplace? ==>
      var c := Clamp(fault.done, |roots|);
      TargetAtFault(b, w, roots, fault, dirMode)
        == CreatedParents(b, w, roots[..c] + NextParent(w, roots, c, fault.depth), dirMode)
             + Kept(b, roots) + Installed(w, roots[..c])
    ensures fault.NoFault? || fault.AfterReplace? || fault.InCleanup? ==>
      TargetAtFault(b, w, roots, fault, dirMode) == CreatedParents(b, w, roots, dirMode) + Kept(b, roots) + Installed(w, roots)
    ensures BackedUp(roots, fault)
         == if fault.InStaging? then [] else if fault.InBackup? then roots[..Clamp(fault.done, |roots|)] else roots
    ensures BackupAtFault(b, roots, fault, dirMode)
         == if fault.InStaging? then map[]
            else if fault.InCleanup? then Surviving(Overlay(map[], b, roots, roots, dirMode), fault.left)
            else Overlay(map[], b, roots, BackedUp(roots, fault), dirMode)
    ensures Present(b, []) == []
  {
    hide Kept, Installed, CreatedParents, Overlay, Surviving, Present;
    NoRoots(b, w, roots, dirMode);
  }

  lemma NoRoots(b: Tree, w: Tree, roots: seq<Path>, dirMode: int)
    ensures Kept(b, []) == b && Installed(w, []) == map[] && CreatedParents(b, w, [], dirMode) == map[] && Present(b, []) == []
    ensures Overlay(map[], b, roots, [], dirMode) == map[]
  {
  }

  lemma AttemptCompletes(b: Tree, w: Tree, roots: seq<Path>, dirMode: int)
    ensures TargetAtFault(b, w, roots, NoFault, dirMode) == Overlay(b, w, roots, roots, dirMode)
  {
  }

  /** Overlaying keeps a tree well formed when no file blocks a parent. */
  lemma OverlayIsWellFormed(t: Tree, w: Tree, roots: seq<Path>, done: seq<Path>, dirMode: int)
    requires WellFormed(t) && WellFormed(w) && Roots(roots) && (forall r :: r in done ==> r in roots)
    requires forall r :: r in done && r in w ==> Unblocked(t, r)
    ensures WellFormed(Overlay(t, w, roots, done, dirMode))
  {
    var o := Overlay(t, w, roots, done, dirMode);
    forall p | p in o ensures p != [] && forall q :: q in Parents(p) ==> q in o && o[q].Directory? {
      hide *;
      GetIs(o, p);
      OverlayIsPointwise(t, w, roots, done, dirMode, p);
      forall q | q in Parents(p) ensures q in o && o[q].Directory? {
        GetIs(o, q);
        OverlayIsPointwise(t, w, roots, done, dirMode, q);
        OverlayParentIsDirectory(t, w, roots, done, dirMode, p, q);
      }
      OverlayHasNoRoot(t, w, roots, done, dirMode);
    }
    hide Overlay, Parents;
  }

  lemma OverlayHasNoRoot(t: Tree, w: Tree, roots: seq<Path>, done: seq<Path>, dirMode: int)
    requires WellFormed(t) && WellFormed(w)
    ensures [] !in Overlay(t, w, roots, done, dirMode)
  {
  }

  lemma GetIs(t: Tree, p: Path)
    ensures Get(t, p).Some? <==> p in t
    ensures p in t ==> Get(t, p) == Some(t[p])
  {
  }

  lemma OverlayParentIsDirectory(t: Tree, w: Tree, roots: seq<Path>, done: seq<Path>, dirMode: int, p: Path, q: Path)
    requires WellFormed(t) && WellFormed(w) && Roots(roots) && (forall r :: r in done ==> r in roots)
    requires forall r :: r in done && r in w ==> Unblocked(t, r)
    requires OverlayAt(t, w, roots, done, dirMode, p).Some? && q in Parents(p)
    ensures OverlayAt(t, w, roots, done, dirMode, q).Some? && OverlayAt(t, w, roots, done, dirMode, q).value.Directory?
  {
    hide Antichain;
    assert q == p[..|q|];
    if p in w && UnderAny(done, p) {
      var r :| r in done && r <= p;
      AncestorsAreComparable(r, q, p);
      if r <= q {
        assert UnderAny(done, q);
      } else {
        if r != p { ParentsAreWithinTree(w, r, p); }
        ParentIsPresent(t, w, roots, done, r, q, dirMode);
      }
    } else if p in t && !UnderAny(roots, p) {
      NotUnderAbove(roots, q, p);
      NotUnderFewer(roots, done, q);
    } else {
      var r :| r in done && r in w && p in Parents(r);
      assert q == r[..|q|];
      ParentIsPresent(t, w, roots, done, r, q, dirMode);
    }
  }

  lemma NotUnderAbove(roots: seq<Path>, q: Path, p: Path)
    requires q <= p && !UnderAny(roots, p)
    ensures !UnderAny(roots, q)
  {
    forall r | r in roots ensures !(r <= q) {
      assert r <= q ==> r <= p;
    }
  }

  lemma ParentIsPresent(t: Tree, w: Tree, roots: seq<Path>, done: seq<Path>, r: Path, q: Path, dirMode: int)
    requires Roots(roots) && (forall x :: x in done ==> x in roots)
    requires r in done && r in w && Unblocked(t, r) && q != [] && q < r
    ensures OverlayAt(t, w, roots, done, dirMode, q).Some? && OverlayAt(t, w, roots, done, dirMode, q).value.Directory?
  {
    assert q == r[..|q|];
    assert q in Parents(r);
    ParentsAreNotUnderRoots(roots, r, q);
  }

  lemma NotUnderFewer(roots: seq<Path>, fewer: seq<Path>, p: Path)
    requires (forall r :: r in fewer ==> r in roots) && !UnderAny(roots, p)
    ensures !UnderAny(fewer, p)
  {
  }

  lemma BackedUpAreRoots(w: Tree, roots: seq<Path>, fault: Fault)
    requires Roots(roots)
    ensures Antichain(BackedUp(roots, fault)) && forall r :: r in BackedUp(roots, fault) ==> r in roots
    ensures forall r :: r in ReplacedRoots(roots, fault) ==> r in roots
    ensures forall r :: r in ParentsMadeFor(w, roots, fault) ==> r in roots || exists root :: root in roots && root in w && r <= root
  {
  }

  lemma RollbackIsPossible(b: Tree, w: Tree, roots: seq<Path>, fault: Fault, dirMode: int)
    requires Synchronizable(b, w, roots)
    ensures WellFormed(BackupAtFault(b, roots, fault, dirMode))
    ensures BackupsOf(roots, Present(b, BackedUp(roots, fault)))
    ensures forall i | 0 <= i < |Present(b, BackedUp(roots, fault))|
            :: Unblocked(Kept(TargetAtFault(b, w, roots, fault, dirMode), roots), Present(b, BackedUp(roots, fault))[i])
  {
    var done := BackedUp(roots, fault);
    BackedUpAreRoots(w, roots, fault);
    OverlayIsWellFormed(map[], b, roots, done, dirMode);
    SurvivingIsWellFormed(Overlay(map[], b, roots, done, dirMode), if fault.InCleanup? then fault.left else {});
    PresentIsAntichain(b, done);
    forall i | 0 <= i < |Present(b, done)|
      ensures Unblocked(Kept(TargetAtFault(b, w, roots, fault, dirMode), roots), Present(b, done)[i])
    {
      var r := Present(b, done)[i];
      assert r in Present(b, done);
      forall q | q in Parents(r) ensures Get(Kept(TargetAtFault(b, w, roots, fault, dirMode), roots), q) == Get(b, q) {
        ParentsAreNotUnderRoots(roots, r, q);
        KeptAtFault(b, w, roots, fault, dirMode, q);
      }
    }
  }

  lemma SurvivingIsWellFormed(t: Tree, left: set<Path>)
    requires WellFormed(t)
    ensures WellFormed(Surviving(t, left))
  {
    forall p, q | p in Surviving(t, left) && q in Parents(p) ensures q in Surviving(t, left) {
      forall q' | q' in Parents(q) ensures q' in left {
        assert q' == p[..|q'|];
        assert q' in Parents(p);
      }
    }
  }

  /** What clearing the roots leaves of the target at the fault. */
  lemma KeptAtFault(b: Tree, w: Tree, roots: seq<Path>, fault: Fault, dirMode: int, p: Path)
    requires Roots(roots)
    ensures Get(Kept(TargetAtFault(b, w, roots, fault, dirMode), roots), p)
         == if UnderAny(roots, p) then None
            else if p in b then Some(b[p])
            else Get(CreatedParents(b, w, ParentsMadeFor(w, roots, fault), dirMode), p)
  {
    BackedUpAreRoots(w, roots, fault);
    if !UnderAny(roots, p) {
      NotUnderFewer(roots, BackedUp(roots, fault), p);
      NotUnderFewer(roots, ReplacedRoots(roots, fault), p);
    }
    hide UnderAny, Antichain;
  }

  lemma BackupAt(b: Tree, w: Tree, roots: seq<Path>, fault: Fault, dirMode: int, p: Path)
    requires Roots(roots) && UnderAny(roots, p)
    ensures p in BackupAtFault(b, roots, fault, dirMode) <==> p in b && Recovered(roots, fault, p)
    ensures p in BackupAtFault(b, roots, fault, dirMode) ==> BackupAtFault(b, roots, fault, dirMode)[p] == b[p]
  {
    var done := BackedUp(roots, fault);
    BackedUpAreRoots(w, roots, fault);
    OverlayIsPointwise(map[], b, roots, done, dirMode, p);
    if p in ParentsOfPresent(b, done) {
      var r :| r in done && r in b && p in Parents(r);
      ParentsAreNotUnderRoots(roots, r, p);
    }
  }

  lemma RollbackResult(b: Tree, w: Tree, roots: seq<Path>, fault: Fault, dirMode: int)
    requires Synchronizable(b, w, roots)
    ensures Overlay(Kept(TargetAtFault(b, w, roots, fault, dirMode), roots), BackupAtFault(b, roots, fault, dirMode), roots,
                    Present(b, BackedUp(roots, fault)), dirMode)
         == RolledBack(b, w, roots, fault, dirMode)
  {
    var t, saved := Kept(TargetAtFault(b, w, roots, fault, dirMode), roots), BackupAtFault(b, roots, fault, dirMode);
    var backups := Present(b, BackedUp(roots, fault));
    forall p ensures Get(Overlay(t, saved, roots, backups, dirMode), p) == Get(RolledBack(b, w, roots, fault, dirMode), p) {
      hide *;
      OverlayIsPointwise(t, saved, roots, backups, dirMode, p);
      RollbackResultAt(b, w, roots, fault, dirMode, p);
    }
    TreesAreEqual(Overlay(t, saved, roots, backups, dirMode), RolledBack(b, w, roots, fault, dirMode));
  }

  lemma RollbackResultAt(b: Tree, w: Tree, roots: seq<Path>, fault: Fault, dirMode: int, p: Path)
    requires Synchronizable(b, w, roots)
    ensures OverlayAt(Kept(TargetAtFault(b, w, roots, fault, dirMode), roots), BackupAtFault(b, roots, fault, dirMode), roots,
                      Present(b, BackedUp(roots, fault)), dirMode, p)
         == Get(RolledBack(b, w, roots, fault, dirMode), p)
  {
    hide TargetAtFault, BackupAtFault, Kept, Present, Antichain;
    var backups := Present(b, BackedUp(roots, fault));
    KeptAtFault(b, w, roots, fault, dirMode, p);
    if UnderAny(roots, p) {
      NotAParent(b, w, roots, fault, p);
      BackupAt(b, w, roots, fault, dirMode, p);
      if p in b { BackupRootsCover(b, w, roots, fault, p); }
    } else {
      ParentsWereThere(b, w, roots, fault, p);
      hide UnderAny;
    }
  }

  lemma NotAParent(b: Tree, w: Tree, roots: seq<Path>, fault: Fault, p: Path)
    requires Roots(roots) && UnderAny(roots, p)
    ensures forall r :: r in Present(b, BackedUp(roots, fault)) || r in ParentsMadeFor(w, roots, fault) ==> p !in Parents(r)
  {
    BackedUpAreRoots(w, roots, fault);
    forall r | r in roots ensures p !in Parents(r) {
      if p in Parents(r) { ParentsAreNotUnderRoots(roots, r, p); }
    }
    forall r, root | root in roots && r <= root ensures p !in Parents(r) {
      AncestorParents(r, root);
    }
  }

  lemma ParentsWereThere(b: Tree, w: Tree, roots: seq<Path>, fault: Fault, p: Path)
    requires WellFormed(b) && Roots(roots) && !UnderAny(roots, p)
    ensures !UnderAny(Present(b, BackedUp(roots, fault)), p)
    ensures forall r :: r in Present(b, BackedUp(roots, fault)) && p in Parents(r) ==> p in b
  {
    BackedUpAreRoots(w, roots, fault);
    NotUnderFewer(roots, Present(b, BackedUp(roots, fault)), p);
  }

  lemma BackupRootsCover(b: Tree, w: Tree, roots: seq<Path>, fault: Fault, p: Path)
    requires WellFormed(b) && Roots(roots) && p in b
    ensures UnderAny(Present(b, BackedUp(roots, fault)), p) <==> UnderAny(BackedUp(roots, fault), p)
  {
    BackedUpAreRoots(w, roots, fault);
    if UnderAny(BackedUp(roots, fault), p) {
      var r :| r in BackedUp(roots, fault) && r <= p;
      if r != p { ParentsAreWithinTree(b, r, p); }
      assert r in Present(b, BackedUp(roots, fault));
    }
  }
}
