/** What the v1 transaction guarantees: the peer's files on success, the author's files after a rollback. */
module SyncTheorems {
  import opened Options
  import opened Paths
  import opened Trees
  import opened Overlays
  import opened Changes
  import opened ChangeTheorems
  import opened SyncTransaction

  /** The roots collapsed from a classification cover everything the transaction has to touch. */
  lemma ClassifiedRootsAreSynchronizable(b: Tree, w: Tree, changed: set<Path>, highRisk: set<HighRiskChange>, roots: seq<Path>)
    requires WellFormed(b) && WellFormed(w) && Classified(b, w, changed, highRisk)
    requires Elements(roots) == Outermost(AffectedPaths(changed, highRisk)) && Antichain(roots)
    ensures Synchronizable(b, w, roots)
  {
    forall p | Get(b, p) != Get(w, p) && !(p !in b && HasDirectory(w, p)) ensures UnderAny(roots, p) {
      var q := DiffIsComplete(b, w, changed, highRisk, p);
      var r := OutermostCovers(AffectedPaths(changed, highRisk), q);
      assert r in Elements(roots);
      assert r <= p;
    }
    if [] in roots {
      assert [] in Elements(roots);
      DiffIsSound(b, w, changed, highRisk, []);
    }
  }

  /** An added directory that the replacement neither moves in nor creates on the way to a root. */
  ghost predicate IsLeftBehind(b: Tree, w: Tree, roots: seq<Path>, p: Path) {
    IsAddedDirectory(b, w, p) && !UnderAny(roots, p) && p !in ParentsOfPresent(w, roots)
  }

  /** Path by path: the applied tree is the peer's, except for added directories outside the roots. */
  lemma AppliedTreeAt(b: Tree, w: Tree, roots: seq<Path>, dirMode: int, p: Path)
    requires Synchronizable(b, w, roots)
    ensures var t := Overlay(b, w, roots, roots, dirMode);
      if !IsAddedDirectory(b, w, p) || UnderAny(roots, p) then Get(t, p) == Get(w, p)
      else if IsLeftBehind(b, w, roots, p) then p !in t
      else Get(t, p) == Some(Directory(dirMode))
  {
    OverlayIsPointwise(b, w, roots, roots, dirMode, p);
    if !UnderAny(roots, p) && p in ParentsOfPresent(w, roots) {
      var r :| r in roots && r in w && p in Parents(r);
      assert w[p].Directory?;
    }
  }

  /** A directory left behind holds no file of the peer, so no file is ever missed. */
  lemma DirectoriesLeftBehindAreEmpty(b: Tree, w: Tree, roots: seq<Path>, d: Path, f: Path)
    requires Synchronizable(b, w, roots)
    requires IsLeftBehind(b, w, roots, d) && d <= f
    ensures !HasFile(w, f)
  {
    if HasFile(w, f) {
      assert w[d].Directory? && d != [];
      ProperAncestorIsParent(d, f);
      assert f !in b;
      assert Get(b, f) != Get(w, f);
      var r :| r in roots && r <= f;
      AncestorsAreComparable(r, d, f);
      if r != f { ParentsAreWithinTree(w, r, f); }
      if d < r { ProperAncestorIsParent(d, r); }
    }
  }

  /** After a successful apply the author's tree has exactly the peer's files, at every path. */
  lemma AppliedTreeHasThePeersFiles(b: Tree, w: Tree, roots: seq<Path>, dirMode: int)
    requires Synchronizable(b, w, roots)
    ensures var t := Overlay(b, w, roots, roots, dirMode);
      && SameFiles(t, w)
      && WellFormed(t)
      && (forall p :: HasDirectory(t, p) ==> HasDirectory(w, p))
      && (forall p :: HasDirectory(w, p) && !HasDirectory(t, p) ==> IsLeftBehind(b, w, roots, p))
  {
    var t := Overlay(b, w, roots, roots, dirMode);
    forall p ensures (HasFile(t, p) <==> HasFile(w, p)) && (HasFile(t, p) ==> t[p] == w[p])
             ensures HasDirectory(t, p) ==> HasDirectory(w, p)
             ensures HasDirectory(w, p) && !HasDirectory(t, p) ==> IsLeftBehind(b, w, roots, p)
    {
      hide Overlay, Synchronizable, IsLeftBehind;
      AppliedTreeAt(b, w, roots, dirMode, p);
    }
    forall r | r in roots && r in w ensures Unblocked(b, r) {
      forall q | q in Parents(r) && q in b ensures b[q].Directory? {
        ParentsAreNotUnderRoots(roots, r, q);
        assert Get(b, q) == Get(w, q);
      }
    }
    OverlayIsWellFormed(b, w, roots, roots, dirMode);
  }

  /** What the caller can check before a fault-free apply: no added directory in scope is missed or gets another mode. */
  ghost predicate ScopeWillMatch(b: Tree, w: Tree, roots: seq<Path>, allowed: seq<Path>, dirMode: int) {
    forall d :: IsAddedDirectory(b, w, d) && UnderAny(allowed, d) && !UnderAny(roots, d)
      ==> d in ParentsOfPresent(w, roots) && w[d].mode == dirMode
  }

  /** The final comparison succeeds exactly when every added directory in scope is accounted for. */
  lemma ScopedManifestsMatchExactly(b: Tree, w: Tree, roots: seq<Path>, allowed: seq<Path>, dirMode: int)
    requires Synchronizable(b, w, roots)
    ensures ScopeOf(Overlay(b, w, roots, roots, dirMode), allowed) == ScopeOf(w, allowed)
       <==> ScopeWillMatch(b, w, roots, allowed, dirMode)
  {
    var t := Overlay(b, w, roots, roots, dirMode);
    ScopesAgree(t, w, allowed);
    if ScopeWillMatch(b, w, roots, allowed, dirMode) {
      forall p | UnderAny(allowed, p) ensures Get(t, p) == Get(w, p) {
        hide Overlay, Synchronizable, UnderAny, ParentsOfPresent;
        AppliedTreeAt(b, w, roots, dirMode, p);
      }
    }
    if forall p | UnderAny(allowed, p) :: Get(t, p) == Get(w, p) {
      forall d | IsAddedDirectory(b, w, d) && UnderAny(allowed, d) && !UnderAny(roots, d)
        ensures d in ParentsOfPresent(w, roots) && w[d].mode == dirMode
      {
        hide Overlay, Synchronizable, UnderAny, ParentsOfPresent;
        AppliedTreeAt(b, w, roots, dirMode, d);
      }
    }
    hide Overlay, Synchronizable, UnderAny, ParentsOfPresent;
  }

  lemma ScopesAgree(t: Tree, w: Tree, allowed: seq<Path>)
    ensures ScopeOf(t, allowed) == ScopeOf(w, allowed) <==> forall p | UnderAny(allowed, p) :: Get(t, p) == Get(w, p)
  {
    hide UnderAny;
    if ScopeOf(t, allowed) == ScopeOf(w, allowed) {
      forall p | UnderAny(allowed, p) ensures Get(t, p) == Get(w, p) {
        assert p in t <==> p in ScopeOf(t, allowed);
        assert p in w <==> p in ScopeOf(w, allowed);
        if p in t {
          assert EntryOf(t[p]) == ScopeOf(t, allowed)[p] == ScopeOf(w, allowed)[p] == EntryOf(w[p]);
        }
      }
    }
    if forall p | UnderAny(allowed, p) :: Get(t, p) == Get(w, p) {
      forall p ensures p in ScopeOf(t, allowed) <==> p in ScopeOf(w, allowed) {
        assert UnderAny(allowed, p) ==> Get(t, p) == Get(w, p);
      }
      forall p | p in ScopeOf(t, allowed) ensures ScopeOf(t, allowed)[p] == ScopeOf(w, allowed)[p] {
        assert Get(t, p) == Get(w, p);
      }
    }
  }

  /** The condition under which a fault costs the author no file; the first two cases are known when the loops stop. */
  ghost predicate LosesNoFile(b: Tree, roots: seq<Path>, fault: Fault) {
    match fault
    case InStaging(_) => forall p :: HasFile(b, p) ==> !UnderAny(roots, p)
    case InBackup(n) => forall p :: HasFile(b, p) && UnderAny(roots, p) ==> UnderAny(roots[..Clamp(n, |roots|)], p)
    case InCleanup(left) => forall p :: HasFile(b, p) && UnderAny(roots, p) ==> p in left && Parents(p) <= left
    case _ => true
  }

  /** A rollback restores every file of the author exactly when the fault is of the harmless kind. */
  lemma RollbackRestoresFilesExactly(b: Tree, w: Tree, roots: seq<Path>, fault: Fault, dirMode: int)
    requires Synchronizable(b, w, roots)
    ensures SameFiles(RolledBack(b, w, roots, fault, dirMode), b) <==> LosesNoFile(b, roots, fault)
  {
    var t := RolledBack(b, w, roots, fault, dirMode);
    forall p ensures HasFile(t, p) <==> HasFile(b, p) && (UnderAny(roots, p) ==> Recovered(roots, fault, p))
             ensures HasFile(t, p) ==> t[p] == b[p]
    {
    }
    hide RolledBack, Synchronizable, UnderAny;
    if LosesNoFile(b, roots, fault) {
      forall p | HasFile(b, p) && UnderAny(roots, p) ensures Recovered(roots, fault, p) {
      }
    }
    if SameFiles(t, b) {
      forall p | HasFile(b, p) && UnderAny(roots, p) ensures Recovered(roots, fault, p) {
        assert HasFile(t, p);
      }
      EmptyRootsCoverNothing();
    }
  }

  lemma EmptyRootsCoverNothing()
    ensures forall p :: !UnderAny([], p)
  {
  }

  /** From the end of the backup loop to the hash comparison, only created parent directories may stay behind. */
  lemma LateFaultsRestoreTheTree(b: Tree, w: Tree, roots: seq<Path>, fault: Fault, dirMode: int, p: Path)
    requires Synchronizable(b, w, roots)
    requires fault.AfterBackup? || fault.InReplace? || fault.AfterReplace?
    ensures var t := RolledBack(b, w, roots, fault, dirMode);
      && (p in b ==> Get(t, p) == Some(b[p]))
      && (p in t && p !in b ==> t[p] == Directory(dirMode) && IsAddedDirectory(b, w, p) && p in ParentsOfPresent(w, roots))
  {
    var t := RolledBack(b, w, roots, fault, dirMode);
    BackedUpAreRoots(w, roots, fault);
    if p in t && p !in b {
      MadeParentIsThePeers(b, w, roots, fault, p);
    }
    hide CreatedParents, ParentsMadeFor, ParentsOfPresent, Synchronizable;
  }

  lemma MadeParentIsThePeers(b: Tree, w: Tree, roots: seq<Path>, fault: Fault, p: Path)
    requires Synchronizable(b, w, roots) && p in ParentsOfPresent(w, ParentsMadeFor(w, roots, fault))
    ensures p in ParentsOfPresent(w, roots) && HasDirectory(w, p)
  {
    BackedUpAreRoots(w, roots, fault);
    hide ParentsMadeFor, UnderAny, CoversDiff, Antichain;
    var r :| r in ParentsMadeFor(w, roots, fault) && r in w && p in Parents(r);
    var root :| root in roots && root in w && r <= root;
    AncestorParents(r, root);
    hide Parents;
  }

  const BEFORE := File([1], 420)
  const AFTER := File([2], 420)

  /** Necessary, not just sufficient: faults that delete a file the peer merely edited. */
  lemma FaultsLoseAnEditedFile()
    ensures var b, w, roots := map[["a"] := BEFORE], map[["a"] := AFTER], [["a"]];
      && Synchronizable(b, w, roots)
      && (forall fault :: fault == InStaging(0) || fault == InBackup(0) || fault == InCleanup({}) ==>
            && Struck(b, w, roots, [["a"]], fault, 493) == fault && !LosesNoFile(b, roots, fault)
            && ["a"] !in RolledBack(b, w, roots, fault, 493))
  {
    var b: Tree, w: Tree, roots: seq<Path> := map[["a"] := BEFORE], map[["a"] := AFTER], [["a"]];
    assert Parents(["a"]) == {};
    assert roots[0] in roots;
    assert UnderAny(roots, ["a"]);
    EmptyRootsCoverNothing();
    assert roots[..0] == [] && HasFile(b, ["a"]);
    forall d ensures !IsAddedDirectory(b, w, d) {
    }
    ScopedManifestsMatchExactly(b, w, roots, [["a"]], 493);
  }

  /** Such a scope: next to an edited file the peer added an empty directory, and the sync fails without any fault. */
  lemma AddedEmptyDirectoryFailsTheComparison()
    ensures var b, w := map[["a"] := BEFORE], map[["a"] := AFTER, ["d"] := Directory(493)];
      var roots, allowed := [["a"]], [["a"], ["d"]];
      && Synchronizable(b, w, roots) && !ScopeWillMatch(b, w, roots, allowed, 493)
      && Struck(b, w, roots, allowed, NoFault, 493) == AfterReplace
  {
    var b: Tree, w: Tree := map[["a"] := BEFORE], map[["a"] := AFTER, ["d"] := Directory(493)];
    var roots: seq<Path>, allowed: seq<Path> := [["a"]], [["a"], ["d"]];
    assert Parents(["a"]) == {} && Parents(["d"]) == {};
    assert !(["a"] <= ["d"]) by { assert ["a"][0] != ["d"][0]; }
    assert forall r :: r in roots <==> r == ["a"];
    assert roots[0] in roots && roots[0] <= ["a"] && !(roots[0] <= ["d"]);
    assert UnderAny(roots, ["a"]);
    assert !UnderAny(roots, ["d"]);
    assert ["d"] !in ParentsOfPresent(w, roots);
    assert Synchronizable(b, w, roots);
    assert allowed[1] in allowed && UnderAny(allowed, ["d"]) && IsAddedDirectory(b, w, ["d"]);
    ScopedManifestsMatchExactly(b, w, roots, allowed, 493);
  }
}
