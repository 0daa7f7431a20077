/** What the v1 classification guarantees: completeness, soundness, and an exact account of every removed path. */
module ChangeTheorems {
  import opened Options
  import opened Paths
  import opened Trees
  import opened Changes

  ghost predicate Classified(b: Tree, c: Tree, changed: set<Path>, highRisk: set<HighRiskChange>) {
    && changed == OrdinaryChanges(ManifestOf(b), ManifestOf(c))
    && forall x :: x in highRisk <==> IsHighRisk(ManifestOf(b), ManifestOf(c), x)
  }

  ghost predicate IsAddedDirectory(b: Tree, c: Tree, p: Path) {
    p !in b && p in c && c[p].Directory?
  }

  /** The affected paths, without going through the change records. */
  lemma AffectedPathsAre(b: Tree, c: Tree, changed: set<Path>, highRisk: set<HighRiskChange>, p: Path)
    requires Classified(b, c, changed, highRisk)
    ensures p in AffectedPaths(changed, highRisk)
       <==> var mb, mc := ManifestOf(b), ManifestOf(c);
            || IsEdited(mb, mc, p) || IsAdded(mb, mc, p) || IsRetyped(mb, mc, p) || IsRemoded(mb, mc, p)
            || IsRenameSource(mb, mc, p) || p in Outermost(Deleted(mb, mc))
  {
    var mb, mc := ManifestOf(b), ManifestOf(c);
    if IsRetyped(mb, mc, p) {
      assert TypeChangeAt(mb, mc, p) in highRisk;
    }
    if IsRemoded(mb, mc, p) {
      assert PermissionChangeAt(mb, mc, p) in highRisk;
    }
    if IsRenameSource(mb, mc, p) {
      var to :| to in mc && IsRename(mb, mc, p, to);
      assert RenameBetween(mb, mc, p, to) in highRisk;
    }
    if IsRenameTarget(mb, mc, p) {
      var from :| from in mb && IsRename(mb, mc, from, p);
      assert RenameBetween(mb, mc, from, p) in highRisk;
    }
    if p in Outermost(Deleted(mb, mc)) {
      assert DeleteAt(mb, p) in highRisk;
    }
  }

  /** Every difference, except an added directory, lies at or under a reported path. */
  lemma DiffIsComplete(b: Tree, c: Tree, changed: set<Path>, highRisk: set<HighRiskChange>, p: Path) returns (r: Path)
    requires Classified(b, c, changed, highRisk)
    requires Get(b, p) != Get(c, p) && !IsAddedDirectory(b, c, p)
    ensures r in AffectedPaths(changed, highRisk) && r <= p
  {
    var mb, mc := ManifestOf(b), ManifestOf(c);
    r := p;
    if p in b && p !in c && !IsRenameSource(mb, mc, p) {
      if IsRemoved(mb, mc, p) {
        r := OutermostCovers(Deleted(mb, mc), p);
      } else {
        r :| r in mb && IsRetyped(mb, mc, r) && r < p;
      }
    }
    AffectedPathsAre(b, c, changed, highRisk, r);
  }

  /** Nothing is reported that did not change, and an added directory is never reported. */
  lemma DiffIsSound(b: Tree, c: Tree, changed: set<Path>, highRisk: set<HighRiskChange>, p: Path)
    requires Classified(b, c, changed, highRisk) && p in AffectedPaths(changed, highRisk)
    ensures Get(b, p) != Get(c, p) && !IsAddedDirectory(b, c, p)
  {
    AffectedPathsAre(b, c, changed, highRisk, p);
  }

  /** Without a high-risk change every baseline path survives with its kind and mode, and directories unchanged. */
  lemma OrdinaryChangesKeepEveryPath(b: Tree, c: Tree, changed: set<Path>, highRisk: set<HighRiskChange>, p: Path)
    requires Classified(b, c, changed, highRisk) && highRisk == {}
    requires p in b
    ensures p in c && c[p].File? == b[p].File? && c[p].mode == b[p].mode
    ensures b[p].Directory? ==> c[p] == b[p]
    ensures p !in changed ==> c[p] == b[p]
  {
    if p !in c {
      RemovedPathsAreAccountedFor(b, c, changed, highRisk, p);
    } else {
      var mb, mc := ManifestOf(b), ManifestOf(c);
      assert IsRetyped(mb, mc, p) ==> TypeChangeAt(mb, mc, p) in highRisk;
      assert IsRemoded(mb, mc, p) ==> PermissionChangeAt(mb, mc, p) in highRisk;
    }
  }

  /** Renames are a partial injection between removed and added files with equal content and mode. */
  lemma RenamesAreAPartialInjection(b: Tree, c: Tree, changed: set<Path>, highRisk: set<HighRiskChange>,
                                    x: HighRiskChange, y: HighRiskChange)
    requires Classified(b, c, changed, highRisk)
    requires x in highRisk && y in highRisk && x.action == y.action == Rename
    ensures x.fromPath.Some? && HasFile(b, x.fromPath.value) && x.fromPath.value !in c
    ensures HasFile(c, x.path) && x.path !in b && b[x.fromPath.value] == c[x.path]
    ensures x.path == y.path || x.fromPath == y.fromPath ==> x == y
    ensures x.path !in changed && x.fromPath.value !in changed
    ensures forall z :: z in highRisk && z != x ==> z.path != x.path && z.path != x.fromPath.value
  {
  }

  /** A removed path is a rename source, under exactly one delete, or strictly under one retyped path. */
  lemma RemovedPathsAreAccountedFor(b: Tree, c: Tree, changed: set<Path>, highRisk: set<HighRiskChange>, p: Path)
    requires Classified(b, c, changed, highRisk)
    requires p in b && p !in c
    ensures || (exists x :: x in highRisk && x.action == Rename && x.fromPath == Some(p))
            || (exists x :: x in highRisk && x.action == Delete && x.path <= p)
            || (exists x :: x in highRisk && x.action == TypeChange && x.path < p)
    ensures forall x, y :: x in highRisk && y in highRisk && x.action == y.action == Delete && x.path <= p && y.path <= p ==> x == y
  {
    var mb, mc := ManifestOf(b), ManifestOf(c);
    if IsRenameSource(mb, mc, p) {
      var to :| to in mc && IsRename(mb, mc, p, to);
      assert RenameBetween(mb, mc, p, to) in highRisk;
    } else if IsRemoved(mb, mc, p) {
      var r := OutermostCovers(Deleted(mb, mc), p);
      assert DeleteAt(mb, r) in highRisk;
    } else {
      var r :| r in mb && IsRetyped(mb, mc, r) && r < p;
      assert TypeChangeAt(mb, mc, r) in highRisk;
    }
    forall x, y | x in highRisk && y in highRisk && x.action == y.action == Delete && x.path <= p && y.path <= p
      ensures x == y
    {
      OutermostRootIsUnique(Deleted(mb, mc), x.path, y.path, p);
    }
  }

  // ---- What a record says ----

  /** The end of a change in the baseline: where a rename comes from, otherwise the path itself. */
  function OriginOf(x: HighRiskChange): Path {
    if x.fromPath.Some? then x.fromPath.value else x.path
  }

  /** Every record the user is shown names what happened, and carries the digests and modes of both ends. */
  lemma RecordsSayWhatChanged(b: Tree, c: Tree, changed: set<Path>, highRisk: set<HighRiskChange>, x: HighRiskChange)
    requires Classified(b, c, changed, highRisk) && x in highRisk
    ensures x.action == TypeChange <==> x.path in b && x.path in c && b[x.path].File? != c[x.path].File?
    ensures x.action == PermissionChange
       <==> x.path in b && x.path in c && b[x.path].File? == c[x.path].File? && b[x.path].mode != c[x.path].mode
    ensures x.action == Rename <==> x.fromPath.Some?
    ensures x.action == Delete <==> x.path !in c && x.fromPath.None?
    ensures OriginOf(x) in b
    ensures x.beforeSha256 == EntryOf(b[OriginOf(x)]).sha256 && x.beforeMode == b[OriginOf(x)].mode
    ensures x.afterSha256 == if x.path in c then EntryOf(c[x.path]).sha256 else NoDigest
    ensures x.afterMode == if x.path in c then Some(c[x.path].mode) else None
  {
    var mb, mc := ManifestOf(b), ManifestOf(c);
    assert forall p :: p in b ==> mb[p] == EntryOf(b[p]);
    assert forall p :: p in c ==> mc[p] == EntryOf(c[p]);
    assert forall p :: p in Outermost(Deleted(mb, mc)) ==> p in b && p !in c;
    hide Outermost, Deleted;
  }

  /** And every change of the kind has its record: one per path, and nothing twice. */
  lemma EveryRiskIsRecorded(b: Tree, c: Tree, changed: set<Path>, highRisk: set<HighRiskChange>, p: Path)
    requires Classified(b, c, changed, highRisk) && p in b && p in c
    ensures b[p].File? != c[p].File? ==> exists x :: x in highRisk && x.path == p && x.action == TypeChange
    ensures b[p].File? == c[p].File? && b[p].mode != c[p].mode ==>
      exists x :: x in highRisk && x.path == p && x.action == PermissionChange
    ensures forall x, y :: x in highRisk && y in highRisk && x.path == y.path == p ==> x == y
  {
    var mb, mc := ManifestOf(b), ManifestOf(c);
    if IsRetyped(mb, mc, p) {
      assert TypeChangeAt(mb, mc, p) in highRisk;
    }
    if IsRemoded(mb, mc, p) {
      assert PermissionChangeAt(mb, mc, p) in highRisk;
    }
    assert p !in Outermost(Deleted(mb, mc));
    hide Outermost, Deleted;
  }

  /** A file that is gone, other than by its directory having become a file. */
  ghost predicate IsGone(b: Tree, c: Tree, p: Path) {
    HasFile(b, p) && p !in c && forall r :: r in b && r in c && r < p ==> b[r].File? == c[r].File?
  }

  ghost predicate IsNew(b: Tree, c: Tree, p: Path) {
    HasFile(c, p) && p !in b
  }

  /** A rename is reported exactly between the only gone file and the only new file of one content and mode. */
  lemma RenameIsRecordedExactly(b: Tree, c: Tree, changed: set<Path>, highRisk: set<HighRiskChange>, from: Path, to: Path)
    requires Classified(b, c, changed, highRisk)
    ensures (exists x :: x in highRisk && x.action == Rename && x.fromPath == Some(from) && x.path == to)
       <==> && IsGone(b, c, from) && IsNew(b, c, to) && b[from] == c[to]
            && (forall f :: IsGone(b, c, f) && b[f] == c[to] ==> f == from)
            && (forall t :: IsNew(b, c, t) && c[t] == b[from] ==> t == to)
  {
    var mb, mc := ManifestOf(b), ManifestOf(c);
    forall p ensures IsRemovedFile(mb, mc, p) <==> IsGone(b, c, p) ensures IsAdded(mb, mc, p) <==> IsNew(b, c, p) {
      GoneAndNew(b, c, p);
    }
    assert forall f, t :: HasFile(b, f) && HasFile(c, t) ==> (FingerprintOf(mb[f]) == FingerprintOf(mc[t]) <==> b[f] == c[t]);
    assert forall f :: IsGone(b, c, f) ==> HasFile(b, f);
    assert forall t :: IsNew(b, c, t) ==> HasFile(c, t);
    hide IsRemovedFile, IsAdded, IsGone, IsNew, Outermost, Deleted;
    if IsRename(mb, mc, from, to) {
      assert RenameBetween(mb, mc, from, to) in highRisk;
    }
  }

  lemma GoneAndNew(b: Tree, c: Tree, p: Path)
    ensures IsRemovedFile(ManifestOf(b), ManifestOf(c), p) <==> IsGone(b, c, p)
    ensures IsAdded(ManifestOf(b), ManifestOf(c), p) <==> IsNew(b, c, p)
  {
    var mb, mc := ManifestOf(b), ManifestOf(c);
    assert forall r :: r in b && r in c ==> (IsRetyped(mb, mc, r) <==> b[r].File? != c[r].File?);
    assert forall r :: IsRetyped(mb, mc, r) ==> r in b && r in c;
    hide IsRetyped;
    if IsGone(b, c, p) {
      forall root | root in mb && IsRetyped(mb, mc, root) ensures !(root < p) {
      }
    }
    if IsRemovedFile(mb, mc, p) {
      forall r | r in b && r in c && r < p ensures b[r].File? == c[r].File? {
        assert r in mb;
      }
    }
  }

  /** The ordinary changes: edited files, and new files that no rename brought. */
  lemma OrdinaryChangesAre(b: Tree, c: Tree, changed: set<Path>, highRisk: set<HighRiskChange>, p: Path)
    requires Classified(b, c, changed, highRisk)
    ensures p in changed
       <==> || (HasFile(b, p) && HasFile(c, p) && b[p].mode == c[p].mode && b[p].data != c[p].data)
            || (IsNew(b, c, p) && forall x :: x in highRisk && x.action == Rename ==> x.path != p)
  {
    var mb, mc := ManifestOf(b), ManifestOf(c);
    assert p in b ==> mb[p] == EntryOf(b[p]);
    assert p in c ==> mc[p] == EntryOf(c[p]);
    if IsRenameTarget(mb, mc, p) {
      var from :| from in mb && IsRename(mb, mc, from, p);
      assert RenameBetween(mb, mc, from, p) in highRisk;
    }
    hide IsRename, Outermost, Deleted;
  }
}
