/**
 * The v1 change classifier: what a peer's workspace changed with respect to its baseline, and which of
 * those changes need the user's approval.
 */
module Changes {
  import opened Options
  import opened Paths
  import opened Trees

  datatype Action = TypeChange | PermissionChange | Rename | Delete

  /** The identifier of a change is an injective hash of the whole record. */
  datatype HighRiskChange = HighRiskChange(
    action: Action,
    path: Path,
    fromPath: Option<Path>,
    beforeSha256: Digest,
    afterSha256: Digest,
    beforeMode: int,
    afterMode: Option<int>)

  type Fingerprint = (Digest, int)

  function FingerprintOf(e: Entry): Fingerprint {
    (e.sha256, e.mode)
  }

  // ---- What a classification means ----

  predicate IsAdded(b: Manifest, c: Manifest, p: Path) {
    p in c && p !in b && c[p].kind == FileKind
  }

  predicate IsRetyped(b: Manifest, c: Manifest, p: Path) {
    p in c && p in b && b[p].kind != c[p].kind
  }

  predicate IsRemoded(b: Manifest, c: Manifest, p: Path) {
    p in c && p in b && b[p].kind == c[p].kind && b[p].mode != c[p].mode
  }

  predicate IsEdited(b: Manifest, c: Manifest, p: Path) {
    && p in c && p in b && c[p].kind == b[p].kind == FileKind
    && b[p].mode == c[p].mode && b[p].sha256 != c[p].sha256
  }

  /** Missing, and not merely because an ancestor stopped being a directory. */
  predicate IsRemoved(b: Manifest, c: Manifest, p: Path) {
    p in b && p !in c && forall root | root in b && IsRetyped(b, c, root) :: !(root < p)
  }

  predicate IsRemovedFile(b: Manifest, c: Manifest, p: Path) {
    IsRemoved(b, c, p) && b[p].kind == FileKind
  }

  ghost function AddedFiles(b: Manifest, c: Manifest): (s: set<Path>)
    ensures s <= c.Keys
  {
    set p | p in c && IsAdded(b, c, p)
  }

  ghost function RemovedFiles(b: Manifest, c: Manifest): (s: set<Path>)
    ensures s <= b.Keys
  {
    set p | p in b && IsRemovedFile(b, c, p)
  }

  /** The only removed file and the only added file with their common digest and mode. */
  ghost predicate IsRename(b: Manifest, c: Manifest, from: Path, to: Path) {
    && IsRemovedFile(b, c, from) && IsAdded(b, c, to)
    && FingerprintOf(b[from]) == FingerprintOf(c[to])
    && (forall f :: IsRemovedFile(b, c, f) && FingerprintOf(b[f]) == FingerprintOf(c[to]) ==> f == from)
    && (forall t :: IsAdded(b, c, t) && FingerprintOf(c[t]) == FingerprintOf(c[to]) ==> t == to)
  }

  ghost predicate IsRenameSource(b: Manifest, c: Manifest, p: Path) {
    exists to :: to in c && IsRename(b, c, p, to)
  }

  ghost predicate IsRenameTarget(b: Manifest, c: Manifest, p: Path) {
    exists from :: from in b && IsRename(b, c, from, p)
  }

  ghost function Deleted(b: Manifest, c: Manifest): set<Path> {
    set p | p in b && IsRemoved(b, c, p) && !IsRenameSource(b, c, p)
  }

  ghost function OrdinaryChanges(b: Manifest, c: Manifest): set<Path> {
    set p | p in c && (IsEdited(b, c, p) || (IsAdded(b, c, p) && !IsRenameTarget(b, c, p)))
  }

  function TypeChangeAt(b: Manifest, c: Manifest, p: Path): HighRiskChange
    requires p in b && p in c
  {
    HighRiskChange(TypeChange, p, None, b[p].sha256, c[p].sha256, b[p].mode, Some(c[p].mode))
  }

  function PermissionChangeAt(b: Manifest, c: Manifest, p: Path): HighRiskChange
    requires p in b && p in c
  {
    HighRiskChange(PermissionChange, p, None, b[p].sha256, c[p].sha256, b[p].mode, Some(c[p].mode))
  }

  function RenameBetween(b: Manifest, c: Manifest, from: Path, to: Path): HighRiskChange
    requires from in b && to in c
  {
    HighRiskChange(Rename, to, Some(from), b[from].sha256, c[to].sha256, b[from].mode, Some(c[to].mode))
  }

  function DeleteAt(b: Manifest, p: Path): HighRiskChange
    requires p in b
  {
    HighRiskChange(Delete, p, None, b[p].sha256, NoDigest, b[p].mode, None)
  }

  ghost predicate IsHighRisk(b: Manifest, c: Manifest, x: HighRiskChange) {
    || (x.path in b && IsRetyped(b, c, x.path) && x == TypeChangeAt(b, c, x.path))
    || (x.path in b && IsRemoded(b, c, x.path) && x == PermissionChangeAt(b, c, x.path))
    || (x.fromPath.Some? && IsRename(b, c, x.fromPath.value, x.path) && x == RenameBetween(b, c, x.fromPath.value, x.path))
    || (x.path in Outermost(Deleted(b, c)) && x == DeleteAt(b, x.path))
  }

  /** The paths a synchronization has to stage, back up and replace. */
  ghost function AffectedPaths(changed: set<Path>, highRisk: set<HighRiskChange>): set<Path> {
    changed + (set x | x in highRisk :: x.path) + (set x | x in highRisk && x.fromPath.Some? :: x.fromPath.value)
  }

  // ---- The classifier ----

  /** `groups` lists the paths of `s` by fingerprint, each once. */
  ghost predicate Grouped(groups: map<Fingerprint, seq<Path>>, s: set<Path>, m: Manifest)
    requires s <= m.Keys
  {
    && (forall p :: p in s ==> FingerprintOf(m[p]) in groups && p in groups[FingerprintOf(m[p])])
    && (forall f, p :: f in groups && p in groups[f] ==> p in s && FingerprintOf(m[p]) == f)
    && (forall f :: f in groups ==> Distinct(groups[f]))
  }

  lemma GroupStep(groups: map<Fingerprint, seq<Path>>, s: set<Path>, m: Manifest, path: Path)
    requires s <= m.Keys && path in m && path !in s && Grouped(groups, s, m)
    ensures var f := FingerprintOf(m[path]);
            Grouped(groups[f := (if f in groups then groups[f] else []) + [path]], s + {path}, m)
  {
    var f := FingerprintOf(m[path]);
    var paths := if f in groups then groups[f] else [];
    assert path !in paths;
  }

  method GroupByFingerprint(s: set<Path>, m: Manifest) returns (groups: map<Fingerprint, seq<Path>>)
    requires s <= m.Keys
    ensures Grouped(groups, s, m)
  {
    groups := map[];
    var todo := s;
    ghost var done := {};
    while todo != {}
      invariant done !! todo && done + todo == s
      invariant Grouped(groups, done, m)
    {
      hide *;
      var path :| path in todo;
      GroupStep(groups, done, m, path);
      var f := FingerprintOf(m[path]);
      var paths := if f in groups then groups[f] else [];
      groups := groups[f := paths + [path]];
      todo := todo - {path};
      done := done + {path};
    }
    assert done == s;
  }

  ghost function TypeChangesIn(b: Manifest, c: Manifest, s: set<Path>): set<HighRiskChange>
    requires s <= c.Keys
  {
    set p | p in s && IsRetyped(b, c, p) :: TypeChangeAt(b, c, p)
  }

  ghost function PermissionChangesIn(b: Manifest, c: Manifest, s: set<Path>): set<HighRiskChange>
    requires s <= c.Keys
  {
    set p | p in s && IsRemoded(b, c, p) :: PermissionChangeAt(b, c, p)
  }

  lemma ScanStep(b: Manifest, c: Manifest, s: set<Path>, p: Path)
    requires s <= c.Keys && p in c
    ensures TypeChangesIn(b, c, s + {p}) == TypeChangesIn(b, c, s) + if IsRetyped(b, c, p) then {TypeChangeAt(b, c, p)} else {}
    ensures PermissionChangesIn(b, c, s + {p})
         == PermissionChangesIn(b, c, s) + if IsRemoded(b, c, p) then {PermissionChangeAt(b, c, p)} else {}
  {
    assert forall q :: q in s + {p} <==> q in s || q == p;
  }

  /** The first loop of the classifier, over the paths of the peer's workspace. */
  method ScanCurrent(b: Manifest, c: Manifest)
    returns (changed: set<Path>, highRisk: set<HighRiskChange>, added: set<Path>, retyped: set<Path>)
    ensures changed == set p | p in c && (IsEdited(b, c, p) || IsAdded(b, c, p))
    ensures added == AddedFiles(b, c)
    ensures retyped == set p | p in c && IsRetyped(b, c, p)
    ensures highRisk == TypeChangesIn(b, c, c.Keys) + PermissionChangesIn(b, c, c.Keys)
  {
    changed, highRisk, added, retyped := {}, {}, {}, {};
    var todo := c.Keys;
    ghost var seen := {};
    while todo != {}
      invariant seen !! todo && seen + todo == c.Keys
      invariant forall p :: p in changed <==> p in seen && (IsEdited(b, c, p) || IsAdded(b, c, p))
      invariant forall p :: p in added <==> p in seen && IsAdded(b, c, p)
      invariant forall p :: p in retyped <==> p in seen && IsRetyped(b, c, p)
      invariant highRisk == TypeChangesIn(b, c, seen) + PermissionChangesIn(b, c, seen)
    {
      var path :| path in todo;
      ScanStep(b, c, seen, path);
      todo := todo - {path};
      seen := seen + {path};
      if path !in b {
        if c[path].kind == FileKind {
          changed := changed + {path};
          added := added + {path};
        }
      } else if b[path].kind != c[path].kind {
        retyped := retyped + {path};
        highRisk := highRisk + {TypeChangeAt(b, c, path)};
      } else if b[path].mode != c[path].mode {
        highRisk := highRisk + {PermissionChangeAt(b, c, path)};
      } else if c[path].kind == FileKind && b[path].sha256 != c[path].sha256 {
        changed := changed + {path};
      }
    }
    assert seen == c.Keys;
  }

  /** The second loop: baseline paths that are gone, unless a retyped ancestor accounts for them. */
  method ScanBaseline(b: Manifest, c: Manifest, retyped: set<Path>) returns (removed: set<Path>)
    requires retyped == set p | p in c && IsRetyped(b, c, p)
    ensures removed == set p | p in b && IsRemoved(b, c, p)
  {
    removed := {};
    var todo := b.Keys;
    assert forall root :: IsRetyped(b, c, root) <==> root in retyped;
    while todo != {}
      invariant todo <= b.Keys
      invariant forall p :: p in removed <==> p in b.Keys - todo && IsRemoved(b, c, p)
    {
      var path :| path in todo;
      assert IsRemoved(b, c, path) <==> path !in c && !exists root | root in retyped :: root < path;
      if path !in c {
        if !exists root | root in retyped :: root < path {
          removed := removed + {path};
        }
      }
      todo := todo - {path};
    }
  }

  ghost predicate RenameIn(b: Manifest, c: Manifest, seen: set<Fingerprint>, from: Path, to: Path) {
    IsRename(b, c, from, to) && FingerprintOf(c[to]) in seen
  }

  ghost function RenamesIn(b: Manifest, c: Manifest, seen: set<Fingerprint>): set<HighRiskChange> {
    set from, to | from in b && to in c && RenameIn(b, c, seen, from, to) :: RenameBetween(b, c, from, to)
  }

  /** A fingerprint names a rename exactly when one added and one removed file carry it. */
  lemma SingletonGroupsAreRenames(b: Manifest, c: Manifest, byAdded: map<Fingerprint, seq<Path>>,
                                  byRemoved: map<Fingerprint, seq<Path>>, f: Fingerprint)
    requires Grouped(byAdded, AddedFiles(b, c), c)
    requires Grouped(byRemoved, RemovedFiles(b, c), b)
    requires f in byAdded
    ensures f in byRemoved && |byAdded[f]| == 1 && |byRemoved[f]| == 1
        ==> IsRename(b, c, byRemoved[f][0], byAdded[f][0]) && FingerprintOf(c[byAdded[f][0]]) == f
    ensures forall from, to | IsRename(b, c, from, to) && FingerprintOf(c[to]) == f
            :: f in byRemoved && byAdded[f] == [to] && byRemoved[f] == [from]
  {
    if f in byRemoved && |byAdded[f]| == 1 && |byRemoved[f]| == 1 {
      var to, from := byAdded[f][0], byRemoved[f][0];
      assert to in byAdded[f] && from in byRemoved[f];
      assert byAdded[f] == [to] && byRemoved[f] == [from];
    }
    forall from, to | IsRename(b, c, from, to) && FingerprintOf(c[to]) == f
      ensures f in byRemoved && byAdded[f] == [to] && byRemoved[f] == [from]
    {
      assert to in AddedFiles(b, c) && from in RemovedFiles(b, c);
      forall y | y in byAdded[f] ensures y == to { assert IsAdded(b, c, y); }
      forall y | y in byRemoved[f] ensures y == from { assert IsRemovedFile(b, c, y); }
      OnlyElement(byAdded[f], to);
      OnlyElement(byRemoved[f], from);
    }
  }

  lemma OnlyElement<T>(s: seq<T>, x: T)
    requires Distinct(s) && x in s && forall y :: y in s ==> y == x
    ensures s == [x]
  {
    assert s[0] in s && s[|s| - 1] in s;
  }

  /** The third loop: one added and one removed file with a common fingerprint become a rename. */
  method PairRenames(b: Manifest, c: Manifest, changed0: set<Path>, removed0: set<Path>,
                     byAdded: map<Fingerprint, seq<Path>>, byRemoved: map<Fingerprint, seq<Path>>)
    returns (changed: set<Path>, removed: set<Path>, renames: set<HighRiskChange>)
    requires Grouped(byAdded, AddedFiles(b, c), c) && Grouped(byRemoved, RemovedFiles(b, c), b)
    requires changed0 <= c.Keys && removed0 <= b.Keys
    ensures changed == set p | p in changed0 && !IsRenameTarget(b, c, p)
    ensures removed == set p | p in removed0 && !IsRenameSource(b, c, p)
    ensures renames == RenamesIn(b, c, byAdded.Keys)
  {
    changed, removed, renames := changed0, removed0, {};
    var todo := byAdded.Keys;
    ghost var seen := {};
    while todo != {}
      invariant seen !! todo && seen + todo == byAdded.Keys
      invariant forall p :: p in changed <==> p in changed0 && !(IsRenameTarget(b, c, p) && FingerprintOf(c[p]) in seen)
      invariant forall p :: p in removed <==> p in removed0 && !(IsRenameSource(b, c, p) && FingerprintOf(b[p]) in seen)
      invariant renames == RenamesIn(b, c, seen)
    {
      var f :| f in todo;
      SingletonGroupsAreRenames(b, c, byAdded, byRemoved, f);
      var addedPaths, removedPaths := byAdded[f], if f in byRemoved then byRemoved[f] else [];
      RenameStep(b, c, seen, f, addedPaths, removedPaths);
      if |addedPaths| == 1 && |removedPaths| == 1 {
        var path, fromPath := addedPaths[0], removedPaths[0];
        changed := changed - {path};
        removed := removed - {fromPath};
        renames := renames + {RenameBetween(b, c, fromPath, path)};
      }
      todo := todo - {f};
      seen := seen + {f};
    }
    assert seen == byAdded.Keys;
    forall p | IsRenameTarget(b, c, p) ensures FingerprintOf(c[p]) in seen {
      assert p in AddedFiles(b, c);
    }
    forall p | IsRenameSource(b, c, p) ensures FingerprintOf(b[p]) in seen {
      var to :| to in c && IsRename(b, c, p, to);
      assert to in AddedFiles(b, c);
    }
  }

  lemma RenameStep(b: Manifest, c: Manifest, seen: set<Fingerprint>, f: Fingerprint,
                   addedPaths: seq<Path>, removedPaths: seq<Path>)
    requires |addedPaths| == 1 && |removedPaths| == 1
         ==> IsRename(b, c, removedPaths[0], addedPaths[0]) && FingerprintOf(c[addedPaths[0]]) == f
    requires forall from, to | IsRename(b, c, from, to) && FingerprintOf(c[to]) == f
             :: addedPaths == [to] && removedPaths == [from]
    ensures |addedPaths| == 1 && |removedPaths| == 1 ==>
        && RenamesIn(b, c, seen + {f}) == RenamesIn(b, c, seen) + {RenameBetween(b, c, removedPaths[0], addedPaths[0])}
        && (forall p :: p in c && IsRenameTarget(b, c, p) && FingerprintOf(c[p]) == f <==> p == addedPaths[0])
        && (forall p :: p in b && IsRenameSource(b, c, p) && FingerprintOf(b[p]) == f <==> p == removedPaths[0])
    ensures !(|addedPaths| == 1 && |removedPaths| == 1) ==>
        && RenamesIn(b, c, seen + {f}) == RenamesIn(b, c, seen)
        && (forall p :: IsRenameTarget(b, c, p) ==> FingerprintOf(c[p]) != f)
        && (forall p :: IsRenameSource(b, c, p) ==> FingerprintOf(b[p]) != f)
  {
    forall from, to ensures RenameIn(b, c, seen + {f}, from, to)
      <==> RenameIn(b, c, seen, from, to) || (|addedPaths| == 1 && |removedPaths| == 1 && from == removedPaths[0] && to == addedPaths[0])
    {}
  }

  lemma AllHighRisk(b: Manifest, c: Manifest, fingerprints: set<Fingerprint>, roots: seq<Path>, x: HighRiskChange)
    requires Elements(roots) == Outermost(Deleted(b, c))
    requires forall p :: p in AddedFiles(b, c) ==> FingerprintOf(c[p]) in fingerprints
    ensures forall p :: p in roots ==> p in b
    ensures x in TypeChangesIn(b, c, c.Keys) + PermissionChangesIn(b, c, c.Keys) + RenamesIn(b, c, fingerprints)
               + (set p | p in roots :: DeleteAt(b, p))
       <==> IsHighRisk(b, c, x)
  {
    forall p ensures p in roots <==> p in Outermost(Deleted(b, c)) {
      assert p in roots <==> p in Elements(roots);
    }
    if x.fromPath.Some? && IsRename(b, c, x.fromPath.value, x.path) && x == RenameBetween(b, c, x.fromPath.value, x.path) {
      assert x.path in AddedFiles(b, c);
      assert RenameIn(b, c, fingerprints, x.fromPath.value, x.path);
    }
  }

  /** The whole classifier: ordinary changes, and the changes that need approval. */
  method ClassifyWorkspaceChanges(b: Manifest, c: Manifest)
    returns (changedFiles: set<Path>, highRisk: set<HighRiskChange>)
    requires [] !in b
    ensures changedFiles == OrdinaryChanges(b, c)
    ensures forall x :: x in highRisk <==> IsHighRisk(b, c, x)
  {
    var changed, risky, added, retyped := ScanCurrent(b, c);
    var removed := ScanBaseline(b, c, retyped);
    var addedByFingerprint := GroupByFingerprint(added, c);
    var removedByFingerprint := GroupByFingerprint((set p | p in removed && b[p].kind == FileKind), b);
    assert (set p | p in removed && b[p].kind == FileKind) == RemovedFiles(b, c);
    var changed', removed', renames := PairRenames(b, c, changed, removed, addedByFingerprint, removedByFingerprint);
    assert removed' == Deleted(b, c);
    var removedPaths := ListOf(removed');
    assert [] !in Elements(removedPaths);
    var removedRoots := OutermostPaths(removedPaths);
    assert forall p :: p in removedRoots ==> p in Elements(removedRoots);
    changedFiles := changed';
    forall x { AllHighRisk(b, c, addedByFingerprint.Keys, removedRoots, x); }
    highRisk := risky + renames + (set p | p in removedRoots :: DeleteAt(b, p));
  }

  method ListOf<T>(s: set<T>) returns (list: seq<T>)
    ensures Elements(list) == s && Distinct(list)
  {
    list := [];
    var todo := s;
    while todo != {}
      invariant todo <= s
      invariant Elements(list) == s - todo && Distinct(list)
    {
      var x :| x in todo;
      assert x !in Elements(list);
      assert Elements(list + [x]) == Elements(list) + {x};
      list := list + [x];
      todo := todo - {x};
    }
  }
}
