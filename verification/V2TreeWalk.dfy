/** Building a protocol v2 snapshot: a walk that rejects colliding paths and shared files, then a sort. */
module V2TreeWalk {
  import opened Options
  import opened Paths
  import opened Trees
  import opened V2Snapshots

  /** What case folding makes of a path; only which paths it identifies matters. */
  type Folded = nat

  /** No two paths that differ only in case, and no file reachable by two names. */
  ghost predicate CollisionFree(t: Tree, ids: FileIds, fold: Path -> Folded)
    requires t.Keys <= ids.Keys
  {
    && (forall p, q :: p in t && q in t && fold(p) == fold(q) ==> p == q)
    && (forall p, q :: HasFile(t, p) && HasFile(t, q) && ids[p] == ids[q] ==> p == q)
  }

  /** Two entries that keep a tree from being collision free. */
  predicate Collide(t: Tree, ids: FileIds, fold: Path -> Folded, p: Path, q: Path)
    requires t.Keys <= ids.Keys
  {
    p in t && q in t && p != q && (fold(p) == fold(q) || (t[p].File? && t[q].File? && ids[p] == ids[q]))
  }

  lemma CollisionsAreCollisions(t: Tree, ids: FileIds, fold: Path -> Folded)
    requires t.Keys <= ids.Keys
    ensures CollisionFree(t, ids, fold) <==> forall p, q :: !Collide(t, ids, fold, p, q)
  {
    if forall p, q :: !Collide(t, ids, fold, p, q) {
      forall p, q | p in t && q in t && fold(p) == fold(q) ensures p == q {
        assert !Collide(t, ids, fold, p, q);
      }
      forall p, q | HasFile(t, p) && HasFile(t, q) && ids[p] == ids[q] ensures p == q {
        assert !Collide(t, ids, fold, p, q);
      }
    }
  }

  function InsertIdentity(s: seq<Identity>, x: Identity, before: (Path, Path) -> bool): seq<Identity> {
    if s == [] || before(x.relativePath, s[0].relativePath) then [x] + s else [s[0]] + InsertIdentity(s[1..], x, before)
  }

  lemma {:induction false} InsertKeepsOrder(s: seq<Identity>, x: Identity, before: (Path, Path) -> bool)
    requires StrictOrder(before) && Ordered(s, before) && x.relativePath !in PathsOf(s)
    ensures var r := InsertIdentity(s, x, before); Ordered(r, before) && forall y :: y in r <==> y in s || y == x
  {
    if s != [] && !before(x.relativePath, s[0].relativePath) {
      assert s == [s[0]] + s[1..] && s[0] in s;
      assert PathsOf(s[1..]) <= PathsOf(s) by { SubsequencePaths(s); }
      InsertKeepsOrder(s[1..], x, before);
      var rest := InsertIdentity(s[1..], x, before);
      assert s[0].relativePath in PathsOf(s);
      forall y | y in rest ensures before(s[0].relativePath, y.relativePath) {
        if y != x {
          var k :| 0 <= k < |s[1..]| && s[1..][k] == y;
          assert s[k + 1] == y;
        }
      }
      PrependKeepsOrder(s[0], rest, before);
    } else if s != [] {
      forall y | y in s ensures before(x.relativePath, y.relativePath) {
        var k :| 0 <= k < |s| && s[k] == y;
      }
      PrependKeepsOrder(x, s, before);
    }
  }

  lemma SubsequencePaths(s: seq<Identity>)
    requires s != []
    ensures PathsOf(s[1..]) <= PathsOf(s)
  {
    forall x | x in s[1..] ensures x in s {
    }
  }

  lemma PrependKeepsOrder(x: Identity, s: seq<Identity>, before: (Path, Path) -> bool)
    requires Ordered(s, before) && forall y :: y in s ==> before(x.relativePath, y.relativePath)
    ensures Ordered([x] + s, before) && forall y :: y in [x] + s <==> y in s || y == x
  {
    forall i, j | 0 <= i < j < |s| + 1 ensures before(([x] + s)[i].relativePath, ([x] + s)[j].relativePath) {
      assert ([x] + s)[j] == s[j - 1] && s[j - 1] in s;
    }
  }

  function SortIdentities(s: seq<Identity>, before: (Path, Path) -> bool): seq<Identity> {
    if s == [] then [] else InsertIdentity(SortIdentities(s[..|s| - 1], before), s[|s| - 1], before)
  }

  ghost predicate DistinctPaths(s: seq<Identity>) {
    forall i, j :: 0 <= i < j < |s| ==> s[i].relativePath != s[j].relativePath
  }

  lemma {:induction false} SortOrders(s: seq<Identity>, before: (Path, Path) -> bool)
    requires StrictOrder(before) && DistinctPaths(s)
    ensures Ordered(SortIdentities(s, before), before) && forall y :: y in SortIdentities(s, before) <==> y in s
  {
    if s != [] {
      var n := |s| - 1;
      SortOrders(s[..n], before);
      var sorted := SortIdentities(s[..n], before);
      InsertKeepsOrder(sorted, s[n], before);
      assert s == s[..n] + [s[n]];
    }
  }

  class TreeWalk {
    var files: seq<Identity>
    var casePaths: map<Folded, Path>
    var fileIds: map<nat, Path>

    constructor ()
      ensures files == [] && casePaths == map[] && fileIds == map[]
    {
      files, casePaths, fileIds := [], map[], map[];
    }

    /** The entries in `todo` are still to be visited; the others are listed and remembered. */
    ghost predicate Visited(t: Tree, ids: FileIds, fold: Path -> Folded, todo: set<Path>)
      requires t.Keys <= ids.Keys
      reads this
    {
      && (forall x :: x in files <==> x.relativePath in t && x.relativePath !in todo && x == IdentityAt(t, ids, x.relativePath))
      && (forall p :: p in t && p !in todo ==> fold(p) in casePaths && casePaths[fold(p)] == p)
      && (forall f :: f in casePaths ==> casePaths[f] in t && casePaths[f] !in todo && fold(casePaths[f]) == f)
      && (forall p :: HasFile(t, p) && p !in todo ==> ids[p] in fileIds && fileIds[ids[p]] == p)
      && (forall n :: n in fileIds ==> HasFile(t, fileIds[n]) && fileIds[n] !in todo && ids[fileIds[n]] == n)
    }

    /** Records one entry unless it collides with an earlier one. */
    method Visit(t: Tree, ids: FileIds, fold: Path -> Folded, path: Path, ghost todo: set<Path>) returns (ok: bool)
      requires t.Keys <= ids.Keys && path in t && path in todo && Visited(t, ids, fold, todo)
      modifies this
      ensures ok ==> Visited(t, ids, fold, todo - {path}) && files == old(files) + [IdentityAt(t, ids, path)]
      ensures !ok ==> exists other :: other in t && Collide(t, ids, fold, other, path)
    {
      var folded := fold(path);
      if folded in casePaths && casePaths[folded] != path {
        assert Collide(t, ids, fold, casePaths[folded], path);
        return false;
      }
      casePaths := casePaths[folded := path];
      if t[path].File? {
        if ids[path] in fileIds && fileIds[ids[path]] != path {
          assert Collide(t, ids, fold, fileIds[ids[path]], path);
          return false;
        }
        fileIds := fileIds[ids[path] := path];
      }
      files := files + [IdentityAt(t, ids, path)];
      return true;
    }

    /** Walks the tree in any order and sorts what it found; succeeds exactly on a tree without collisions. */
    method Snapshot(t: Tree, ids: FileIds, fold: Path -> Folded, before: (Path, Path) -> bool) returns (s: Option<seq<Identity>>)
      requires t.Keys <= ids.Keys && StrictOrder(before) && files == [] && casePaths == map[] && fileIds == map[]
      modifies this
      ensures s.Some? <==> CollisionFree(t, ids, fold)
      ensures s.Some? ==> IsSnapshot(s.value, t, ids, before)
    {
      hide Collide, StrictOrder;
      CollisionsAreCollisions(t, ids, fold);
      hide CollisionFree;
      var todo := t.Keys;
      while todo != {}
        invariant todo <= t.Keys && Visited(t, ids, fold, todo) && DistinctPaths(files)
      {
        var path :| path in todo;
        var ok := Visit(t, ids, fold, path, todo);
        if !ok {
          return None;
        }
        todo := todo - {path};
      }
      NothingCollides(t, ids, fold, casePaths, fileIds);
      SortOrders(files, before);
      return Some(SortIdentities(files, before));
    }
  }

  lemma NothingCollides(t: Tree, ids: FileIds, fold: Path -> Folded, casePaths: map<Folded, Path>, fileIds: map<nat, Path>)
    requires t.Keys <= ids.Keys
    requires forall p :: p in t ==> fold(p) in casePaths && casePaths[fold(p)] == p
    requires forall p :: HasFile(t, p) ==> ids[p] in fileIds && fileIds[ids[p]] == p
    ensures forall p, q :: !Collide(t, ids, fold, p, q)
  {
  }
}
