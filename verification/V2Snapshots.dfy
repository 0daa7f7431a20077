/** Protocol v2 tree snapshots: ordered lists of file identities, and the comparison that decides drift. */
module V2Snapshots {
  import opened Options
  import opened Paths
  import opened Trees

  datatype Identity = Identity(relativePath: Path, entry: Entry, fileId: nat)

  type FileIds = map<Path, nat>

  /** The snapshot's ordering of paths; any strict total order will do. */
  ghost predicate StrictOrder(before: (Path, Path) -> bool) {
    && (forall p :: !before(p, p))
    && (forall p, q, r :: before(p, q) && before(q, r) ==> before(p, r))
    && (forall p, q :: p != q ==> before(p, q) || before(q, p))
  }

  ghost predicate Ordered(s: seq<Identity>, before: (Path, Path) -> bool) {
    forall i, j :: 0 <= i < j < |s| ==> before(s[i].relativePath, s[j].relativePath)
  }

  /** `s` lists each entry of the tree once, with its identity, in order. */
  ghost predicate IsSnapshot(s: seq<Identity>, t: Tree, ids: FileIds, before: (Path, Path) -> bool)
    requires t.Keys <= ids.Keys
  {
    && Ordered(s, before)
    && (forall x :: x in s ==> x.relativePath in t && x == IdentityAt(t, ids, x.relativePath))
    && (forall p :: p in t ==> IdentityAt(t, ids, p) in s)
  }

  function IdentityAt(t: Tree, ids: FileIds, p: Path): Identity
    requires p in t && p in ids
  {
    Identity(p, EntryOf(t[p]), ids[p])
  }

  predicate SameIdentity(left: Identity, right: Identity, includeFileId: bool) {
    && left.relativePath == right.relativePath
    && left.entry.kind == right.entry.kind && left.entry.bytes == right.entry.bytes
    && left.entry.sha256 == right.entry.sha256 && left.entry.mode == right.entry.mode
    && (includeFileId ==> left.fileId == right.fileId)
  }

  ghost predicate SameEntries(left: seq<Identity>, right: seq<Identity>, includeFileId: bool) {
    |left| == |right| && forall i :: 0 <= i < |left| ==> SameIdentity(left[i], right[i], includeFileId)
  }

  /** The index-wise comparison of two snapshots. */
  method SameV2Snapshot(left: seq<Identity>, right: seq<Identity>, includeFileId: bool) returns (same: bool)
    ensures same <==> SameEntries(left, right, includeFileId)
  {
    if |left| != |right| {
      return false;
    }
    for i := 0 to |left|
      invariant forall k :: 0 <= k < i ==> SameIdentity(left[k], right[k], includeFileId)
    {
      if !SameIdentity(left[i], right[i], includeFileId) {
        return false;
      }
    }
    return true;
  }

  ghost function PathsOf(s: seq<Identity>): set<Path> {
    set x | x in s :: x.relativePath
  }

  lemma SnapshotPaths(s: seq<Identity>, t: Tree, ids: FileIds, before: (Path, Path) -> bool)
    requires t.Keys <= ids.Keys && IsSnapshot(s, t, ids, before)
    ensures PathsOf(s) == t.Keys
  {
    forall p | p in t ensures p in PathsOf(s) {
      assert IdentityAt(t, ids, p) in s;
    }
  }

  /** Two ordered lists over the same paths carry the same path at every index. */
  lemma {:induction false} OrderedListsAlign(a: seq<Identity>, b: seq<Identity>, before: (Path, Path) -> bool)
    requires StrictOrder(before) && Ordered(a, before) && Ordered(b, before) && PathsOf(a) == PathsOf(b)
    ensures |a| == |b| && forall i :: 0 <= i < |a| ==> a[i].relativePath == b[i].relativePath
  {
    if a == [] {
      HeadPath(b);
    } else {
      assert a[0].relativePath in PathsOf(b);
      assert b != [];
      FirstIsLeast(a, before);
      FirstIsLeast(b, before);
      assert b[0].relativePath in PathsOf(a);
      assert a[0].relativePath == b[0].relativePath;
      RestPaths(a, before);
      RestPaths(b, before);
      OrderedListsAlign(a[1..], b[1..], before);
      forall i | 0 <= i < |a| ensures a[i].relativePath == b[i].relativePath {
        if i > 0 { assert a[i] == a[1..][i - 1] && b[i] == b[1..][i - 1]; }
      }
    }
  }

  lemma HeadPath(s: seq<Identity>)
    ensures s != [] ==> s[0].relativePath in PathsOf(s)
  {
  }

  lemma FirstIsLeast(s: seq<Identity>, before: (Path, Path) -> bool)
    requires StrictOrder(before) && Ordered(s, before) && s != []
    ensures forall p :: p in PathsOf(s) ==> p == s[0].relativePath || before(s[0].relativePath, p)
  {
    forall p | p in PathsOf(s) ensures p == s[0].relativePath || before(s[0].relativePath, p) {
      var x :| x in s && x.relativePath == p;
      var k :| 0 <= k < |s| && s[k] == x;
    }
  }

  lemma RestPaths(s: seq<Identity>, before: (Path, Path) -> bool)
    requires StrictOrder(before) && Ordered(s, before) && s != []
    ensures PathsOf(s[1..]) == PathsOf(s) - {s[0].relativePath}
  {
    forall p | p in PathsOf(s) && p != s[0].relativePath ensures p in PathsOf(s[1..]) {
      var x :| x in s && x.relativePath == p;
      assert x in s[1..];
    }
    forall p | p in PathsOf(s[1..]) ensures p in PathsOf(s) && p != s[0].relativePath {
      var x :| x in s[1..] && x.relativePath == p;
      var k :| 0 <= k < |s[1..]| && s[1..][k] == x;
      assert s[k + 1] == x;
    }
  }

  /** Comparing two snapshots entry by entry decides equality of the trees, and of the file identities when asked. */
  lemma SnapshotComparisonDecidesTrees(left: seq<Identity>, t: Tree, ids: FileIds, right: seq<Identity>, u: Tree, ids': FileIds,
                                       before: (Path, Path) -> bool, includeFileId: bool)
    requires StrictOrder(before) && t.Keys <= ids.Keys && u.Keys <= ids'.Keys
    requires IsSnapshot(left, t, ids, before) && IsSnapshot(right, u, ids', before)
    ensures SameEntries(left, right, includeFileId)
       <==> t == u && (includeFileId ==> forall p :: p in t ==> ids[p] == ids'[p])
  {
    hide *;
    if t == u && (includeFileId ==> forall p :: p in t ==> ids[p] == ids'[p]) {
      SameTreeSameEntries(left, right, t, ids, ids', before, includeFileId);
    }
    if SameEntries(left, right, includeFileId) {
      SameEntriesSameTree(left, t, ids, right, u, ids', before, includeFileId);
    }
  }

  lemma SameEntriesSameTree(left: seq<Identity>, t: Tree, ids: FileIds, right: seq<Identity>, u: Tree, ids': FileIds,
                            before: (Path, Path) -> bool, includeFileId: bool)
    requires t.Keys <= ids.Keys && u.Keys <= ids'.Keys
    requires IsSnapshot(left, t, ids, before) && IsSnapshot(right, u, ids', before) && SameEntries(left, right, includeFileId)
    ensures t == u && (includeFileId ==> forall p :: p in t ==> ids[p] == ids'[p])
  {
    hide *;
    forall p ensures p in t ==> p in u && t[p] == u[p] && (includeFileId ==> ids[p] == ids'[p])
             ensures p in u ==> p in t
    {
      SameEntriesAt(left, t, ids, right, u, ids', before, includeFileId, p);
    }
  }

  lemma SameTreeSameEntries(left: seq<Identity>, right: seq<Identity>, t: Tree, ids: FileIds, ids': FileIds,
                            before: (Path, Path) -> bool, includeFileId: bool)
    requires StrictOrder(before) && t.Keys <= ids.Keys && t.Keys <= ids'.Keys
    requires IsSnapshot(left, t, ids, before) && IsSnapshot(right, t, ids', before)
    requires includeFileId ==> forall p :: p in t ==> ids[p] == ids'[p]
    ensures SameEntries(left, right, includeFileId)
  {
    SnapshotPaths(left, t, ids, before);
    SnapshotPaths(right, t, ids', before);
    OrderedListsAlign(left, right, before);
    hide StrictOrder, Ordered, PathsOf;
    forall i | 0 <= i < |left| ensures SameIdentity(left[i], right[i], includeFileId) {
      assert left[i] in left && right[i] in right;
    }
  }

  lemma SameEntriesAt(left: seq<Identity>, t: Tree, ids: FileIds, right: seq<Identity>, u: Tree, ids': FileIds,
                      before: (Path, Path) -> bool, includeFileId: bool, p: Path)
    requires t.Keys <= ids.Keys && u.Keys <= ids'.Keys
    requires IsSnapshot(left, t, ids, before) && IsSnapshot(right, u, ids', before) && SameEntries(left, right, includeFileId)
    ensures p in t ==> p in u && t[p] == u[p] && (includeFileId ==> ids[p] == ids'[p])
    ensures p in u ==> p in t
  {
    hide Ordered;
    if p in t {
      assert IdentityAt(t, ids, p) in left;
      var k :| 0 <= k < |left| && left[k] == IdentityAt(t, ids, p);
      assert right[k] in right;
    }
    if p in u {
      assert IdentityAt(u, ids', p) in right;
      var k :| 0 <= k < |right| && right[k] == IdentityAt(u, ids', p);
      assert left[k] in left;
    }
  }
}
