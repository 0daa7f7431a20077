/**
 * Relative paths as sequences of segments, the ancestor order on them, and the reduction of a list of
 * paths to its outermost members that both the change classifier and the synchronizer use.
 */
module Paths {

  /** `[]` is the root itself. A path lies at or under `root` exactly when `root` is a prefix of it. */
  type Path = seq<string>

  /** The length of the path written out with one separator between segments. */
  function Length(p: Path): nat {
    if p == [] then 0 else |p[0]| + (if |p| == 1 then 0 else 1) + Length(p[1..])
  }

  lemma {:induction false} AncestorIsShorter(a: Path, p: Path)
    requires a != [] && a < p
    ensures Length(a) < Length(p)
  {
    if |a| == 1 {
      assert a[0] == p[0] && a[1..] == [];
    } else {
      AncestorIsShorter(a[1..], p[1..]);
    }
  }

  function Parents(p: Path): set<Path> {
    set k | 0 < k < |p| :: p[..k]
  }

  lemma ProperAncestorIsParent(a: Path, p: Path)
    requires a != [] && a <= p && a != p
    ensures a in Parents(p)
  {
    assert a == p[..|a|];
  }

  ghost predicate Distinct<T>(s: seq<T>) {
    forall i, j :: 0 <= i < j < |s| ==> s[i] != s[j]
  }

  function Elements<T>(s: seq<T>): set<T> {
    set x | x in s
  }

  /** Some member of `roots` is `p` or an ancestor of `p`. */
  predicate UnderAny(roots: seq<Path>, p: Path) {
    exists r | r in roots :: r <= p
  }

  /** No member lies under another one, and none is listed twice. */
  ghost predicate Antichain(roots: seq<Path>) {
    forall i, j :: 0 <= i < |roots| && 0 <= j < |roots| && roots[i] <= roots[j] ==> i == j
  }

  lemma AntichainAppend(roots: seq<Path>, p: Path)
    requires Antichain(roots) && forall r | r in roots :: !(r <= p) && !(p <= r)
    ensures Antichain(roots + [p])
  {
    assert forall i :: 0 <= i < |roots| ==> roots[i] in roots;
  }

  lemma AncestorsAreComparable(a: Path, b: Path, p: Path)
    requires a <= p && b <= p
    ensures a <= b || b <= a
  {
    assert a == p[..|a|] && b == p[..|b|];
  }

  lemma RootOfPathIsUnique(roots: seq<Path>, i: nat, k: nat, p: Path)
    requires Antichain(roots) && i < |roots| && k < |roots| && roots[i] <= p && roots[k] <= p
    ensures i == k
  {
    AncestorsAreComparable(roots[i], roots[k], p);
  }

  /** The members that have no proper ancestor among the members. */
  ghost function Outermost(s: set<Path>): set<Path> {
    set p | p in s && forall q | q in s && q <= p :: q == p
  }

  lemma {:induction false} OutermostCovers(s: set<Path>, p: Path) returns (r: Path)
    requires p in s
    ensures r in Outermost(s) && r <= p
    decreases |p|
  {
    if q :| q in s && q <= p && q != p {
      r := OutermostCovers(s, q);
    } else {
      r := p;
    }
  }

  lemma OutermostRootIsUnique(s: set<Path>, r: Path, r': Path, p: Path)
    requires r in Outermost(s) && r' in Outermost(s) && r <= p && r' <= p
    ensures r == r'
  {
    AncestorsAreComparable(r, r', p);
  }

  /** First occurrences, in order. */
  function Dedupe<T(==,!new)>(s: seq<T>): (r: seq<T>)
    ensures Elements(r) == Elements(s) && Distinct(r)
  {
    if s == [] then [] else
      var init, last := Dedupe(s[..|s| - 1]), s[|s| - 1];
      assert s == s[..|s| - 1] + [last];
      assert forall x :: x in s <==> x in Elements(init) || x == last;
      if last in init then init else init + [last]
  }

  ghost predicate SortedByLength(s: seq<Path>) {
    forall i, j :: 0 <= i < j < |s| ==> Length(s[i]) <= Length(s[j])
  }

  /** Inserts after every path that is not longer, which makes the sort stable. */
  function InsertByLength(s: seq<Path>, p: Path): (r: seq<Path>)
    requires SortedByLength(s)
    ensures forall x :: x in r <==> x in s || x == p
    ensures SortedByLength(r) && |r| == |s| + 1
  {
    if s == [] || Length(s[|s| - 1]) <= Length(p) then s + [p] else
      var init, last := s[..|s| - 1], s[|s| - 1];
      assert s == init + [last];
      var r := InsertByLength(init, p);
      assert forall i :: 0 <= i < |r| ==> r[i] in r;
      r + [last]
  }

  function SortByLength(s: seq<Path>): (r: seq<Path>)
    ensures SortedByLength(r) && |r| == |s| && Elements(r) == Elements(s)
  {
    if s == [] then [] else
      var init, last := s[..|s| - 1], s[|s| - 1];
      assert s == init + [last];
      var r := SortByLength(init);
      assert forall x :: x in s <==> x in Elements(r) || x == last;
      InsertByLength(r, last)
  }

  ghost predicate IsOutermostList(roots: seq<Path>, s: set<Path>) {
    Elements(roots) == Outermost(s) && Antichain(roots) && SortedByLength(roots)
  }

  /** One more path that is not shorter: it is outermost exactly when nothing outermost covers it. */
  lemma OutermostOfOneMore(s: set<Path>, path: Path)
    requires forall q :: q in s ==> !(path < q)
    ensures Outermost(s + {path}) == Outermost(s) + if exists r | r in Outermost(s) :: r <= path then {} else {path}
  {
    if q :| q in s && q <= path {
      var r := OutermostCovers(s, q);
    }
  }

  lemma OutermostStep(sorted: seq<Path>, i: nat, roots: seq<Path>)
    requires SortedByLength(sorted) && [] !in sorted && i < |sorted|
    requires IsOutermostList(roots, Elements(sorted[..i]))
    ensures IsOutermostList(if UnderAny(roots, sorted[i]) then roots else roots + [sorted[i]], Elements(sorted[..i + 1]))
  {
    var s, path := Elements(sorted[..i]), sorted[i];
    assert sorted[..i + 1] == sorted[..i] + [path];
    assert Elements(sorted[..i + 1]) == s + {path};
    forall q | q in s ensures !(path < q) && Length(q) <= Length(path) {
      var k :| 0 <= k < i && sorted[k] == q;
      if path < q { AncestorIsShorter(path, q); }
    }
    OutermostOfOneMore(s, path);
    assert Elements(roots) <= s;
    assert forall r :: r in roots ==> r in Elements(roots);
    hide Outermost, SortedByLength;
    OneMoreRoot(roots, path);
    LongerGoesLast(roots, s, path);
  }

  lemma OneMoreRoot(roots: seq<Path>, path: Path)
    requires Antichain(roots) && forall r | r in roots :: !(path < r)
    ensures UnderAny(roots, path) <==> exists r | r in Elements(roots) :: r <= path
    ensures Elements(roots + [path]) == Elements(roots) + {path}
    ensures !UnderAny(roots, path) ==> Antichain(roots + [path])
  {
    assert forall r :: r in roots <==> r in Elements(roots);
    if !UnderAny(roots, path) {
      assert path !in roots by { assert path <= path; }
      AntichainAppend(roots, path);
    }
  }

  lemma LongerGoesLast(roots: seq<Path>, s: set<Path>, path: Path)
    requires SortedByLength(roots) && Elements(roots) <= s && forall q :: q in s ==> Length(q) <= Length(path)
    ensures SortedByLength(roots + [path])
  {
    assert forall k :: 0 <= k < |roots| ==> roots[k] in Elements(roots);
  }

  /** Keeps a path unless an already kept one covers it, shorter paths first. */
  method OutermostPaths(paths: seq<Path>) returns (roots: seq<Path>)
    requires [] !in paths
    ensures Elements(roots) == Outermost(Elements(paths))
    ensures Antichain(roots)
    ensures SortedByLength(roots)
  {
    var sorted := SortByLength(paths);
    assert [] !in Elements(paths);
    assert [] !in Elements(sorted);
    roots := [];
    assert IsOutermostList(roots, Elements(sorted[..0]));
    for i := 0 to |sorted|
      invariant IsOutermostList(roots, Elements(sorted[..i]))
    {
      hide *;
      OutermostStep(sorted, i, roots);
      if !UnderAny(roots, sorted[i]) {
        roots := roots + [sorted[i]];
      }
    }
    assert sorted[..|sorted|] == sorted;
  }

  /** The disjoint roots that a transaction over `paths` has to stage, back up and replace. */
  method CollapseAffectedRoots(paths: seq<Path>) returns (roots: seq<Path>)
    requires [] !in paths
    ensures Elements(roots) == Outermost(Elements(paths))
    ensures Antichain(roots)
    ensures SortedByLength(roots)
  {
    var unique := Dedupe(paths);
    assert [] !in Elements(paths);
    assert [] !in Elements(unique);
    roots := OutermostPaths(unique);
  }

  /** Every affected path lies under exactly one collapsed root. */
  lemma CollapsedRootsPartition(paths: seq<Path>, roots: seq<Path>, p: Path)
    requires Elements(roots) == Outermost(Elements(paths)) && p in paths
    ensures UnderAny(roots, p)
    ensures forall r, r' | r in roots && r' in roots && r <= p && r' <= p :: r == r'
  {
    var r0 := OutermostCovers(Elements(paths), p);
    assert r0 in Elements(roots);
    forall r, r' | r in roots && r' in roots && r <= p && r' <= p ensures r == r' {
      assert r in Elements(roots) && r' in Elements(roots);
      OutermostRootIsUnique(Elements(paths), r, r', p);
    }
  }
}
