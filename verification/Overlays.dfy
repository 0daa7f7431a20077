/**
 * The tree algebra behind the v1 transaction: clearing roots, installing subtrees at roots, and the parent
 * directories that installing creates.
 */
module Overlays {
  import opened Options
  import opened Paths
  import opened Trees

  lemma TreesAreEqual(t: Tree, u: Tree)
    requires forall p :: Get(t, p) == Get(u, p)
    ensures t == u
  {
    forall p ensures p in t <==> p in u {
      assert Get(t, p) == Get(u, p);
    }
    forall p | p in t ensures t[p] == u[p] {
      assert Get(t, p) == Get(u, p);
    }
  }

  /** What is left of `t` once every root is cleared. */
  function Kept(t: Tree, roots: seq<Path>): Tree {
    map p | p in t && !UnderAny(roots, p) :: t[p]
  }

  /** The part of `w` at or under the roots. */
  function Installed(w: Tree, roots: seq<Path>): Tree {
    map p | p in w && UnderAny(roots, p) :: w[p]
  }

  function ParentsOfPresent(w: Tree, roots: seq<Path>): set<Path> {
    set r, q | r in roots && r in w && q in Parents(r) :: q
  }

  function CreatedParents(t: Tree, w: Tree, roots: seq<Path>, dirMode: int): Tree {
    map q | q in ParentsOfPresent(w, roots) && q !in t :: Directory(dirMode)
  }

  /** `t` with all of `cleared` emptied and the subtrees of `w` at `done` installed. */
  function Overlay(t: Tree, w: Tree, cleared: seq<Path>, done: seq<Path>, dirMode: int): Tree {
    CreatedParents(t, w, done, dirMode) + Kept(t, cleared) + Installed(w, done)
  }

  /** The overlay, path by path. */
  ghost function OverlayAt(t: Tree, w: Tree, cleared: seq<Path>, done: seq<Path>, dirMode: int, p: Path): Option<Node> {
    if p in w && UnderAny(done, p) then Some(w[p])
    else if p in t && !UnderAny(cleared, p) then Some(t[p])
    else if p in ParentsOfPresent(w, done) && p !in t then Some(Directory(dirMode))
    else None
  }

  lemma OverlayIsPointwise(t: Tree, w: Tree, cleared: seq<Path>, done: seq<Path>, dirMode: int, p: Path)
    ensures Get(Overlay(t, w, cleared, done, dirMode), p) == OverlayAt(t, w, cleared, done, dirMode, p)
  {
  }

  ghost predicate Roots(roots: seq<Path>) {
    [] !in roots && Antichain(roots)
  }

  lemma RootsAreUnrelated(roots: seq<Path>, r: Path, r': Path)
    requires Antichain(roots) && r in roots && r' in roots && r <= r'
    ensures r == r'
  {
  }

  lemma ParentsAreNotUnderRoots(roots: seq<Path>, r: Path, q: Path)
    requires Roots(roots) && r in roots && q in Parents(r)
    ensures !UnderAny(roots, q)
  {
    forall r' | r' in roots ensures !(r' <= q) {
      if r' <= q {
        assert r' <= r && |r'| < |r|;
        RootsAreUnrelated(roots, r', r);
      }
    }
  }

  lemma ClearStep(t: Tree, done: seq<Path>, r: Path, done': seq<Path>)
    requires Elements(done') == Elements(done) + {r}
    ensures Kept(t, done') == Without(Kept(t, done), r)
  {
    UnderOneMore(done, r, done');
  }

  lemma UnderOneMore(done: seq<Path>, r: Path, done': seq<Path>)
    requires Elements(done') == Elements(done) + {r}
    ensures forall p :: UnderAny(done', p) <==> UnderAny(done, p) || r <= p
  {
    assert forall x :: x in done' <==> x in Elements(done');
    assert forall x :: x in done <==> x in Elements(done);
    forall p ensures UnderAny(done', p) <==> UnderAny(done, p) || r <= p {
      if r <= p { assert r in done'; }
    }
  }

  ghost predicate OneMoreRoot(roots: seq<Path>, done: seq<Path>, r: Path, done': seq<Path>) {
    Roots(roots) && r in roots && (forall x :: x in done ==> x in roots) && Elements(done') == Elements(done) + {r}
  }

  /** Nothing is at or under a root until that root is installed. */
  lemma RootIsFree(t: Tree, w: Tree, roots: seq<Path>, done: seq<Path>, r: Path, dirMode: int, p: Path)
    requires Roots(roots) && r in roots && (forall x :: x in done ==> x in roots)
    requires p in Overlay(t, w, roots, done, dirMode) && r <= p
    ensures r in done
  {
    OverlayIsPointwise(t, w, roots, done, dirMode, p);
    assert UnderAny(roots, p);
    if p in w && UnderAny(done, p) {
      var r' :| r' in done && r' <= p;
      AncestorsAreComparable(r, r', p);
    } else {
      var r' :| r' in done && r' in w && p in Parents(r');
      ParentsAreNotUnderRoots(roots, r', p);
    }
  }

  /** Creating the parents of one more root and moving its subtree in extends the overlay by that root. */
  lemma InstallStep(t: Tree, w: Tree, roots: seq<Path>, done: seq<Path>, r: Path, done': seq<Path>, dirMode: int)
    requires WellFormed(w) && OneMoreRoot(roots, done, r, done')
    ensures r in w ==> var o := Overlay(t, w, roots, done, dirMode);
                       Overlay(t, w, roots, done', dirMode) == MissingParents(o, r, dirMode) + o + Subtree(w, r)
    ensures r !in w ==> Overlay(t, w, roots, done', dirMode) == Overlay(t, w, roots, done, dirMode)
    ensures forall p :: p in Overlay(t, w, roots, done, dirMode) && r <= p ==> r in done
  {
    var o := Overlay(t, w, roots, done, dirMode);
    UnderOneMore(done, r, done');
    PresentOneMore(w, done, r, done');
    forall p | p in o && r <= p ensures r in done {
      RootIsFree(t, w, roots, done, r, dirMode, p);
    }
    var o' := if r in w then MissingParents(o, r, dirMode) + o + Subtree(w, r) else o;
    hide Overlay, WellFormed, Antichain;
    forall p ensures Get(Overlay(t, w, roots, done', dirMode), p) == Get(o', p) {
      OverlayIsPointwise(t, w, roots, done, dirMode, p);
      OverlayIsPointwise(t, w, roots, done', dirMode, p);
      if r in w {
        InstallStepAt(t, w, roots, done, r, done', dirMode, p);
      } else {
        AbsentRootHoldsNothing(w, r, p);
      }
    }
    TreesAreEqual(Overlay(t, w, roots, done', dirMode), o');
  }

  lemma AbsentRootHoldsNothing(w: Tree, r: Path, p: Path)
    requires WellFormed(w) && r != [] && r !in w
    ensures r <= p ==> p !in w
  {
    if p in w && r <= p && r != p {
      ParentsAreWithinTree(w, r, p);
    }
  }

  lemma PresentOneMore(w: Tree, done: seq<Path>, r: Path, done': seq<Path>)
    requires Elements(done') == Elements(done) + {r}
    ensures ParentsOfPresent(w, done') == ParentsOfPresent(w, done) + if r in w then Parents(r) else {}
  {
    forall x ensures x in done' <==> x in done || x == r {
      assert x in done' <==> x in Elements(done');
      assert x in done <==> x in Elements(done);
    }
  }

  lemma InstallStepAt(t: Tree, w: Tree, roots: seq<Path>, done: seq<Path>, r: Path, done': seq<Path>, dirMode: int, p: Path)
    requires OneMoreRoot(roots, done, r, done') && r in w
    requires UnderAny(done', p) <==> UnderAny(done, p) || r <= p
    requires ParentsOfPresent(w, done') == ParentsOfPresent(w, done) + Parents(r)
    ensures var o := Overlay(t, w, roots, done, dirMode);
            OverlayAt(t, w, roots, done', dirMode, p) == Get(MissingParents(o, r, dirMode) + o + Subtree(w, r), p)
  {
    OverlayIsPointwise(t, w, roots, done, dirMode, p);
    if p in Parents(r) {
      ParentsAreNotUnderRoots(roots, r, p);
      assert !UnderAny(done, p);
    }
    hide Overlay, Antichain, UnderAny, ParentsOfPresent;
  }
}
