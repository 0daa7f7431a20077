/**
 * Directory trees as finite maps from paths to files and directories, the file-system primitives the two
 * synchronizers use, and the manifests and digests computed from a tree. `.git` metadata, links and
 * special files never enter a tree.
 */
module Trees {
  import opened Options
  import opened Paths

  type Bytes = seq<bv8>

  datatype Node = File(data: Bytes, mode: int) | Directory(mode: int)

  type Tree = map<Path, Node>

  /** Every ancestor of an entry, short of the root, is a directory of the tree. */
  ghost predicate WellFormed(t: Tree) {
    forall p :: p in t ==> p != [] && forall q :: q in Parents(p) ==> q in t && t[q].Directory?
  }

  function Get(t: Tree, p: Path): Option<Node> {
    if p in t then Some(t[p]) else None
  }

  predicate HasFile(t: Tree, p: Path) {
    p in t && t[p].File?
  }

  predicate HasDirectory(t: Tree, p: Path) {
    p in t && t[p].Directory?
  }

  ghost predicate SameFiles(t: Tree, u: Tree) {
    forall p :: (HasFile(t, p) <==> HasFile(u, p)) && (HasFile(t, p) ==> t[p] == u[p])
  }

  function Subtree(t: Tree, root: Path): Tree {
    map p | p in t && root <= p :: t[p]
  }

  function Without(t: Tree, root: Path): Tree {
    map p | p in t && !(root <= p) :: t[p]
  }

  /** The missing directories that a recursive `mkdir` of the parent of `p` creates. */
  function MissingParents(t: Tree, p: Path, dirMode: int): Tree {
    map q | q in Parents(p) && q !in t :: Directory(dirMode)
  }

  lemma ParentsAreWithinTree(t: Tree, q: Path, p: Path)
    requires WellFormed(t) && p in t && q <= p && q != [] && q != p
    ensures q in t && t[q].Directory?
  {
    assert q == p[..|q|];
    assert q in Parents(p);
  }

  // ---- Manifests ----

  datatype Kind = FileKind | DirectoryKind

  /** SHA-256 as a free injective constructor; directories carry the empty digest. */
  datatype Digest = NoDigest | Sha256(data: Bytes)

  datatype Entry = Entry(kind: Kind, bytes: nat, sha256: Digest, mode: int)

  type Manifest = map<Path, Entry>

  function EntryOf(n: Node): Entry {
    match n
    case File(data, mode) => Entry(FileKind, |data|, Sha256(data), mode)
    case Directory(mode) => Entry(DirectoryKind, 0, NoDigest, mode)
  }

  function ManifestOf(t: Tree): Manifest {
    map p | p in t :: EntryOf(t[p])
  }

  lemma ManifestDeterminesTree(t: Tree, u: Tree)
    ensures ManifestOf(t) == ManifestOf(u) <==> t == u
  {
    if ManifestOf(t) == ManifestOf(u) {
      assert t.Keys == ManifestOf(t).Keys == ManifestOf(u).Keys == u.Keys;
      forall p | p in t ensures t[p] == u[p] {
        assert EntryOf(t[p]) == ManifestOf(t)[p] == ManifestOf(u)[p] == EntryOf(u[p]);
      }
    }
  }
}
