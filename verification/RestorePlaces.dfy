/** Installing an extracted backup over the managed trees, with rollback
    (src/archive_stream.cpp). */
module RestorePlaces {
  import opened Paths
  import opened FileTree
  import opened FileSystem
  import Extraction

  const STAGE_PREFIX := ".stmanager-restore-stage"

  // ---- Fixed places, relative to the destination root or to the stage ----

  const DATA: Path := ["data"]
  const STAGED_EXTENSIONS: Path := ["extensions"]
  const EXTENSIONS: Path := ["public", "scripts", "extensions", "third-party"]
  const GIT_MANIFEST: Path := [".stmanager", "extensions_git_manifest.json"]
  const OLD_DATA: Path := [".stmanager-restore-old-data"]
  const OLD_EXTENSIONS: Path := [".stmanager-restore-old-extensions"]

  lemma FixedNamesSafe()
    ensures SafeNames(DATA) && SafeNames(STAGED_EXTENSIONS) && SafeNames(EXTENSIONS)
    ensures SafeNames(GIT_MANIFEST) && SafeNames(OLD_DATA) && SafeNames(OLD_EXTENSIONS)
  {
  }

  /** The path string of a fixed place; the names are joined with slashes. */
  function Place(root: string, rel: Path): (path: string)
    requires rel != [] && SafeNames(rel)
    ensures Comps(path) == Comps(root) + rel && NoTrailingSlash(path)
  {
    CompsOfUnsplit(rel);
    UnsplitEnd(rel);
    JoinPath(root, Unsplit(rel))
  }

  /** The extensions path, as the restore and the backup spell it. */
  function ExtensionsPath(root: string): (path: string)
    ensures Comps(path) == Comps(root) + EXTENSIONS
  {
    FixedNamesSafe();
    Place(root, EXTENSIONS)
  }

  function ManifestPath(root: string): (path: string)
    ensures Comps(path) == Comps(root) + GIT_MANIFEST
  {
    FixedNamesSafe();
    Place(root, GIT_MANIFEST)
  }

  // ---- The places involved, from the destination root r and the stage s ----

  function DataAt(r: Path): Path { r + DATA }
  function ExtensionsAt(r: Path): Path { r + EXTENSIONS }
  function ManifestAt(r: Path): Path { r + GIT_MANIFEST }
  function StagedExtensionsAt(s: Path): Path { s + STAGED_EXTENSIONS }
  function OldDataAt(s: Path): Path { s + OLD_DATA }
  function OldExtensionsAt(s: Path): Path { s + OLD_EXTENSIONS }

  /** The tree g with d as its data and x as its extensions, and the directories above them. */
  function Replaced(g: Tree, data: Path, d: Tree, extensions: Path, x: Tree): Tree
    requires extensions != []
  {
    var cleared := Extraction.WithDirs(Without(Without(g, data), extensions), Parent(extensions));
    Graft(Graft(cleared, data, d), extensions, x)
  }

  /** The tree g with the managed trees below r exchanged for those of an extracted archive. */
  function Exchanged(g: Tree, r: Path, image: Tree): Tree {
    Replaced(g, DataAt(r), Subtree(image, DATA), ExtensionsAt(r), Subtree(image, STAGED_EXTENSIONS))
  }

  lemma ReplacedAt(g: Tree, data: Path, d: Tree, extensions: Path, x: Tree, k: Path)
    requires extensions != [] && Apart(data, extensions)
    ensures At(Replaced(g, data, d, extensions, x), k) ==
              if data <= k then At(d, k[|data|..])
              else if extensions <= k then At(x, k[|extensions|..])
              else if k in g then Some(g[k])
              else if k < extensions then Some(DirE) else None
  {
    if data <= k && extensions <= k {
      PrefixesMeet(data, extensions, k);
    }
    assert k < extensions <==> k <= Parent(extensions);
    assert extensions <= k ==> !(k <= Parent(extensions));
    assert data <= k && k <= Parent(extensions) ==> data <= extensions;
  }

  /** The stage is a directory that mkdtemp made in the destination root. */
  ghost predicate IsStage(r: Path, s: Path) {
    s != [] && Parent(s) == r && TempName(STAGE_PREFIX, s[|r|])
  }

  /** Beside the stage the tree is g. */
  ghost predicate BesideStage(s: Path, g: Tree, u: Tree) {
    forall k {:trigger At(u, k)} {:trigger At(g, k)} | !(s <= k) :: At(u, k) == At(g, k)
  }

  lemma ForkApart(p: Path, a: Path, b: Path)
    requires a != [] && b != [] && a[0] != b[0]
    ensures Apart(p + a, p + b)
  {
    assert (p + a)[|p|] == a[0] && (p + b)[|p|] == b[0];
  }

  lemma ApartBelow(a: Path, b: Path, b': Path)
    requires Apart(a, b) && b <= b'
    ensures Apart(a, b') && Apart(b', a)
  {
    if a <= b' { PrefixesMeet(a, b, b'); }
  }

  /** The managed places and the stage do not overlap. */
  lemma PlacesApart(r: Path, s: Path)
    requires IsStage(r, s)
    ensures Apart(DataAt(r), ExtensionsAt(r)) && Apart(DataAt(r), ManifestAt(r)) &&
            Apart(ExtensionsAt(r), ManifestAt(r))
    ensures Apart(DataAt(r), s) && Apart(ExtensionsAt(r), s) && Apart(ManifestAt(r), s)
  {
    ForkApart(r, DATA, EXTENSIONS);
    ForkApart(r, DATA, GIT_MANIFEST);
    ForkApart(r, EXTENSIONS, GIT_MANIFEST);
    var name := s[|r|];
    assert s == r + [name];
    assert name[0] == '.' && |name| > 10;
    ForkApart(r, DATA, [name]);
    ForkApart(r, EXTENSIONS, [name]);
    ForkApart(r, GIT_MANIFEST, [name]);
  }

  lemma StagedPlacesApart(s: Path)
    ensures Apart(DataAt(s), StagedExtensionsAt(s)) && Apart(DataAt(s), OldDataAt(s))
    ensures Apart(DataAt(s), OldExtensionsAt(s)) && Apart(StagedExtensionsAt(s), OldDataAt(s))
    ensures Apart(StagedExtensionsAt(s), OldExtensionsAt(s)) && Apart(OldDataAt(s), OldExtensionsAt(s))
    ensures Apart(ManifestAt(s), DataAt(s)) && Apart(ManifestAt(s), StagedExtensionsAt(s))
    ensures Apart(ManifestAt(s), OldDataAt(s)) && Apart(ManifestAt(s), OldExtensionsAt(s))
  {
    ForkApart(s, DATA, STAGED_EXTENSIONS);
    ForkApart(s, DATA, OLD_DATA);
    ForkApart(s, DATA, OLD_EXTENSIONS);
    ForkApart(s, STAGED_EXTENSIONS, OLD_DATA);
    ForkApart(s, STAGED_EXTENSIONS, OLD_EXTENSIONS);
    assert OLD_DATA[0][23] == 'd' && OLD_EXTENSIONS[0][23] == 'e';
    ForkApart(s, OLD_DATA, OLD_EXTENSIONS);
    ForkApart(s, GIT_MANIFEST, DATA);
    ForkApart(s, GIT_MANIFEST, STAGED_EXTENSIONS);
    ForkApart(s, GIT_MANIFEST, OLD_DATA);
    ForkApart(s, GIT_MANIFEST, OLD_EXTENSIONS);
  }
}
