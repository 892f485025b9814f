/** What the backup writer emits, the extractor turns back into the same trees. */
module RoundTrip {
  import opened Bytes
  import opened Paths
  import opened FileTree
  import opened FileSystem
  import opened PathWalk
  import opened PathSafety
  import opened FsOps
  import opened Extraction
  import opened Sorting
  import opened Backup
  import opened RestorePlaces
  import opened RestoreStage

  /** The tree at p without the children that are not named. */
  function Kept(t: Tree, p: Path, names: set<string>): (s: Tree)
    ensures forall q :: q in s <==> p + q in t && (q == [] || q[0] in names)
    ensures forall q :: q in s ==> s[q] == t[p + q]
  {
    map q | q in Subtree(t, p) && (q == [] || q[0] in names) :: Subtree(t, p)[q]
  }

  lemma {:induction false} ExtractedConcat(s: Tree, a: seq<ArchiveEntry>, b: seq<ArchiveEntry>)
    requires Extracted(s, a).Some?
    ensures Extracted(s, a + b) == Extracted(Extracted(s, a).value, b)
    decreases |a|
  {
    if a == [] {
      assert a + b == b;
    } else {
      assert (a + b)[0] == a[0] && (a + b)[1..] == a[1..] + b;
      ExtractedConcat(Placing(s, a[0]).value, a[1..], b);
    }
  }

  lemma ExtractedOne(s: Tree, e: ArchiveEntry)
    ensures Extracted(s, [e]) == Placing(s, e)
  {
    assert [e][1..] == [];
    if Placing(s, e).Some? {
      assert Extracted(Placing(s, e).value, []) == Placing(s, e);
    }
  }

  /** A path at which a new node can be placed. */
  ghost predicate Free(s: Tree, path: string) {
    && WellFormed(s) && ValidRelative(path) && NoTrailingSlash(path)
    && Comps(path) != [] && SafeNames(Comps(path)) && IsDir(s, Parent(Comps(path))) && Comps(path) !in s
  }

  lemma DirsPresent(s: Tree, p: Path)
    requires WellFormed(s) && IsDir(s, p)
    ensures OpenTo(s, p) && WithDirs(s, p) == s
  {
    forall i | 0 <= i <= |p| ensures IsDir(s, p[..i]) {
      if i < |p| {
        AncestorIsDir(s, p[..i], p);
      } else {
        assert p[..i] == p;
      }
    }
    forall k ensures At(WithDirs(s, p), k) == At(s, k) {
      if k <= p {
        assert k == p[..|k|];
      }
    }
    SameTree(WithDirs(s, p), s);
  }

  lemma PlaceDirectory(s: Tree, path: string)
    requires Free(s, path)
    ensures Placing(s, ArchiveEntry(path, Directory, [])) == Some(s[Comps(path) := DirE])
    ensures WellFormed(s[Comps(path) := DirE])
  {
    var c := Comps(path);
    DirsPresent(s, Parent(c));
    assert c[..|c|] == c;
    forall i | 0 <= i <= |c| && c[..i] in s ensures s[c[..i]].DirE? {
      if i < |c| {
        assert c[..i] == Parent(c)[..i];
      }
    }
    forall k ensures At(WithDirs(s, c), k) == At(s[c := DirE], k) {
      if k <= c && k != c {
        assert k == Parent(c)[..|k|];
      }
    }
    SameTree(WithDirs(s, c), s[c := DirE]);
    PutWellFormed(s, c, DirE);
  }

  lemma PlaceFile(s: Tree, path: string, bytes: seq<byte>)
    requires Free(s, path)
    ensures Placing(s, ArchiveEntry(path, Regular, bytes)) == Some(s[Comps(path) := FileE(bytes)])
    ensures WellFormed(s[Comps(path) := FileE(bytes)])
  {
    var c := Comps(path);
    assert Lead(path, false) == Parent(c);
    DirsPresent(s, Parent(c));
    PutWellFormed(s, c, FileE(bytes));
  }

  lemma GraftLeaf(s: Tree, c: Path, e: Entry)
    requires WellFormed(s) && c !in s
    ensures Graft(s, c, map[[] := e]) == s[c := e]
  {
    EmptySubtree(s, c);
    forall k ensures At(Graft(s, c, map[[] := e]), k) == At(s[c := e], k) {
      if c <= k && k[|c|..] == [] {
        assert k == c;
      }
      assert c[|c|..] == [];
    }
    SameTree(Graft(s, c, map[[] := e]), s[c := e]);
  }

  lemma {:induction false} NodeExtracts(t: Tree, p: Path, path: string, s: Tree)
    requires WellFormed(t) && Archivable(t, p) && Free(s, path)
    ensures Extracted(s, ListNode(t, p, path)) == Some(Graft(s, Comps(path), Subtree(t, p)))
    ensures WellFormed(Graft(s, Comps(path), Subtree(t, p)))
    decreases Below(t, p), 1, 0
  {
    var c := Comps(path);
    assert p <= p && !IsLink(t, p);
    match t[p]
    case FileE(bytes) =>
      FileSubtree(t, p, bytes);
      PlaceFile(s, path, bytes);
      ExtractedOne(s, ArchiveEntry(path, Regular, bytes));
      GraftLeaf(s, c, FileE(bytes));
    case DirE =>
      AllChildrenKept(t, p);
      ArchivableDirectory(t, p);
      DirectoryExtracts(t, p, path, s, ChildNames(t, p));
  }

  /** A directory with some of its children, as the writer lists it. */
  lemma {:induction false} DirectoryExtracts(t: Tree, p: Path, path: string, s: Tree, names: set<string>)
    requires WellFormed(t) && IsDir(t, p) && Free(s, path)
    requires names <= ChildNames(t, p) && ChildrenArchivable(t, p, names)
    ensures var entries := [ArchiveEntry(path, Directory, [])] + ListChildren(t, p, path, Sorted(names));
            Extracted(s, entries) == Some(Graft(s, Comps(path), Kept(t, p, names)))
    ensures WellFormed(Graft(s, Comps(path), Kept(t, p, names)))
    decreases Below(t, p), 0, 1, 0
  {
    var c, head, sorted := Comps(path), [ArchiveEntry(path, Directory, [])], Sorted(names);
    PlaceDirectory(s, path);
    ExtractedOne(s, head[0]);
    GraftLeaf(s, c, DirE);
    NoChildrenKept(t, p);
    ExtractedConcat(s, head, ListChildren(t, p, path, sorted));
    AscendingDistinct(sorted);
    ChildrenExtract(t, p, path, sorted, s, {});
    assert {} + Elems(sorted) == names;
  }

  lemma AscendingDistinct(names: seq<string>)
    requires Ascending(names)
    ensures forall i, j | 0 <= i < j < |names| :: names[i] != names[j]
  {
    forall i, j | 0 <= i < j < |names| ensures names[i] != names[j] {
      LessIrreflexive(names[i]);
    }
  }

  lemma FileSubtree(t: Tree, p: Path, bytes: seq<byte>)
    requires WellFormed(t) && p in t && t[p] == FileE(bytes)
    ensures Subtree(t, p) == map[[] := FileE(bytes)]
  {
    FileHasNothingBelow(t, p);
    forall q: Path ensures q in Subtree(t, p) <==> q == [] {
      assert p + [] == p;
      if p + q in t {
        assert p + q == p;
        assert |p + q| == |p| + |q|;
      }
    }
  }

  lemma NoChildrenKept(t: Tree, p: Path)
    requires IsDir(t, p)
    ensures Kept(t, p, {}) == map[[] := DirE]
  {
    assert p + [] == p;
  }

  lemma AllChildrenKept(t: Tree, p: Path)
    requires WellFormed(t)
    ensures Kept(t, p, ChildNames(t, p)) == Subtree(t, p)
  {
    forall q | p + q in t ensures q == [] || q[0] in ChildNames(t, p) {
      if q != [] {
        TopNameIsChild(t, p, q);
      }
    }
    assert forall q :: q in Kept(t, p, ChildNames(t, p)) <==> q in Subtree(t, p);
  }

  ghost predicate Listable(t: Tree, p: Path, names: seq<string>) {
    && Elems(names) <= ChildNames(t, p) && ChildrenArchivable(t, p, Elems(names))
    && forall i, j | 0 <= i < j < |names| :: names[i] != names[j]
  }

  /** The children still to come, after those in done. */
  lemma {:induction false} ChildrenExtract(t: Tree, p: Path, path: string, names: seq<string>, s: Tree,
                                           done: set<string>)
    requires WellFormed(t) && IsDir(t, p) && Free(s, path)
    requires Listable(t, p, names)
    requires Elems(names) !! done && WellFormed(Graft(s, Comps(path), Kept(t, p, done)))
    ensures Extracted(Graft(s, Comps(path), Kept(t, p, done)), ListChildren(t, p, path, names)) ==
            Some(Graft(s, Comps(path), Kept(t, p, done + Elems(names))))
    ensures WellFormed(Graft(s, Comps(path), Kept(t, p, done + Elems(names))))
    decreases Below(t, p), 0, 0, |names|
  {
    if names == [] {
      assert done + Elems(names) == done;
    } else {
      SplitNames(t, p, names, done);
      ChildExtracts(t, p, path, names[0], s, done);
      ListChildrenExtracted(t, p, path, names, Graft(s, Comps(path), Kept(t, p, done)));
      ChildrenExtract(t, p, path, names[1..], s, done + {names[0]});
    }
  }

  lemma ListChildrenExtracted(t: Tree, p: Path, path: string, names: seq<string>, now: Tree)
    requires WellFormed(t) && p in t && names != [] && Elems(names) <= ChildNames(t, p)
    requires p + [names[0]] in t && Elems(names[1..]) <= ChildNames(t, p)
    requires Extracted(now, ListNode(t, p + [names[0]], JoinPath(path, names[0]))).Some?
    ensures Extracted(now, ListChildren(t, p, path, names)) ==
            Extracted(Extracted(now, ListNode(t, p + [names[0]], JoinPath(path, names[0]))).value,
                      ListChildren(t, p, path, names[1..]))
  {
    ExtractedConcat(now, ListNode(t, p + [names[0]], JoinPath(path, names[0])), ListChildren(t, p, path, names[1..]));
  }

  /** One child more. */
  lemma {:induction false} ChildExtracts(t: Tree, p: Path, path: string, name: string, s: Tree, done: set<string>)
    requires WellFormed(t) && IsDir(t, p) && Free(s, path)
    requires name in ChildNames(t, p) && p + [name] in t && Archivable(t, p + [name]) && name !in done
    requires WellFormed(Graft(s, Comps(path), Kept(t, p, done)))
    ensures Extracted(Graft(s, Comps(path), Kept(t, p, done)), ListNode(t, p + [name], JoinPath(path, name))) ==
            Some(Graft(s, Comps(path), Kept(t, p, done + {name})))
    ensures WellFormed(Graft(s, Comps(path), Kept(t, p, done + {name})))
    decreases Below(t, p), 0, 0, 0
  {
    ChildBelow(t, p, name);
    ChildFree(t, p, path, s, done, name);
    NodeExtracts(t, p + [name], JoinPath(path, name), Graft(s, Comps(path), Kept(t, p, done)));
    GraftChild(t, p, s, Comps(path), done, name);
  }

  lemma SplitNames(t: Tree, p: Path, names: seq<string>, done: set<string>)
    requires names != [] && Listable(t, p, names)
    ensures done + {names[0]} + Elems(names[1..]) == done + Elems(names)
    ensures names[0] in Elems(names) && names[0] !in Elems(names[1..]) && Elems(names[1..]) <= Elems(names)
    ensures names[0] in ChildNames(t, p) && Archivable(t, p + [names[0]]) && Listable(t, p, names[1..])
  {
    assert names == [names[0]] + names[1..];
    assert names[0] in Elems(names);
    forall n | n in Elems(names[1..]) ensures n in Elems(names) {
      assert n in names;
    }
  }

  lemma ChildFree(t: Tree, p: Path, path: string, s: Tree, done: set<string>, name: string)
    requires IsDir(t, p) && Free(s, path) && SafeName(name) && name !in done
    requires WellFormed(Graft(s, Comps(path), Kept(t, p, done)))
    ensures Free(Graft(s, Comps(path), Kept(t, p, done)), JoinPath(path, name))
    ensures Comps(JoinPath(path, name)) == Comps(path) + [name]
  {
    var c := Comps(path);
    var now := Graft(s, c, Kept(t, p, done));
    ValidRelativeChild(path, name);
    assert name[|name| - 1] in name;
    assert p + [] == p && c[|c|..] == [] && [] in Kept(t, p, done);
    assert At(now, c) == Some(DirE);
    EmptySubtree(s, c);
    assert (c + [name])[|c|..] == [name];
    assert At(now, c + [name]) == None;
    assert Parent(c + [name]) == c;
  }

  /** all is kept with the tree sub added under the name. */
  ghost predicate Joins(all: Tree, kept: Tree, name: string, sub: Tree) {
    && (forall q {:trigger At(all, q)} | q != [] && q[0] == name :: At(all, q) == At(sub, q[1..]) && q !in kept)
    && (forall q {:trigger At(all, q)} | q == [] || q[0] != name :: At(all, q) == At(kept, q))
  }

  lemma GraftJoins(s: Tree, c: Path, all: Tree, kept: Tree, name: string, sub: Tree)
    requires Joins(all, kept, name, sub) && forall k | c <= k :: k !in s
    ensures Graft(Graft(s, c, kept), c + [name], sub) == Graft(s, c, all)
  {
    var u, v := Graft(Graft(s, c, kept), c + [name], sub), Graft(s, c, all);
    forall k ensures At(u, k) == At(v, k) {
      if c <= k {
        var q := k[|c|..];
        assert At(v, k) == At(all, q);
        assert At(Graft(s, c, kept), k) == At(kept, q);
        if q != [] && q[0] == name {
          assert c + [name] <= k && k[|c + [name]|..] == q[1..];
        } else {
          assert !(c + [name] <= k);
        }
      } else {
        assert !(c + [name] <= k);
      }
    }
    SameTree(u, v);
  }

  lemma KeptAt(t: Tree, p: Path, names: set<string>, q: Path)
    ensures At(Kept(t, p, names), q) == if q == [] || q[0] in names then At(t, p + q) else None
  {
  }

  lemma KeptJoins(t: Tree, p: Path, done: set<string>, name: string)
    requires name !in done
    ensures Joins(Kept(t, p, done + {name}), Kept(t, p, done), name, Subtree(t, p + [name]))
  {
    var all, kept, sub := Kept(t, p, done + {name}), Kept(t, p, done), Subtree(t, p + [name]);
    forall q: Path | q != [] && q[0] == name ensures At(all, q) == At(sub, q[1..]) && q !in kept {
      KeptAt(t, p, done + {name}, q);
      SubtreeAt(t, p, name, q);
    }
    forall q: Path | q == [] || q[0] != name ensures At(all, q) == At(kept, q) {
      KeptAt(t, p, done + {name}, q);
      KeptAt(t, p, done, q);
    }
  }

  lemma SubtreeAt(t: Tree, p: Path, name: string, q: Path)
    requires q != [] && q[0] == name
    ensures At(Subtree(t, p + [name]), q[1..]) == At(t, p + q)
  {
    assert p + q == p + [name] + q[1..];
  }

  lemma GraftChild(t: Tree, p: Path, s: Tree, c: Path, done: set<string>, name: string)
    requires WellFormed(s) && c !in s && name !in done
    ensures Graft(Graft(s, c, Kept(t, p, done)), c + [name], Subtree(t, p + [name])) ==
            Graft(s, c, Kept(t, p, done + {name}))
  {
    EmptySubtree(s, c);
    KeptJoins(t, p, done, name);
    GraftJoins(s, c, Kept(t, p, done + {name}), Kept(t, p, done), name, Subtree(t, p + [name]));
  }

  // ---- Everything an archive of entries can say about its paths ----

  /** No entry of an archive that extracts has a path the validation refuses. */
  lemma {:induction false} ExtractedPathsValid(s: Tree, entries: seq<ArchiveEntry>)
    requires Extracted(s, entries).Some?
    ensures forall e | e in entries :: ValidRelative(e.path) && e.kind != Unsupported
    decreases |entries|
  {
    if entries != [] {
      assert entries == [entries[0]] + entries[1..];
      ExtractedPathsValid(Placing(s, entries[0]).value, entries[1..]);
    }
  }
}

/** The whole backup: data, third-party extensions and, in git mode, the manifest. */
module BackupImage {
  import opened Bytes
  import opened Paths
  import opened FileTree
  import opened FileSystem
  import opened PathSafety
  import opened Extraction
  import opened Backup
  import opened Sorting
  import opened RestorePlaces
  import opened RestoreStage
  import opened RoundTrip

  const DATA_ENTRY := "data"
  const EXTENSIONS_ENTRY := "extensions"

  function ManifestEntry(bytes: seq<byte>): ArchiveEntry {
    ArchiveEntry(Unsplit(GIT_MANIFEST), Regular, bytes)
  }

  function ManifestEntries(manifest: Option<seq<byte>>): seq<ArchiveEntry> {
    if manifest.Some? then [ManifestEntry(manifest.value)] else []
  }

  /** What write_backup_archive emits for data at d and extensions at e. */
  ghost function BackupEntries(t: Tree, d: Path, e: Path, skipped: set<string>, manifest: Option<seq<byte>>)
    : seq<ArchiveEntry>
    requires WellFormed(t) && d in t && e in t
  {
    ListNode(t, d, DATA_ENTRY) + ListExtensions(t, e, EXTENSIONS_ENTRY, skipped) + ManifestEntries(manifest)
  }

  lemma EntryPaths()
    ensures Comps(DATA_ENTRY) == DATA && Comps(EXTENSIONS_ENTRY) == STAGED_EXTENSIONS
    ensures ValidRelative(DATA_ENTRY) && ValidRelative(EXTENSIONS_ENTRY)
    ensures NoTrailingSlash(DATA_ENTRY) && NoTrailingSlash(EXTENSIONS_ENTRY)
  {
    CompsOfName(DATA_ENTRY);
    CompsOfName(EXTENSIONS_ENTRY);
    SplitNoSlash(DATA_ENTRY);
    SplitNoSlash(EXTENSIONS_ENTRY);
  }

  /** What the entries before the manifest are extracted to. */
  ghost function Trees(t: Tree, d: Path, e: Path, names: set<string>): Tree {
    Graft(Graft(EMPTY_STAGE, DATA, Subtree(t, d)), STAGED_EXTENSIONS, Kept(t, e, names))
  }

  lemma TreesAt(t: Tree, d: Path, e: Path, names: set<string>, k: Path)
    ensures At(Trees(t, d, e, names), k) ==
            if k == [] then Some(DirE)
            else if k[0] == DATA[0] then At(Subtree(t, d), k[1..])
            else if k[0] == STAGED_EXTENSIONS[0] then At(Kept(t, e, names), k[1..])
            else None
  {
    if k != [] {
      assert DATA <= k <==> k[0] == DATA[0];
      assert STAGED_EXTENSIONS <= k <==> k[0] == STAGED_EXTENSIONS[0];
    }
  }

  lemma TopIsFree(s: Tree, path: string, p: Path)
    requires WellFormed(s) && ValidRelative(path) && NoTrailingSlash(path)
    requires Comps(path) == p && SafeNames(p) && |p| == 1 && p !in s
    ensures Free(s, path)
  {
    assert Parent(p) == [];
  }

  lemma EmptyStageWellFormed()
    ensures WellFormed(EMPTY_STAGE) && DATA !in EMPTY_STAGE
  {
  }

  lemma SecondIsFree(t: Tree, d: Path)
    requires WellFormed(Graft(EMPTY_STAGE, DATA, Subtree(t, d)))
    ensures Free(Graft(EMPTY_STAGE, DATA, Subtree(t, d)), EXTENSIONS_ENTRY)
  {
    EntryPaths();
    FixedNamesSafe();
    var u := Graft(EMPTY_STAGE, DATA, Subtree(t, d));
    assert At(u, STAGED_EXTENSIONS) == None;
    TopIsFree(u, EXTENSIONS_ENTRY, STAGED_EXTENSIONS);
  }

  lemma TreesExtract(t: Tree, d: Path, e: Path, skipped: set<string>)
    requires WellFormed(t) && Archivable(t, d) && IsDir(t, e)
    requires ChildrenArchivable(t, e, ChildNames(t, e) - skipped)
    ensures Extracted(EMPTY_STAGE, ListNode(t, d, DATA_ENTRY) + ListExtensions(t, e, EXTENSIONS_ENTRY, skipped)) ==
            Some(Trees(t, d, e, ChildNames(t, e) - skipped))
    ensures WellFormed(Trees(t, d, e, ChildNames(t, e) - skipped))
  {
    EntryPaths();
    FixedNamesSafe();
    EmptyStageWellFormed();
    TopIsFree(EMPTY_STAGE, DATA_ENTRY, DATA);
    NodeExtracts(t, d, DATA_ENTRY, EMPTY_STAGE);
    SecondIsFree(t, d);
    var u := Graft(EMPTY_STAGE, DATA, Subtree(t, d));
    DirectoryExtracts(t, e, EXTENSIONS_ENTRY, u, ChildNames(t, e) - skipped);
    ExtractedConcat(EMPTY_STAGE, ListNode(t, d, DATA_ENTRY), ListExtensions(t, e, EXTENSIONS_ENTRY, skipped));
  }

  // ---- The manifest ----

  /** u with the manifest and its directory. */
  function WithManifest(u: Tree, manifest: Option<seq<byte>>): Tree {
    if manifest.Some? then WithDirs(u, Parent(GIT_MANIFEST))[GIT_MANIFEST := FileE(manifest.value)] else u
  }

  ghost predicate NoStateDirectory(u: Tree) {
    IsDir(u, []) && forall k | k in u && k != [] :: k[0] != GIT_MANIFEST[0]
  }

  lemma ManifestPath()
    ensures Comps(Unsplit(GIT_MANIFEST)) == GIT_MANIFEST && ValidRelative(Unsplit(GIT_MANIFEST))
    ensures Lead(Unsplit(GIT_MANIFEST), false) == Parent(GIT_MANIFEST)
  {
    FixedNamesSafe();
    CompsOfUnsplit(GIT_MANIFEST);
    ValidRelativeMeaning(Unsplit(GIT_MANIFEST));
  }

  lemma StateDirectoryOpen(u: Tree, p: Path)
    requires NoStateDirectory(u) && |p| == 1 && p[0] == GIT_MANIFEST[0]
    ensures OpenTo(u, p)
  {
    assert p[..0] == [] && p[..1] == p;
  }

  lemma ManifestPlaced(u: Tree, manifest: seq<byte>)
    requires NoStateDirectory(u)
    ensures Placing(u, ManifestEntry(manifest)) == Some(WithManifest(u, Some(manifest)))
  {
    ManifestPath();
    StateDirectoryOpen(u, Parent(GIT_MANIFEST));
    assert At(WithDirs(u, Parent(GIT_MANIFEST)), GIT_MANIFEST) == None;
  }

  lemma ManifestAdds(u: Tree, manifest: Option<seq<byte>>, k: Path)
    requires NoStateDirectory(u)
    ensures k == [] || k[0] != GIT_MANIFEST[0] ==> At(WithManifest(u, manifest), k) == At(u, k)
    ensures k == GIT_MANIFEST ==>
            At(WithManifest(u, manifest), k) == if manifest.Some? then Some(FileE(manifest.value)) else None
    ensures GIT_MANIFEST < k ==> At(WithManifest(u, manifest), k) == None
  {
    if manifest.Some? {
      var lead := Parent(GIT_MANIFEST);
      assert lead == [GIT_MANIFEST[0]];
      if k != [] && k[0] != GIT_MANIFEST[0] {
        assert !(k <= lead) && k != GIT_MANIFEST;
      }
    }
  }

  // ---- The round trip of a whole backup ----

  /** Extracting a backup gives back the data tree, the third-party tree without the skipped
      children (at its top level only), and the manifest; and nothing else. */
  ghost predicate IsImage(t: Tree, d: Path, e: Path, names: set<string>, manifest: Option<seq<byte>>, image: Tree) {
    && Subtree(image, DATA) == Subtree(t, d)
    && Subtree(image, STAGED_EXTENSIONS) == Kept(t, e, names)
    && Subtree(image, GIT_MANIFEST) == (if manifest.Some? then map[[] := FileE(manifest.value)] else map[])
    && (forall k | k in image && k != [] :: k[0] in {DATA[0], STAGED_EXTENSIONS[0], GIT_MANIFEST[0]})
  }

  lemma TreesHaveNoStateDirectory(t: Tree, d: Path, e: Path, names: set<string>)
    ensures NoStateDirectory(Trees(t, d, e, names))
  {
    TreesAt(t, d, e, names, []);
    forall k | k in Trees(t, d, e, names) && k != [] ensures k[0] != GIT_MANIFEST[0] {
      TreesAt(t, d, e, names, k);
    }
  }

  lemma ImageOfTrees(t: Tree, d: Path, e: Path, names: set<string>, manifest: Option<seq<byte>>)
    ensures IsImage(t, d, e, names, manifest, WithManifest(Trees(t, d, e, names), manifest))
  {
    TreesHaveNoStateDirectory(t, d, e, names);
    ImagePart(t, d, e, names, manifest, DATA);
    ImagePart(t, d, e, names, manifest, STAGED_EXTENSIONS);
    ManifestPart(Trees(t, d, e, names), manifest);
    forall k | k in WithManifest(Trees(t, d, e, names), manifest) && k != []
      ensures k[0] in {DATA[0], STAGED_EXTENSIONS[0], GIT_MANIFEST[0]}
    {
      ManifestAdds(Trees(t, d, e, names), manifest, k);
      TreesAt(t, d, e, names, k);
    }
  }

  lemma ImagePart(t: Tree, d: Path, e: Path, names: set<string>, manifest: Option<seq<byte>>, place: Path)
    requires place == DATA || place == STAGED_EXTENSIONS
    ensures Subtree(WithManifest(Trees(t, d, e, names), manifest), place) ==
            if place == DATA then Subtree(t, d) else Kept(t, e, names)
  {
    var part := Subtree(WithManifest(Trees(t, d, e, names), manifest), place);
    var expected := if place == DATA then Subtree(t, d) else Kept(t, e, names);
    forall q ensures At(part, q) == At(expected, q) {
      ImageBelow(t, d, e, names, manifest, place, q);
    }
    SameTree(part, expected);
  }

  lemma ManifestPart(u: Tree, manifest: Option<seq<byte>>)
    requires NoStateDirectory(u)
    ensures Subtree(WithManifest(u, manifest), GIT_MANIFEST) ==
            if manifest.Some? then map[[] := FileE(manifest.value)] else map[]
  {
    var file: Tree := if manifest.Some? then map[[] := FileE(manifest.value)] else map[];
    forall q ensures At(Subtree(WithManifest(u, manifest), GIT_MANIFEST), q) == At(file, q) {
      ManifestBelow(u, manifest, q);
    }
    SameTree(Subtree(WithManifest(u, manifest), GIT_MANIFEST), file);
  }

  lemma ImageBelow(t: Tree, d: Path, e: Path, names: set<string>, manifest: Option<seq<byte>>, place: Path, q: Path)
    requires place == DATA || place == STAGED_EXTENSIONS
    ensures At(Subtree(WithManifest(Trees(t, d, e, names), manifest), place), q) ==
            if place == DATA then At(Subtree(t, d), q) else At(Kept(t, e, names), q)
  {
    TreesHaveNoStateDirectory(t, d, e, names);
    ManifestAdds(Trees(t, d, e, names), manifest, place + q);
    TreesAt(t, d, e, names, place + q);
    assert (place + q)[1..] == q;
  }

  lemma ManifestBelow(u: Tree, manifest: Option<seq<byte>>, q: Path)
    requires NoStateDirectory(u)
    ensures At(Subtree(WithManifest(u, manifest), GIT_MANIFEST), q) ==
            if manifest.Some? && q == [] then Some(FileE(manifest.value)) else None
  {
    ManifestAdds(u, manifest, GIT_MANIFEST + q);
    if q == [] {
      assert GIT_MANIFEST + q == GIT_MANIFEST;
    } else {
      assert GIT_MANIFEST < GIT_MANIFEST + q;
    }
  }

  lemma BackupRoundTrip(t: Tree, d: Path, e: Path, skipped: set<string>, manifest: Option<seq<byte>>)
    requires WellFormed(t) && Archivable(t, d) && IsDir(t, e)
    requires ChildrenArchivable(t, e, ChildNames(t, e) - skipped)
    ensures var extracted := Extracted(EMPTY_STAGE, BackupEntries(t, d, e, skipped, manifest));
            && extracted.Some?
            && IsImage(t, d, e, ChildNames(t, e) - skipped, manifest, extracted.value)
    ensures forall x | x in BackupEntries(t, d, e, skipped, manifest) :: ValidRelative(x.path) && x.kind != Unsupported
  {
    var names := ChildNames(t, e) - skipped;
    var first := ListNode(t, d, DATA_ENTRY) + ListExtensions(t, e, EXTENSIONS_ENTRY, skipped);
    TreesExtract(t, d, e, skipped);
    TreesHaveNoStateDirectory(t, d, e, names);
    ExtractedConcat(EMPTY_STAGE, first, ManifestEntries(manifest));
    if manifest.Some? {
      ManifestPlaced(Trees(t, d, e, names), manifest.value);
      ExtractedOne(Trees(t, d, e, names), ManifestEntry(manifest.value));
    }
    ImageOfTrees(t, d, e, names, manifest);
    ExtractedPathsValid(EMPTY_STAGE, BackupEntries(t, d, e, skipped, manifest));
  }

  /** The image of a backup of two directories has everything a restore needs, and nothing in its way. */
  lemma ImageInstallable(t: Tree, d: Path, e: Path, names: set<string>, manifest: Option<seq<byte>>, image: Tree)
    requires IsImage(t, d, e, names, manifest, image) && IsDir(t, d) && IsDir(t, e)
    ensures IsDir(image, DATA) && IsDir(image, STAGED_EXTENSIONS) && !IsDir(image, GIT_MANIFEST)
    ensures OLD_DATA !in image && OLD_EXTENSIONS !in image
    ensures GIT_MANIFEST in image <==> manifest.Some?
  {
    RootOf(t, d, image, DATA);
    assert e + [] == e && [] in Kept(t, e, names) && Kept(t, e, names)[[]] == DirE;
    assert STAGED_EXTENSIONS + [] == STAGED_EXTENSIONS && [] in Subtree(image, STAGED_EXTENSIONS);
    assert GIT_MANIFEST + [] == GIT_MANIFEST;
    assert GIT_MANIFEST in image <==> [] in Subtree(image, GIT_MANIFEST);
    OldNamesDiffer();
  }

  lemma RootOf(t: Tree, d: Path, image: Tree, place: Path)
    requires Subtree(image, place) == Subtree(t, d) && IsDir(t, d)
    ensures IsDir(image, place)
  {
    assert d + [] == d && place + [] == place;
    assert [] in Subtree(t, d) && Subtree(t, d)[[]] == DirE;
  }

  lemma OldNamesDiffer()
    ensures OLD_DATA[0] !in {DATA[0], STAGED_EXTENSIONS[0], GIT_MANIFEST[0]}
    ensures OLD_EXTENSIONS[0] !in {DATA[0], STAGED_EXTENSIONS[0], GIT_MANIFEST[0]}
  {
  }
}
