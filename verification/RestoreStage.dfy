/** The root and the stage of a restore (src/archive_stream.cpp, src/fs_ops.cpp). */
module RestoreStage {
  import opened Bytes
  import opened Paths
  import opened FileTree
  import opened PathWalk
  import opened Ways
  import opened FileSystem
  import opened PathSafety
  import opened FsOps
  import opened Extraction
  import opened RestorePlaces

  /** An archive as the reading library presents it. */
  datatype Archive = Archive(readable: bool, intact: bool, entries: seq<ArchiveEntry>)

  /** What extraction into an empty directory starts from. */
  const EMPTY_STAGE: Tree := map[[] := DirE]

  /** What the archive holds, if it can be extracted. */
  function Image(archive: Archive): Option<Tree> {
    Extracted(EMPTY_STAGE, archive.entries)
  }

  // ---- The root ----

  /** The directories of the root were made, as far as they were missing. */
  ghost predicate RootMade(t: Tree, g: Tree, root: string) {
    && WellFormed(g) && OnlyDirsAdded(t, g)
    && (root == "" || NamesDir(t, root) ==> g == t)
    && (FollowAimed(t, Comps(root)) ==> Grown(t, g, FollowEnd(t, Comps(root))))
  }

  /** The root is behind a link. */
  ghost predicate RootLinked(g: Tree, root: string) {
    Crossed(g, Comps(root))
  }

  /** Every root that leads to a directory is behind a link, or reached name by name. */
  lemma RootIsRealOrLinked(g: Tree, root: string)
    requires WellFormed(g) && LeadsToDir(g, Comps(root))
    ensures RootLinked(g, root) || (RealWay(g, Comps(root)) && End(Comps(root)) == LedTo(g, Comps(root)))
  {
    DirIsRealOrCrossed(g, Comps(root));
    if RealWay(g, Comps(root)) {
      RealWalk(g, Comps(root), true, MAX_LINKS);
    }
  }

  /** The root is there or can be made, and not every name for a stage in it is taken. */
  ghost predicate HasRoom(t: Tree, g: Tree, root: string) {
    && root != "" && Creatable(t, Comps(root))
    && (LeadsToDir(g, Comps(root)) ==> RoomFor(g, LedTo(g, Comps(root)), STAGE_PREFIX))
  }

  /** The contract of making the root. */
  lemma RootIsMade(t: Tree, g: Tree, root: string, ok: bool, reliable: bool)
    requires WellFormed(g) && OnlyDirsAdded(t, g) && root != "" && (ok ==> NamesDir(g, root))
    requires FollowAimed(t, Comps(root)) ==> Grown(t, g, FollowEnd(t, Comps(root)))
    requires NamesDir(t, root) ==> ok && g == t
    requires reliable && Creatable(t, Comps(root)) ==> ok
    ensures RootMade(t, g, root) && (ok ==> LeadsToDir(g, Comps(root)))
    ensures reliable && HasRoom(t, g, root) ==> ok
  {
    hide FollowEnd, FollowAimed, Creatable, Grown, OnlyDirsAdded, RoomFor;
  }

  /** Making the root again changes nothing. */
  lemma RootMadeAgain(g: Tree, g': Tree, t: Tree, root: string)
    requires RootMade(g, g', root) && LeadsToDir(g, Comps(root)) && WellFormed(g) && root != ""
    ensures g' == g && (HasRoom(t, g, root) ==> RoomFor(g, LedTo(g, Comps(root)), STAGE_PREFIX))
    ensures Creatable(g, Comps(root))
  {
    hide FollowEnd, FollowAimed, Grown, OnlyDirsAdded, RoomFor, Comps;
  }

  // ---- The stage ----

  /** A root that is there, and a free place in it with a path for a stage. */
  ghost predicate StageFor(g: Tree, root: string, r: Path, stage: string, s: Path) {
    && WellFormed(g) && Where(g, root, true) == Spot(r) && IsDir(g, r)
    && IsStage(r, s) && s !in g && stage == JoinPath(root, s[|r|]) && Comps(stage) == Comps(root) + [s[|r|]]
  }

  /** The stage stands there, and beside it the tree is g. */
  ghost predicate Staging(g: Tree, u: Tree, s: Path) {
    WellFormed(u) && IsDir(u, s) && BesideStage(s, g, u)
  }

  /** create_temp_directory_under for the stage; g is the tree with the root made. */
  method MakeStage(fs: FileSystem, root: string)
    returns (ok: bool, stage: string, ghost g: Tree, ghost s: Path)
    requires fs.Valid()
    modifies fs
    ensures fs.Valid() && RootMade(old(fs.tree), g, root)
    ensures !ok ==> fs.tree == g
    ensures ok ==> && LeadsToDir(g, Comps(root)) && StageFor(g, root, LedTo(g, Comps(root)), stage, s)
                   && Staging(g, fs.tree, s) && Subtree(fs.tree, s) == EMPTY_STAGE
    ensures (fs.reliable && root != "" && Creatable(old(fs.tree), Comps(root)) &&
             (LeadsToDir(g, Comps(root)) ==> RoomFor(g, LedTo(g, Comps(root)), STAGE_PREFIX))) ==> ok
  {
    hide Walk, Suffixes, FollowEnd, FollowAimed, Creatable, Comps, RoomFor;
    stage, s := "", [];
    ok := EnsureDirectoryTreeFollowing(fs, root);
    g := fs.tree;
    if !ok {
      return;
    }
    RootNamed(g, root);
    StagePrefixSafe();
    ghost var r, name := Where(g, root, true).loc, "";
    ok, stage, name := fs.Mkdtemp(root, STAGE_PREFIX);
    if ok {
      s := r + [name];
      StageNamed(g, root, r, stage, name);
      FreshDirectory(g, fs.tree, s);
    }
  }

  lemma RootNamed(g: Tree, root: string)
    requires NamesDir(g, root)
    ensures LeadsToDir(g, Comps(root)) && Where(g, root, true) == Spot(LedTo(g, Comps(root)))
    ensures IsDir(g, LedTo(g, Comps(root)))
  {
  }

  lemma StagePrefixSafe()
    ensures SafeName(STAGE_PREFIX)
  {
  }

  lemma StageNamed(g: Tree, root: string, r: Path, stage: string, name: string)
    requires WellFormed(g) && Where(g, root, true) == Spot(r) && IsDir(g, r) && r + [name] !in g
    requires TempName(STAGE_PREFIX, name) && stage == JoinPath(root, name)
    ensures StageFor(g, root, r, stage, r + [name])
  {
    hide Walk, Comps;
    CompsOfName(name);
    assert Parent(r + [name]) == r && (r + [name])[|r|] == name;
  }

  lemma FreshDirectory(g: Tree, u: Tree, s: Path)
    requires WellFormed(g) && WellFormed(u) && s !in g && u == g[s := DirE]
    ensures Subtree(u, s) == EMPTY_STAGE && Staging(g, u, s)
  {
    EmptySubtree(g, s);
    assert s + [] == s;
    forall q: Path ensures q in Subtree(u, s) <==> q == [] {
      assert s + q in u <==> s + q == s;
      assert |s + q| == |s| + |q|;
    }
    forall k | !(s <= k) ensures At(u, k) == At(g, k) {}
  }

  /** Beside a stage, a root is reached as before; and so is the stage in it, also once it is emptied. */
  lemma StageReached(g: Tree, u: Tree, root: string, r: Path, stage: string, s: Path)
    requires StageFor(g, root, r, stage, s) && Staging(g, u, s)
    ensures Where(u, root, true) == Spot(r) && IsDir(u, r) && Extends(g, u)
    ensures Where(u, stage, true) == Spot(s) && StageFound(u, stage, s)
  {
    hide Walk, Comps;
    var e := Emptied(u, s);
    EmptiedWellFormed(u, s);
    forall k | k in g ensures k in e && e[k] == g[k] && k in u && u[k] == g[k] {
      NotInStage(g, s, k);
      assert At(u, k) == At(g, k);
    }
    WalkStable(g, e, [], Comps(root), true, MAX_LINKS);
    WalkStable(g, u, [], Comps(root), true, MAX_LINKS);
    StageInRoot(u, root, r, stage, s);
  }

  lemma NotInStage(g: Tree, s: Path, k: Path)
    requires WellFormed(g) && s !in g && k in g
    ensures !(s <= k)
  {
    EmptySubtree(g, s);
  }

  /** The path of the stage names it, and can be removed if nothing fails. */
  ghost predicate StageFound(u: Tree, stage: string, s: Path) {
    Found(u, stage) && SourceLoc(u, stage) == s && s != [] && Settled(u, stage)
  }

  lemma StageInRoot(u: Tree, root: string, r: Path, stage: string, s: Path)
    requires WellFormed(u) && IsStage(r, s) && IsDir(u, s) && stage == JoinPath(root, s[|r|])
    requires Where(Emptied(u, s), root, true) == Spot(r) && IsDir(Emptied(u, s), r)
    ensures StageFound(u, stage, s) && Where(u, stage, true) == Spot(s)
  {
    hide Walk, Comps;
    var e := Emptied(u, s);
    EmptiedWellFormed(u, s);
    assert s == r + [s[|r|]];
    ChildFound(e, root, r, s[|r|]);
    FoundStays(e, u, stage);
    FoundNoLink(u, stage);
  }

  /** Extraction into the fresh stage. */
  method Unpack(fs: FileSystem, stage: string, ghost s: Path, archive: Archive, ghost g: Tree)
    returns (ok: bool)
    requires fs.Valid() && Staging(g, fs.tree, s) && Where(fs.tree, stage, true) == Spot(s)
    requires Subtree(fs.tree, s) == EMPTY_STAGE
    modifies fs
    ensures fs.Valid() && Staging(g, fs.tree, s)
    ensures ok ==> Image(archive) == Some(Subtree(fs.tree, s))
    ensures fs.reliable && archive.intact ==> ok == Image(archive).Some?
  {
    hide Walk, Extracted;
    ghost var start := fs.tree;
    ok := ExtractArchive(fs, stage, s, archive.entries, archive.intact);
    BesideKept(g, start, fs.tree, s);
    var fault: bool := *;
    ok := ok && (archive.intact || !fault);
  }

  lemma BesideKept(g: Tree, u: Tree, v: Tree, s: Path)
    requires Staging(g, u, s) && WellFormed(v) && OnlyBelow(u, v, s)
    ensures Staging(g, v, s)
  {
    forall k | !(s <= k) ensures At(v, k) == At(g, k) {
      assert At(v, k) == At(u, k);
    }
  }

  lemma StageForIs(g: Tree, u: Tree, root: string, r: Path, stage: string, s: Path)
    requires StageFor(g, root, r, stage, s) && Staging(g, u, s)
    ensures WellFormed(g) && IsStage(r, s) && s !in g && Comps(stage) == Comps(root) + [s[|r|]]
    ensures WellFormed(u) && IsDir(u, s) && BesideStage(s, g, u)
  {
  }

  lemma UnpackedHasNoLinks(u: Tree, s: Path, archive: Archive)
    requires Image(archive) == Some(Subtree(u, s))
    ensures NoLinksAt(u, s)
  {
    hide Extracted, Subtree, NoLinksAt;
    EmptyHasNoLinks();
    ExtractedHasNoLinks(EMPTY_STAGE, archive.entries);
    StagedHasNoLinks(u, s);
  }

  lemma EmptyHasNoLinks()
    ensures NoLinks(EMPTY_STAGE)
  {
  }

  // ---- No links ----

  ghost predicate NoLinks(s: Tree) {
    forall k | k in s :: !s[k].LinkE?
  }

  lemma {:induction false} ExtractedHasNoLinks(s: Tree, entries: seq<ArchiveEntry>)
    requires NoLinks(s) && Extracted(s, entries).Some?
    ensures NoLinks(Extracted(s, entries).value)
    decreases |entries|
  {
    if entries != [] {
      var s' := Placing(s, entries[0]).value;
      PlacedHasNoLinks(s, entries[0]);
      ExtractedHasNoLinks(s', entries[1..]);
    }
  }

  lemma PlacedHasNoLinks(s: Tree, e: ArchiveEntry)
    requires NoLinks(s) && Placing(s, e).Some?
    ensures NoLinks(Placing(s, e).value)
  {
    hide Lead, Comps, OpenTo, ValidRelative;
    var s' := Placing(s, e).value;
    var dirs := WithDirs(s, if e.kind == Directory then Comps(e.path) else Lead(e.path, false));
    forall k | k in s' ensures !s'[k].LinkE? {
      assert At(dirs, k) == None || At(dirs, k) == Some(DirE) || (k in s && At(dirs, k) == Some(s[k]));
    }
  }

  lemma StagedHasNoLinks(u: Tree, s: Path)
    requires NoLinks(Subtree(u, s))
    ensures NoLinksAt(u, s)
  {
    forall k | s <= k ensures !IsLink(u, k) {
      assert s + k[|s|..] == k;
      assert k[|s|..] in Subtree(u, s) <==> k in u;
    }
  }
}
