/** What a restore comes to, seen from before there was a stage. */
module RestoreOutcome {
  import opened Paths
  import opened FileTree
  import opened PathWalk
  import opened Ways
  import opened FileSystem
  import opened PathSafety
  import opened FsOps
  import opened RestorePlaces
  import opened RestoreState
  import opened RestoreSteps
  import opened RestoreManifest
  import opened RestoreRoots
  import opened RestoreTransaction
  import opened RestoreStage

  datatype RestoreResult = Succeeded | RestoreFailed | RestoreAndRollbackFailed | CleanupFailed

  /** What the archive holds; nothing if it does not extract. */
  function Contents(archive: Archive): Tree {
    if Image(archive).Some? then Image(archive).value else EMPTY_STAGE
  }

  // ---- Before the restore: the ways from the root ----

  /** In the tree without the data, the path of the extensions does not end where a stage could be made. */
  ghost predicate AwayFromStage(g: Tree, root: string, r: Path) {
    var w := Where(Without(g, DataAt(r)), ExtensionsPath(root), false);
    w.Blocked? || !IsStage(r, w.loc)
  }

  /** Nor does that of the manifest in the tree with the archive installed. */
  ghost predicate ManifestAway(g: Tree, root: string, r: Path, image: Tree) {
    var w := Where(Exchanged(g, r, image), ManifestPath(root), false);
    w.Blocked? || !IsStage(r, w.loc)
  }

  /** How the path of the manifest leads once the archive is installed, where, and whether it is settled. */
  ghost function ManifestLead(g: Tree, root: string, r: Path, image: Tree): (ManifestWay, Path, bool) {
    var way, (ext, e) := Comps(root), WayIn(g, root, r);
    ManifestWayIn(Exchanged(g, r, image), root, r, StateLinked(g, r), OnWay(way, ManifestAt(r)),
                  GetsToManifest(way, r, ext, e))
  }

  /** The place of the manifest, through a link or not. */
  ghost function ManifestPlace(g: Tree, root: string, r: Path, image: Tree): Path {
    var (man, led, _) := ManifestLead(g, root, r, image);
    if man.Straight? || man.Led? then led else ManifestAt(r)
  }

  /** A root at r that is reached without links, and no path from there ends at the name of a stage. */
  ghost predicate Told(g: Tree, root: string, r: Path, image: Tree) {
    var way, (ext, e) := Comps(root), WayIn(g, root, r);
    && RealWay(g, way) && End(way) == r
    && (ext.Open? || AwayFromStage(g, root, r)) && (ext.Linked? ==> Apart(e, ManifestAt(r)))
    && (StateLinked(g, r) && GetsToManifest(way, r, ext, e) ==> ManifestAway(g, root, r, image))
  }

  /** None of the targets that can be taken away is on the way to the root. */
  ghost predicate OffTheWay(g: Tree, root: string, r: Path, image: Tree) {
    && !OnWay(Comps(root), DataAt(r)) && !OnWay(Comps(root), WayIn(g, root, r).1)
    && (WayIn(g, root, r).0.Open? && !IsDir(image, GIT_MANIFEST) ==>
          !OnWay(Comps(root), ManifestPlace(g, root, r, image)))
  }

  /** A root that a restore of these contents does not disturb: none of the targets is on the way to it, and
      the path of the manifest leads to a place of its own. */
  ghost predicate Steady(g: Tree, root: string, r: Path, image: Tree) {
    && Told(g, root, r, image) && OffTheWay(g, root, r, image)
    && (ManifestLead(g, root, r, image).0.Straight? || ManifestLead(g, root, r, image).0.Led?)
  }

  // ---- After it ----

  ghost predicate InStage(stage: Option<Path>, k: Path) {
    stage.Some? && stage.value <= k
  }

  /** Nothing changed but the stage. */
  ghost predicate OnlyStage(stage: Option<Path>, t: Tree, u: Tree) {
    forall k {:trigger At(u, k)} {:trigger At(t, k)} | !InStage(stage, k) :: At(u, k) == At(t, k)
  }

  /** New directories may appear only on the way to the targets. */
  ghost predicate NewDir(r: Path, t: Tree, u: Tree, k: Path) {
    k !in t && At(u, k) == Some(DirE) && (k < ExtensionsAt(r) || k < ManifestAt(r))
  }

  /** Nothing changed but the targets, the old extensions at e, the manifest at m, and the stage. */
  ghost predicate ElsewhereKept(r: Path, e: Path, m: Path, t: Tree, u: Tree, stage: Option<Path>) {
    forall k {:trigger At(u, k)} {:trigger At(t, k)} |
      !(DataAt(r) <= k) && !(e <= k) && !(m <= k) && !InStage(stage, k) ::
      At(u, k) == At(t, k) || NewDir(r, t, u, k)
  }

  /** Everything is as before, apart from new directories on the way to the targets, the stage, and
      what is missing of a manifest that was there. */
  ghost predicate RolledBack(r: Path, m: Path, t: Tree, u: Tree, stage: Option<Path>) {
    forall k {:trigger At(u, k)} {:trigger At(t, k)} | !InStage(stage, k) ::
      At(u, k) == At(t, k) || NewDir(r, t, u, k) || (m <= k && k !in u)
  }

  /** Everything is as before, apart from new directories on the way to the targets. */
  ghost predicate Untouched(r: Path, t: Tree, u: Tree) {
    forall k {:trigger At(u, k)} {:trigger At(t, k)} :: At(u, k) == At(t, k) || NewDir(r, t, u, k)
  }

  /** Nothing is left at or below e, nor in the stage. */
  ghost predicate Lost(e: Path, s: Path, u: Tree) {
    forall k | e <= k || s <= k :: k !in u
  }

  /** The three targets hold what the archive holds at the corresponding places. */
  ghost predicate Holds(r: Path, m: Path, u: Tree, image: Tree) {
    && Subtree(u, DataAt(r)) == Subtree(image, DATA)
    && Subtree(u, ExtensionsAt(r)) == Subtree(image, STAGED_EXTENSIONS)
    && Subtree(u, m) == Subtree(image, GIT_MANIFEST)
  }

  /** The tree at p in t is at q in u. */
  ghost predicate IsAt(t: Tree, p: Path, u: Tree, q: Path) {
    q in u && Subtree(u, q) == Subtree(t, p)
  }

  /** The root is lost with the first of the targets that is on the way to it, and nothing puts back what
      the stage holds, nor removes the stage. */
  ghost predicate Stranded(g: Tree, w: Tree, root: string, r: Path, s: Path, image: Tree) {
    var way, e, m := Comps(root), WayIn(g, root, r).1, ManifestPlace(g, root, r, image);
    && s in w
    && if OnWay(way, DataAt(r)) then
         && DataAt(r) !in w && IsAt(g, DataAt(r), w, s + OLD_DATA)
         && SameBelow(g, w, e) && SameBelow(g, w, m)
       else if OnWay(way, e) then
         && DataAt(r) !in w && (DataAt(r) in g ==> IsAt(g, DataAt(r), w, s + OLD_DATA))
         && e !in w && IsAt(g, e, w, s + OLD_EXTENSIONS) && SameBelow(g, w, m)
       else
         && OnWay(way, m) && Less(g, w, m)
         && (DataAt(r) in g ==> IsAt(g, DataAt(r), w, s + OLD_DATA))
         && (e in g ==> IsAt(g, e, w, s + OLD_EXTENSIONS))
         && Subtree(w, DataAt(r)) == Subtree(image, DATA)
         && Subtree(w, ExtensionsAt(r)) == Subtree(image, STAGED_EXTENSIONS)
  }

  // ---- What happens ----

  /** The archive holds two directories to install. */
  predicate Stageable(archive: Archive) {
    archive.readable && Image(archive).Some? &&
    IsDir(Image(archive).value, DATA) && IsDir(Image(archive).value, STAGED_EXTENSIONS)
  }

  /** The installed manifest, if there is one, can be removed, and that in the archive, if there is one, is no
      directory and has a way to its place. */
  ghost predicate ManifestCanFollow(g: Tree, root: string, r: Path, image: Tree) {
    var (man, _, settled) := ManifestLead(g, root, r, image);
    && !IsDir(image, GIT_MANIFEST) && settled && !man.Above?
    && (GIT_MANIFEST in image ==>
          OpenWay(g, r + GIT_MANIFEST[..1]) && !OnWay(Comps(root), ManifestPlace(g, root, r, image)))
  }

  /** The result if nothing fails. */
  ghost function Expected(g: Tree, root: string, r: Path, archive: Archive): RestoreResult {
    if !Stageable(archive) || RootLinked(g, root) then RestoreFailed
    else if OnWay(Comps(root), DataAt(r)) || OnWay(Comps(root), WayIn(g, root, r).1) then RestoreFailed
    else match WayIn(g, root, r).0
      case Open => if ManifestCanFollow(g, root, r, Contents(archive)) then Succeeded else RestoreFailed
      case Linked => RestoreAndRollbackFailed
      case Stuck => RestoreFailed
  }

  /** A target is on the way to the root, and will be taken away. */
  ghost predicate RootInDanger(g: Tree, root: string, r: Path, image: Tree) {
    var way, (ext, e), (man, _, settled) := Comps(root), WayIn(g, root, r), ManifestLead(g, root, r, image);
    || OnWay(way, DataAt(r)) || OnWay(way, e)
    || (ext.Open? && OnWay(way, ManifestPlace(g, root, r, image)) && (settled || man.Straight?) &&
        !IsDir(image, GIT_MANIFEST))
  }

  /** A manifest behind a link will be removed, or parts of it. */
  ghost predicate ManifestInDanger(g: Tree, root: string, r: Path, image: Tree) {
    var way, (ext, e), (man, _, _) := Comps(root), WayIn(g, root, r), ManifestLead(g, root, r, image);
    GetsToManifest(way, r, ext, e) && man.Led? && !IsDir(image, GIT_MANIFEST)
  }

  /** The archive is installed; a file that the path of the manifest leads to inside of it is missing. */
  ghost predicate PutInPlace(g: Tree, w: Tree, root: string, r: Path, s: Path, image: Tree) {
    var (man, led, _) := ManifestLead(g, root, r, image);
    if man.Inside? then GIT_MANIFEST !in image && BesideStage(s, Without(Exchanged(g, r, image), led), w)
    else Holds(r, ManifestPlace(g, root, r, image), w, image)
  }

  /** What a restore to a root that is reached without links does, however the calls go. */
  ghost predicate Finished(g: Tree, w: Tree, root: string, r: Path, s: Path, archive: Archive,
                           result: RestoreResult, sameDevice: bool) {
    var image := Contents(archive);
    var e, m := WayIn(g, root, r).1, ManifestPlace(g, root, r, image);
    && ElsewhereKept(r, e, m, g, w, Some(s))
    && (result == Succeeded || result == CleanupFailed ==>
          && Stageable(archive) && WayIn(g, root, r).0.Open?
          && !OnWay(Comps(root), DataAt(r)) && !OnWay(Comps(root), e)
          && ManifestCanFollow(g, root, r, image) && PutInPlace(g, w, root, r, s, image))
    && (result == Succeeded && OffTheWay(g, root, r, image) ==> s !in w && ElsewhereKept(r, e, m, g, w, None))
    && (result == RestoreFailed && sameDevice ==>
          RolledBack(r, m, g, w, Some(s)) || (!OffTheWay(g, root, r, image) && Stranded(g, w, root, r, s, image)))
  }

  /** The same if nothing fails. */
  ghost predicate FinishedCertain(g: Tree, w: Tree, root: string, r: Path, s: Path, archive: Archive,
                                  result: RestoreResult) {
    var image := Contents(archive);
    && result == Expected(g, root, r, archive)
    && (result == RestoreAndRollbackFailed ==> Lost(WayIn(g, root, r).1, s, w))
    && (OffTheWay(g, root, r, image) || !Stageable(archive) ==> s !in w)
    && (Stageable(archive) && RootInDanger(g, root, r, image) ==>
          s in w && (result == RestoreFailed ==> Stranded(g, w, root, r, s, image)))
    && (result == RestoreFailed && OffTheWay(g, root, r, image) ==>
          (StateLinked(g, r) && !IsDir(image, GIT_MANIFEST)) || Untouched(r, g, w))
    && (result == RestoreFailed && Stageable(archive) && ManifestInDanger(g, root, r, image) ==>
          var m := ManifestPlace(g, root, r, image);
          && (ManifestLead(g, root, r, image).2 ==> m !in w)
          && (m in g ==> !SameBelow(g, w, m)))
  }

  // ---- The places of the transaction, seen from before the stage was made ----

  lemma SameOpenWay(g: Tree, u: Tree, s: Path, p: Path, b: Path)
    requires BesideStage(s, g, u) && Apart(b, s) && p <= b
    ensures OpenWay(g, p) <==> OpenWay(u, p)
  {
    forall k | k <= p ensures At(u, k) == At(g, k) {
      assert k <= b;
      assert s <= k ==> s <= b;
    }
    forall k | k <= p ensures (k in u <==> k in g) && (IsDir(u, k) <==> IsDir(g, k)) {
      assert At(u, k) == At(g, k);
    }
  }

  /** The extensions are found where they were. */
  lemma SameWayIn(g: Tree, u: Tree, root: string, r: Path, s: Path)
    requires WellFormed(g) && WellFormed(u) && IsStage(r, s) && s !in g && IsDir(u, s) && BesideStage(s, g, u)
    requires WayIn(g, root, r).0.Open? || AwayFromStage(g, root, r)
    ensures WayIn(u, root, r) == WayIn(g, root, r)
  {
    hide Comps, Walk, EXTENSIONS, DATA, GIT_MANIFEST;
    PlacesApart(r, s);
    FixedParents(r);
    SameOpenWay(g, u, s, r + EXTENSIONS[..3], ExtensionsAt(r));
    if !OpenWay(g, r + EXTENSIONS[..3]) {
      SameSource(Without(g, DataAt(r)), Without(u, DataAt(r)), ExtensionsPath(root), r, s, g, u);
    }
  }

  lemma SameSource(v: Tree, w: Tree, path: string, r: Path, s: Path, g: Tree, u: Tree)
    requires WellFormed(g) && IsStage(r, s) && s !in g && IsDir(u, s) && BesideStage(s, g, u)
    requires v == Without(g, DataAt(r)) && w == Without(u, DataAt(r))
    requires Where(v, path, false).Blocked? || !IsStage(r, Where(v, path, false).loc)
    ensures Found(v, path) <==> Found(w, path)
    ensures SourceLoc(v, path) == SourceLoc(w, path)
  {
    hide Walk, DATA;
    FixedParents(r);
    WithoutWellFormed(g, DataAt(r));
    forall k | !(s <= k) ensures At(w, k) == At(v, k) {
      assert At(u, k) == At(g, k);
    }
    assert !IsLink(w, s);
    WalkBeside(v, w, s, [], Comps(path), false, MAX_LINKS);
    if Where(v, path, false).Spot? {
      assert At(w, Where(v, path, false).loc) == At(v, Where(v, path, false).loc);
    }
  }

  lemma CrossedIsNotReal(u: Tree, way: seq<string>)
    ensures RealWay(u, way) ==> !Crossed(u, way)
  {
    if Crossed(u, way) {
      CrossedIsNoGap(u, way);
    }
  }

  /** Where extensions are found before there is a stage, they are apart from it. */
  lemma FoundOutside(g: Tree, root: string, r: Path, s: Path)
    requires WellFormed(g) && IsStage(r, s) && s !in g
    ensures var (ext, e) := WayIn(g, root, r);
            && Apart(e, s) && (ext.Linked? ==> e in g && !(e <= r)) && (!ext.Linked? ==> e == ExtensionsAt(r))
  {
    hide Comps, Walk, EXTENSIONS, DATA, GIT_MANIFEST;
    var (ext, e) := WayIn(g, root, r);
    PlacesApart(r, s);
    if ext.Linked? {
      FoundApart(g, root, r);
      NotInStage(g, s, e);
      assert s == r + [s[|r|]];
      PrefixOfNext(e, r, s[|r|]);
    }
  }

  lemma OpenIsOpen(u: Tree, root: string, r: Path)
    ensures WayIn(u, root, r).0.Open? <==> OpenWay(u, r + EXTENSIONS[..3])
  {
  }

  lemma WithoutStage(g: Tree, u: Tree, s: Path)
    requires WellFormed(g) && s !in g && BesideStage(s, g, u)
    ensures Without(u, s) == g
  {
    forall k ensures At(Without(u, s), k) == At(g, k) {
      if s <= k {
        EmptySubtree(g, s);
      } else {
        assert At(u, k) == At(g, k);
      }
    }
    SameTree(Without(u, s), g);
  }

  /** The way to the root, with a stage in it. */
  lemma SameRealWay(g: Tree, u: Tree, way: seq<string>, s: Path)
    requires WellFormed(g) && s !in g && BesideStage(s, g, u) && RealWay(g, way)
    ensures RealWay(u, way) && !OnWay(way, s)
  {
    forall i | 0 <= i <= |way| ensures IsDir(u, End(way[..i])) && !(s <= End(way[..i])) {
      assert IsDir(g, End(way[..i]));
      NotInStage(g, s, End(way[..i]));
      assert At(u, End(way[..i])) == At(g, End(way[..i]));
    }
  }

  lemma SameStateLink(g: Tree, u: Tree, r: Path, s: Path)
    requires IsStage(r, s) && BesideStage(s, g, u)
    ensures StateLinked(u, r) <==> StateLinked(g, r)
  {
    hide EXTENSIONS, DATA, GIT_MANIFEST;
    PlacesApart(r, s);
    FixedDepths();
    StateDirectory(r);
    assert At(u, r + GIT_MANIFEST[..1]) == At(g, r + GIT_MANIFEST[..1]);
  }

  /** A root that is reached without links makes a plain transaction. */
  lemma ToldStaged(g: Tree, u: Tree, root: string, r: Path, s: Path)
    requires WellFormed(g) && IsStage(r, s) && s !in g && Staging(g, u, s) && Told(g, root, r, Subtree(u, s))
    ensures var pl, image := PlacesFor(u, root, r, s), Subtree(u, s);
            && pl.mode.Plain? && Formed(pl, s) && pl.way == Comps(root) && pl.r == r
            && (pl.ext, pl.extensions) == WayIn(g, root, r)
            && (pl.man, pl.led, pl.settled) == ManifestLead(g, root, r, image)
            && pl.manifest == ManifestPlace(g, root, r, image)
  {
    hide Comps, Walk, EXTENSIONS, DATA, GIT_MANIFEST, WayIn, RealWay, End, AwayFromStage, Crossed, OnWay, Exchanged,
      ManifestWayIn, Subtree, StateLinked, Rooted;
    var image := Subtree(u, s);
    StagingIs(g, u, s);
    SameWayIn(g, u, root, r, s);
    WithoutStage(g, u, s);
    SameStateLink(g, u, r, s);
    FoundOutside(g, root, r, s);
    SamePassages(u, root, r, s);
    var pl := PlacesFor(u, root, r, s);
    ToldRooted(g, u, root, r, s, pl.(mode := Plain));
    CrossedIsNotReal(u, Comps(root));
  }

  lemma ToldRooted(g: Tree, u: Tree, root: string, r: Path, s: Path, pl: Places)
    requires WellFormed(g) && IsStage(r, s) && s !in g && BesideStage(s, g, u)
    requires RealWay(g, Comps(root)) && End(Comps(root)) == r
    requires Formed(pl, s) && pl.r == r && pl.way == Comps(root) && pl.ext == WayIn(u, root, r).0
    requires pl.man.Straight? <==> !StateLinked(u, r)
    ensures Rooted(pl, u) && RealWay(u, Comps(root))
  {
    hide Comps, Walk, EXTENSIONS, DATA, GIT_MANIFEST, WayIn, RealWay, End, OnWay;
    FixedParents(r);
    StateDirectory(r);
    SameRealWay(g, u, Comps(root), s);
    OpenIsOpen(u, root, r);
  }

  lemma StagingIs(g: Tree, u: Tree, s: Path)
    requires Staging(g, u, s)
    ensures BesideStage(s, g, u) && WellFormed(u)
  {
  }

  /** A root behind a link makes a transaction that moves nothing. */
  lemma LinkedStaged(g: Tree, u: Tree, root: string, r: Path, s: Path)
    requires RootLinked(g, root) && Extends(g, u)
    ensures PlacesFor(u, root, r, s).mode.Barred?
  {
    hide Exchanged, ManifestWayIn, WayIn, Rooted;
    CrossedStays(g, u, Comps(root));
    PlacesAre(u, root, r, s);
  }

  lemma ImageAt(u: Tree, s: Path, q: Path)
    ensures q in Subtree(u, s) <==> s + q in u
    ensures IsDir(Subtree(u, s), q) <==> IsDir(u, s + q)
  {
  }

  lemma BothInImage(u: Tree, s: Path)
    ensures BothStaged(u, s) <==> IsDir(Subtree(u, s), DATA) && IsDir(Subtree(u, s), STAGED_EXTENSIONS)
  {
    hide DATA, STAGED_EXTENSIONS, Subtree;
    ImageAt(u, s, DATA);
    ImageAt(u, s, STAGED_EXTENSIONS);
  }

  lemma BackupsInImage(u: Tree, s: Path, pl: Places)
    requires pl.oldData == s + OLD_DATA && pl.oldExtensions == s + OLD_EXTENSIONS
    ensures BackupsFree(pl, u) <==> OLD_DATA !in Subtree(u, s) && OLD_EXTENSIONS !in Subtree(u, s)
  {
    hide OLD_DATA, OLD_EXTENSIONS, Subtree;
    ImageAt(u, s, OLD_DATA);
    ImageAt(u, s, OLD_EXTENSIONS);
  }

  function ResultOf(status: RestoreStatus, cleaned: bool): RestoreResult {
    match status
    case RollbackFailed => RestoreAndRollbackFailed
    case Undone => RestoreFailed
    case Restored => if cleaned then Succeeded else CleanupFailed
  }

  // ---- From the transaction to the restore ----

  lemma ManifestInImage(g: Tree, u: Tree, root: string, r: Path, s: Path)
    requires WellFormed(g) && IsStage(r, s) && s !in g && Staging(g, u, s) && Told(g, root, r, Subtree(u, s))
    ensures ManifestFits(PlacesFor(u, root, r, s), u, u) <==> ManifestCanFollow(g, root, r, Subtree(u, s))
    ensures IsDir(u, s + GIT_MANIFEST) <==> IsDir(Subtree(u, s), GIT_MANIFEST)
    ensures s + GIT_MANIFEST in u <==> GIT_MANIFEST in Subtree(u, s)
  {
    hide DATA, STAGED_EXTENSIONS, EXTENSIONS, GIT_MANIFEST, Subtree, OpenWay, Told, ManifestLead, ManifestPlace, OnWay,
      PlacesFor, WayIn, Comps;
    StagingIs(g, u, s);
    ToldStaged(g, u, root, r, s);
    ImageAt(u, s, GIT_MANIFEST);
    PlacesApart(r, s);
    StateDirectory(r);
    SameOpenWay(g, u, s, r + GIT_MANIFEST[..1], ManifestAt(r));
  }

  /** The outcome of the transaction is the expected result. */
  lemma OutcomeIsExpected(g: Tree, u: Tree, root: string, r: Path, s: Path, archive: Archive)
    requires WellFormed(g) && IsStage(r, s) && s !in g && Staging(g, u, s) && Told(g, root, r, Subtree(u, s))
    requires archive.readable && Image(archive) == Some(Subtree(u, s))
    ensures ResultOf(Outcome(PlacesFor(u, root, r, s), u), true) == Expected(g, root, r, archive)
  {
    hide Told, Staging, Image, Subtree, DATA, STAGED_EXTENSIONS, EXTENSIONS, GIT_MANIFEST, ManifestFits, ManifestLead,
      ManifestCanFollow, BothStaged, WayIn, BesideStage, PlacesFor, ManifestPlace, OnWay, Comps;
    ToldStaged(g, u, root, r, s);
    BothInImage(u, s);
    ManifestInImage(g, u, root, r, s);
    ToldIsNotLinked(g, root, r, Subtree(u, s));
  }

  lemma ToldIsNotLinked(g: Tree, root: string, r: Path, image: Tree)
    ensures Told(g, root, r, image) ==> !RootLinked(g, root)
  {
    hide ManifestAway, AwayFromStage, WayIn;
    CrossedIsNotReal(g, Comps(root));
  }

  lemma KeptAside(s: Path, v: Tree, w: Tree, p: Path)
    requires RemovedBelow(v, w, s) && Apart(s, p)
    ensures Subtree(w, p) == Subtree(v, p)
  {
    forall k | p <= k ensures At(w, k) == At(v, k) {
      if s <= k { PrefixesMeet(s, p, k); }
    }
    SameSubtree(w, v, p);
  }

  /** What a tree beside the stage is to the transaction, it is before there was a stage. */
  lemma BesideSame(g: Tree, u: Tree, s: Path, p: Path)
    requires BesideStage(s, g, u) && Apart(p, s)
    ensures Subtree(u, p) == Subtree(g, p) && (p in u <==> p in g) && SameBelow(g, u, p)
  {
    forall k | p <= k ensures At(u, k) == At(g, k) {
      if s <= k { PrefixesMeet(s, p, k); }
    }
    assert At(u, p) == At(g, p);
    SameSubtree(u, g, p);
  }

  /** The targets after installation and cleanup hold what was extracted. */
  lemma HoldsAfter(pl: Places, r: Path, s: Path, u: Tree, v: Tree, w: Tree)
    requires IsStage(r, s) && Formed(pl, s) && pl.r == r && pl.extensions == ExtensionsAt(r) && Layout(pl)
    requires Installed(pl, u, v) && RemovedBelow(v, w, s)
    ensures Holds(r, pl.manifest, w, Subtree(u, s))
  {
    hide DATA, STAGED_EXTENSIONS, EXTENSIONS, GIT_MANIFEST;
    assert Apart(Loc(pl, Manifest), pl.stage);
    PlacesApart(r, s);
    KeptAside(s, v, w, DataAt(r));
    KeptAside(s, v, w, ExtensionsAt(r));
    KeptAside(s, v, w, pl.manifest);
    SubtreeOfSubtree(u, s, DATA);
    SubtreeOfSubtree(u, s, STAGED_EXTENSIONS);
    SubtreeOfSubtree(u, s, GIT_MANIFEST);
  }

  /** The same if the path of the manifest leads into them. */
  lemma InsideAfter(pl: Places, g: Tree, r: Path, s: Path, u: Tree, v: Tree, w: Tree)
    requires WellFormed(g) && s !in g && BesideStage(s, g, u) && Formed(pl, s) && pl.r == r
    requires InstalledBut(pl, u, v) && RemovedBelow(v, w, s)
    ensures GIT_MANIFEST !in Subtree(u, s) && BesideStage(s, Without(Exchanged(g, r, Subtree(u, s)), pl.led), w)
  {
    hide DATA, STAGED_EXTENSIONS, EXTENSIONS, GIT_MANIFEST, Exchanged, InstalledTree, Subtree;
    ImageAt(u, s, GIT_MANIFEST);
    WithoutStage(g, u, s);
    InstalledIsExchanged(pl, u, s);
    forall k | !(s <= k) ensures At(w, k) == At(Without(Exchanged(g, r, Subtree(u, s)), pl.led), k) {
      assert At(w, k) == At(v, k);
    }
  }

  /** Beside the targets and the stage only new directories on the way to the targets are left. */
  lemma ElsewhereAfter(pl: Places, r: Path, s: Path, g: Tree, u: Tree, v: Tree, w: Tree)
    requires Formed(pl, s) && pl.r == r
    requires BesideStage(s, g, u) && Outside(pl, u, v) && RemovedBelow(v, w, s)
    ensures ElsewhereKept(r, pl.extensions, pl.manifest, g, w, Some(s))
  {
    hide DATA, EXTENSIONS, GIT_MANIFEST, STAGED_EXTENSIONS, OLD_DATA, OLD_EXTENSIONS;
    forall k | !(DataAt(r) <= k) && !(pl.extensions <= k) && !(pl.manifest <= k) && !(s <= k)
      ensures At(w, k) == At(g, k) || NewDir(r, g, w, k)
    {
      assert !InPlay(pl, k);
      assert At(w, k) == At(v, k) && At(u, k) == At(g, k);
      assert At(v, k) == At(u, k) || (k !in u && At(v, k) == Some(DirE) && AboveTarget(pl, k));
    }
  }

  /** An undone transaction leaves the tree as it was, and so does the removal of the stage. */
  lemma RolledBackAfter(pl: Places, r: Path, s: Path, g: Tree, u: Tree, v: Tree, w: Tree)
    requires Formed(pl, s) && pl.r == r
    requires BesideStage(s, g, u) && Outside(pl, u, v) && Reverted(pl, u, v) && RemovedBelow(v, w, s)
    ensures RolledBack(r, pl.manifest, g, w, Some(s))
  {
    hide DATA, EXTENSIONS, GIT_MANIFEST, STAGED_EXTENSIONS, OLD_DATA, OLD_EXTENSIONS;
    forall k | !(s <= k)
      ensures At(w, k) == At(g, k) || NewDir(r, g, w, k) || (pl.manifest <= k && k !in w)
    {
      assert At(w, k) == At(v, k) && At(u, k) == At(g, k);
      if pl.data <= k {
        SameNodes(u, v, pl.data, k);
      } else if pl.extensions <= k {
        SameNodes(u, v, pl.extensions, k);
      } else if pl.manifest <= k {
        assert At(v, k) == At(u, k) || k !in v;
      } else {
        assert !InPlay(pl, k);
        assert At(v, k) == At(u, k) || (k !in u && At(v, k) == Some(DirE) && AboveTarget(pl, k));
      }
    }
  }

  /** With the manifest as it was and the stage gone, nothing is missing. */
  lemma UntouchedAfter(pl: Places, r: Path, s: Path, g: Tree, u: Tree, v: Tree, w: Tree)
    requires RolledBack(r, pl.manifest, g, w, Some(s)) && SameAt(u, v, Loc(pl, Manifest)) && BesideStage(s, g, u)
    requires RemovedBelow(v, w, s) && Apart(pl.manifest, s)
    requires WellFormed(g) && s !in g && WellFormed(w) && s !in w
    ensures Untouched(r, g, w)
  {
    hide Subtree;
    forall k ensures At(w, k) == At(g, k) || NewDir(r, g, w, k) {
      if s <= k {
        EmptySubtree(g, s);
        EmptySubtree(w, s);
      } else if pl.manifest <= k {
        SameNodes(u, v, pl.manifest, k);
        assert At(w, k) == At(v, k) && At(u, k) == At(g, k);
      }
    }
  }

  /** Where the root was lost, the stage holds what was taken away. */
  lemma StrandedAfter(pl: Places, root: string, r: Path, s: Path, g: Tree, u: Tree, v: Tree)
    requires Formed(pl, s) && Layout(pl) && pl.r == r && pl.way == Comps(root)
    requires pl.extensions == WayIn(g, root, r).1 && pl.manifest == ManifestPlace(g, root, r, Subtree(u, s))
    requires pl.ext == WayIn(g, root, r).0
    requires BesideStage(s, g, u) && Sound(pl, u, v)
    requires TakenAway(pl, u, v) || LeftInstalled(pl, u, v)
    ensures Stranded(g, v, root, r, s, Subtree(u, s))
  {
    hide DATA, EXTENSIONS, GIT_MANIFEST, STAGED_EXTENSIONS, OLD_DATA, OLD_EXTENSIONS, Subtree, WayIn, ManifestPlace,
      Layout, Sound, OnWay, Adrift, Comps, TakenAway, LeftInstalled, SameAt, Less, SameBelow, IsAt, BesideStage;
    StageIsThere(pl, u, v);
    TargetsApart(pl);
    BesideSame(g, u, s, pl.data);
    BesideSame(g, u, s, pl.extensions);
    BesideSame(g, u, s, pl.manifest);
    if TakenAway(pl, u, v) {
      if Passes(pl, Data) {
        DataTaken(pl, g, u, v);
      } else {
        ExtensionsTaken(pl, g, u, v);
      }
    } else {
      InstalledStranded(pl, root, r, s, g, u, v);
    }
  }

  lemma InstalledStranded(pl: Places, root: string, r: Path, s: Path, g: Tree, u: Tree, v: Tree)
    requires Formed(pl, s) && Layout(pl) && pl.r == r && pl.way == Comps(root) && LeftInstalled(pl, u, v) && s in v
    requires pl.extensions == WayIn(g, root, r).1 && pl.manifest == ManifestPlace(g, root, r, Subtree(u, s))
    requires SameBelow(g, u, pl.manifest) && Subtree(u, pl.data) == Subtree(g, pl.data)
    requires Subtree(u, pl.extensions) == Subtree(g, pl.extensions)
    requires (pl.data in u <==> pl.data in g) && (pl.extensions in u <==> pl.extensions in g)
    ensures Stranded(g, v, root, r, s, Subtree(u, s))
  {
    hide DATA, EXTENSIONS, GIT_MANIFEST, STAGED_EXTENSIONS, OLD_DATA, OLD_EXTENSIONS, Subtree, WayIn, ManifestPlace,
      Layout, OnWay, Comps, LeftInstalled, Less, SameBelow, IsAt;
    InstalledLeft(pl, g, u, v);
    OpenIsFixed(pl);
    SubtreeOfSubtree(u, s, DATA);
    SubtreeOfSubtree(u, s, STAGED_EXTENSIONS);
  }

  lemma OpenIsFixed(pl: Places)
    requires Layout(pl) && pl.ext.Open?
    ensures pl.extensions == pl.fixed
  {
  }

  lemma StageIsThere(pl: Places, u: Tree, v: Tree)
    requires Sound(pl, u, v)
    ensures pl.stage in v
  {
  }

  lemma TargetsApart(pl: Places)
    requires Layout(pl)
    ensures Apart(pl.data, pl.stage) && Apart(pl.extensions, pl.stage) && Apart(pl.manifest, pl.stage)
  {
    assert Apart(Loc(pl, Data), pl.stage) && Apart(Loc(pl, Extensions), pl.stage) && Apart(Loc(pl, Manifest), pl.stage);
  }

  lemma SameFromStart(g: Tree, u: Tree, v: Tree, p: Path)
    requires SameBelow(g, u, p) && SameAt(u, v, p)
    ensures SameBelow(g, v, p)
  {
    forall k | p <= k ensures At(v, k) == At(g, k) {
      SameNodes(u, v, p, k);
    }
  }

  lemma DataTaken(pl: Places, g: Tree, u: Tree, v: Tree)
    requires TakenAway(pl, u, v) && Passes(pl, Data)
    requires SameBelow(g, u, pl.extensions) && SameBelow(g, u, pl.manifest)
    requires Subtree(u, pl.data) == Subtree(g, pl.data)
    ensures pl.data !in v && IsAt(g, pl.data, v, pl.oldData)
    ensures SameBelow(g, v, pl.extensions) && SameBelow(g, v, pl.manifest)
  {
    hide SameAt, OnWay, Gap, Subtree, SameBelow, SetAside;
    SameFromStart(g, u, v, Loc(pl, Extensions));
    SameFromStart(g, u, v, Loc(pl, Manifest));
  }

  lemma ExtensionsTaken(pl: Places, g: Tree, u: Tree, v: Tree)
    requires TakenAway(pl, u, v) && !Passes(pl, Data)
    requires SameBelow(g, u, pl.manifest) && Subtree(u, pl.data) == Subtree(g, pl.data)
    requires Subtree(u, pl.extensions) == Subtree(g, pl.extensions) && (pl.data in u <==> pl.data in g)
    ensures Passes(pl, Extensions) && pl.data !in v && pl.extensions !in v && SameBelow(g, v, pl.manifest)
    ensures pl.data in g ==> IsAt(g, pl.data, v, pl.oldData)
    ensures IsAt(g, pl.extensions, v, pl.oldExtensions)
  {
    hide SameAt, OnWay, Gap, Subtree, SameBelow, FirstStepDone, SetAside, StagedKept, IsAt;
    AsideIs(pl, u, v);
    AwayIsAt(g, u, v, pl.data, pl.oldData, pl.data in u);
    AwayIsAt(g, u, v, pl.extensions, pl.oldExtensions, true);
    SameFromStart(g, u, v, Loc(pl, Manifest));
  }

  lemma AsideIs(pl: Places, u: Tree, v: Tree)
    requires SetAside(pl, u, v, pl.data in u, true) && StagedKept(pl, u, v)
    ensures Away(u, v, pl.data, pl.oldData, pl.data in u) && pl.data !in v
    ensures Away(u, v, pl.extensions, pl.oldExtensions, true) && pl.extensions !in v
    ensures SameAt(u, v, Loc(pl, Manifest))
  {
    hide Same, SameAt;
  }

  lemma TreesAre(pl: Places, u: Tree, v: Tree)
    requires TreesInstalled(pl, u, v)
    ensures Subtree(v, pl.data) == Subtree(u, pl.stagedData)
    ensures Subtree(v, pl.extensions) == Subtree(u, pl.stagedExtensions)
  {
    hide Same;
    SameMeans(u, pl.stagedData, v, pl.data);
    SameMeans(u, pl.stagedExtensions, v, pl.extensions);
  }

  lemma SameMeans(t: Tree, p: Path, u: Tree, q: Path)
    requires Same(t, p, u, q)
    ensures Subtree(u, q) == Subtree(t, p)
  {
  }

  lemma AwayIsAt(g: Tree, u: Tree, v: Tree, target: Path, backup: Path, had: bool)
    requires Away(u, v, target, backup, had) && Subtree(u, target) == Subtree(g, target)
    ensures had ==> IsAt(g, target, v, backup)
  {
    hide Subtree;
  }

  lemma LessFromStart(g: Tree, u: Tree, v: Tree, p: Path)
    requires SameBelow(g, u, p) && Less(u, v, p)
    ensures Less(g, v, p)
  {
    forall k | p <= k ensures At(v, k) == At(g, k) || k !in v {
      assert At(u, k) == At(g, k);
    }
  }

  lemma InstalledLeft(pl: Places, g: Tree, u: Tree, v: Tree)
    requires LeftInstalled(pl, u, v)
    requires SameBelow(g, u, pl.manifest) && Subtree(u, pl.data) == Subtree(g, pl.data)
    requires Subtree(u, pl.extensions) == Subtree(g, pl.extensions)
    requires (pl.data in u <==> pl.data in g) && (pl.extensions in u <==> pl.extensions in g)
    ensures CanReach(pl) && Passes(pl, Manifest) && Less(g, v, pl.manifest)
    ensures pl.data in g ==> IsAt(g, pl.data, v, pl.oldData)
    ensures pl.extensions in g ==> IsAt(g, pl.extensions, v, pl.oldExtensions)
    ensures Subtree(v, pl.data) == Subtree(u, pl.stagedData)
    ensures Subtree(v, pl.extensions) == Subtree(u, pl.stagedExtensions)
  {
    hide OnWay, Gap, Subtree, Less, SameBelow, IsAt, CanReach, TreesInstalled;
    TreesAre(pl, u, v);
    LessFromStart(g, u, v, pl.manifest);
    AwayIsAt(g, u, v, pl.data, pl.oldData, pl.data in u);
    AwayIsAt(g, u, v, pl.extensions, pl.oldExtensions, pl.extensions in u);
  }

  /** What the removal of the stage comes to: its path names it, unless the root is lost. */
  ghost predicate StageCleaned(pl: Places, v: Tree, w: Tree, cleaned: bool, reliable: bool) {
    if Reached(pl, v) then RemovedBelow(v, w, pl.stage) && (cleaned ==> pl.stage !in w) && (reliable ==> cleaned)
    else w == v && cleaned
  }

  lemma CleanedIsRemoved(pl: Places, v: Tree, w: Tree, cleaned: bool, reliable: bool)
    requires StageCleaned(pl, v, w, cleaned, reliable)
    ensures RemovedBelow(v, w, pl.stage)
  {
  }

  lemma OffTheWayMeans(g: Tree, u: Tree, root: string, r: Path, s: Path)
    requires WellFormed(g) && IsStage(r, s) && s !in g && Staging(g, u, s) && Told(g, root, r, Subtree(u, s))
    ensures var pl, image := PlacesFor(u, root, r, s), Subtree(u, s);
            && (Passes(pl, Data) <==> OnWay(Comps(root), DataAt(r)))
            && (Passes(pl, Extensions) <==> OnWay(Comps(root), WayIn(g, root, r).1))
            && (OffTheWay(g, root, r, image) <==>
                  !Passes(pl, Data) && !Passes(pl, Extensions) && !Threatens(pl, u))
            && (RootInDanger(g, root, r, image) <==> Endangered(pl, u))
  {
    hide DATA, STAGED_EXTENSIONS, EXTENSIONS, GIT_MANIFEST, Subtree, Told, ManifestLead, ManifestPlace, OnWay,
      PlacesFor, WayIn, Comps;
    ToldStaged(g, u, root, r, s);
    ManifestInImage(g, u, root, r, s);
  }

  /** Everything about a root that is reached without links, from the contract of the transaction. */
  lemma FinishedAfter(g: Tree, u: Tree, v: Tree, w: Tree, root: string, r: Path, s: Path, archive: Archive,
                      status: RestoreStatus, cleaned: bool, sameDevice: bool, reliable: bool)
    requires WellFormed(g) && WellFormed(w) && IsStage(r, s) && s !in g && Staging(g, u, s)
    requires archive.readable && Image(archive) == Some(Subtree(u, s)) && Told(g, root, r, Subtree(u, s))
    requires Layout(PlacesFor(u, root, r, s)) && !PlacesFor(u, root, r, s).man.Above?
    requires Concluded(PlacesFor(u, root, r, s), u, v, status, sameDevice)
    requires StageCleaned(PlacesFor(u, root, r, s), v, w, cleaned, reliable)
    ensures Finished(g, w, root, r, s, archive, ResultOf(status, cleaned), sameDevice)
  {
    hide Told, Image, Subtree, DATA, STAGED_EXTENSIONS, EXTENSIONS, GIT_MANIFEST, OLD_DATA, OLD_EXTENSIONS, Layout,
      ManifestFits, ManifestCanFollow, BothStaged, WayIn, BesideStage, Reverted, Holds, ElsewhereKept, ManifestLead,
      RolledBack, Outside, RemovedBelow, Rooted, Crossed, WellFormed, PlacesFor, ManifestPlace, OffTheWay, Stranded,
      PutInPlace, Done, TakenAway, LeftInstalled, OnWay, Comps, RealWay, Gap, StageCleaned;
    var pl := PlacesFor(u, root, r, s);
    ToldStaged(g, u, root, r, s);
    StagingIs(g, u, s);
    CleanedIsRemoved(pl, v, w, cleaned, reliable);
    ElsewhereAfter(pl, r, s, g, u, v, w);
    OffTheWayMeans(g, u, root, r, s);
    if status == Restored {
      BothInImage(u, s);
      ManifestInImage(g, u, root, r, s);
      PutAfter(g, u, v, w, root, r, s);
      StageGone(pl, v, w, cleaned, reliable);
      if s !in w {
        NothingLeft(r, pl.extensions, pl.manifest, s, g, w);
      }
    } else if status == Undone && sameDevice {
      UndoneAfter(g, u, v, w, root, r, s, cleaned, reliable);
    }
  }

  /** With the stage gone for good, nothing is left that was not there. */
  lemma NothingLeft(r: Path, e: Path, m: Path, s: Path, g: Tree, w: Tree)
    requires ElsewhereKept(r, e, m, g, w, Some(s)) && WellFormed(g) && s !in g && WellFormed(w) && s !in w
    ensures ElsewhereKept(r, e, m, g, w, None)
  {
    EmptySubtree(g, s);
    EmptySubtree(w, s);
  }

  lemma StageGone(pl: Places, v: Tree, w: Tree, cleaned: bool, reliable: bool)
    requires StageCleaned(pl, v, w, cleaned, reliable)
    ensures Reached(pl, v) && cleaned ==> pl.stage !in w
    ensures Reached(pl, v) && reliable ==> cleaned && pl.stage !in w
    ensures !Reached(pl, v) ==> w == v && cleaned
  {
  }

  lemma PutAfter(g: Tree, u: Tree, v: Tree, w: Tree, root: string, r: Path, s: Path)
    requires WellFormed(g) && IsStage(r, s) && s !in g && Staging(g, u, s) && Told(g, root, r, Subtree(u, s))
    requires Layout(PlacesFor(u, root, r, s)) && PlacesFor(u, root, r, s).ext.Open?
    requires Done(PlacesFor(u, root, r, s), u, v) && RemovedBelow(v, w, s)
    ensures PutInPlace(g, w, root, r, s, Subtree(u, s))
  {
    hide Told, Subtree, DATA, STAGED_EXTENSIONS, EXTENSIONS, GIT_MANIFEST, Layout, WayIn, BesideStage, Holds,
      ManifestLead, RemovedBelow, PlacesFor, ManifestPlace, Installed, InstalledBut, Comps;
    var pl := PlacesFor(u, root, r, s);
    ToldStaged(g, u, root, r, s);
    StagingIs(g, u, s);
    OpenMeans(g, root, r);
    if pl.man.Inside? {
      InsideAfter(pl, g, r, s, u, v, w);
    } else {
      HoldsAfter(pl, r, s, u, v, w);
    }
  }

  lemma UndoneAfter(g: Tree, u: Tree, v: Tree, w: Tree, root: string, r: Path, s: Path, cleaned: bool, reliable: bool)
    requires WellFormed(g) && IsStage(r, s) && s !in g && Staging(g, u, s) && Told(g, root, r, Subtree(u, s))
    requires Layout(PlacesFor(u, root, r, s)) && Sound(PlacesFor(u, root, r, s), u, v)
    requires var pl := PlacesFor(u, root, r, s);
             && (if Reached(pl, v) then Reverted(pl, u, v) else TakenAway(pl, u, v) || LeftInstalled(pl, u, v))
             && StageCleaned(pl, v, w, cleaned, reliable)
    ensures var pl, image := PlacesFor(u, root, r, s), Subtree(u, s);
            if Reached(pl, v) then RolledBack(r, ManifestPlace(g, root, r, image), g, w, Some(s))
            else Stranded(g, w, root, r, s, image)
  {
    hide Told, Subtree, DATA, STAGED_EXTENSIONS, EXTENSIONS, GIT_MANIFEST, OLD_DATA, OLD_EXTENSIONS, Layout, WayIn,
      BesideStage, Reverted, ManifestLead, RolledBack, Outside, RemovedBelow, WellFormed, PlacesFor, ManifestPlace,
      Stranded, TakenAway, LeftInstalled, Comps, RealWay, Gap, StageCleaned;
    var pl := PlacesFor(u, root, r, s);
    ToldStaged(g, u, root, r, s);
    StagingIs(g, u, s);
    CleanedIsRemoved(pl, v, w, cleaned, reliable);
    StageGone(pl, v, w, cleaned, reliable);
    if Reached(pl, v) {
      RolledBackAfter(pl, r, s, g, u, v, w);
    } else {
      StrandedAfter(pl, root, r, s, g, u, v);
    }
  }

  /** Extensions that are away with the stage gone are nowhere. */
  lemma LostAfter(pl: Places, v: Tree, w: Tree, s: Path)
    requires CutOff(pl, v) && WellFormed(w) && RemovedBelow(v, w, s) && s !in w
    ensures Lost(pl.extensions, s, w)
  {
    assert At(w, pl.extensions) == At(v, pl.extensions) || pl.extensions !in w;
    EmptySubtree(w, pl.extensions);
    EmptySubtree(w, s);
  }

  /** The same if nothing fails. */
  lemma FinishedCertainAfter(g: Tree, u: Tree, v: Tree, w: Tree, root: string, r: Path, s: Path, archive: Archive,
                             status: RestoreStatus, cleaned: bool)
    requires WellFormed(g) && WellFormed(w) && IsStage(r, s) && s !in g && Staging(g, u, s)
    requires archive.readable && Image(archive) == Some(Subtree(u, s)) && Told(g, root, r, Subtree(u, s))
    requires Layout(PlacesFor(u, root, r, s)) && !PlacesFor(u, root, r, s).man.Above?
    requires Concluded(PlacesFor(u, root, r, s), u, v, status, true)
    requires ConcludedCertain(PlacesFor(u, root, r, s), u, v, status)
    requires !BothStaged(u, s) ==> v == u
    requires StageCleaned(PlacesFor(u, root, r, s), v, w, cleaned, true)
    ensures FinishedCertain(g, w, root, r, s, archive, ResultOf(status, cleaned))
  {
    hide Told, Image, Subtree, DATA, STAGED_EXTENSIONS, EXTENSIONS, GIT_MANIFEST, OLD_DATA, OLD_EXTENSIONS, Layout,
      ManifestFits, ManifestCanFollow, BothStaged, WayIn, BesideStage, Reverted, ManifestLead, RolledBack, Sound, Lost,
      RemovedBelow, WellFormed, PlacesFor, ManifestPlace, OffTheWay, Stranded, Done, TakenAway, LeftInstalled, OnWay,
      Comps, RealWay, Gap, StageCleaned, Expected, Outcome, CutOff, SameAt, RootInDanger, Endangered, Untouched,
      StateLinked, LosesManifest, ManifestInDanger, IsStage, Staging, SameBelow, ManifestStays;
    var pl := PlacesFor(u, root, r, s);
    ToldStaged(g, u, root, r, s);
    StagingIs(g, u, s);
    CleanedIsRemoved(pl, v, w, cleaned, true);
    StageGone(pl, v, w, cleaned, true);
    OffTheWayMeans(g, u, root, r, s);
    BothInImage(u, s);
    OutcomeIsExpected(g, u, root, r, s, archive);
    DangerMeans(g, u, root, r, s);
    RealFromStart(g, u, root, r, s);
    StageIsThere(pl, u, v);
    NotBoth(pl, v);
    if status == RollbackFailed {
      LinkedOutcome(pl, u);
      LostAfter(pl, v, w, s);
    }
    if status == Undone {
      UndoneAfter(g, u, v, w, root, r, s, cleaned, true);
      TargetsApart(pl);
      if Reached(pl, v) && ManifestStays(pl, u) {
        UntouchedAfter(pl, r, s, g, u, v, w);
      }
      ManifestChanged(pl, g, u, v, w, s);
    }
    ManifestNotBack(pl, v, w, s);
  }

  lemma LinkedOutcome(pl: Places, u: Tree)
    ensures Outcome(pl, u) == RollbackFailed ==> !Passes(pl, Data) && !Passes(pl, Extensions) && pl.ext.Linked?
  {
    hide ManifestFits, Passes, BothStaged;
  }

  /** A manifest that has changed in the transaction has changed. */
  lemma ManifestChanged(pl: Places, g: Tree, u: Tree, v: Tree, w: Tree, s: Path)
    requires BesideStage(s, g, u) && RemovedBelow(v, w, s) && Apart(pl.manifest, s)
    ensures !SameAt(u, v, Loc(pl, Manifest)) ==> !SameBelow(g, w, pl.manifest)
    ensures pl.manifest in u <==> pl.manifest in g
  {
    hide Subtree;
    var m := pl.manifest;
    assert At(u, m) == At(g, m);
    if SameBelow(g, w, m) {
      forall k | m <= k ensures At(v, k) == At(u, k) {
        if s <= k { PrefixesMeet(s, m, k); }
        assert At(w, k) == At(v, k) && At(u, k) == At(g, k);
      }
      SameSubtree(v, u, m);
    }
  }

  lemma ManifestNotBack(pl: Places, v: Tree, w: Tree, s: Path)
    requires RemovedBelow(v, w, s)
    ensures pl.manifest !in v ==> pl.manifest !in w
  {
    assert At(w, pl.manifest) == At(v, pl.manifest) || pl.manifest !in w;
  }

  lemma RealFromStart(g: Tree, u: Tree, root: string, r: Path, s: Path)
    requires WellFormed(g) && s !in g && Staging(g, u, s) && Told(g, root, r, Subtree(u, s))
    ensures RealWay(u, Comps(root))
  {
    hide ManifestAway, AwayFromStage, WayIn, Subtree;
    StagingIs(g, u, s);
    SameRealWay(g, u, Comps(root), s);
  }

  lemma DangerMeans(g: Tree, u: Tree, root: string, r: Path, s: Path)
    requires WellFormed(g) && IsStage(r, s) && s !in g && Staging(g, u, s) && Told(g, root, r, Subtree(u, s))
    ensures var pl, image := PlacesFor(u, root, r, s), Subtree(u, s);
            && (ManifestInDanger(g, root, r, image) && BothStaged(u, s) ==> LosesManifest(pl, u))
            && (ManifestStays(pl, u) <==>
                  !StateLinked(g, r) || (IsDir(image, GIT_MANIFEST) && !ManifestLead(g, root, r, image).0.Above?))
  {
    hide DATA, STAGED_EXTENSIONS, EXTENSIONS, GIT_MANIFEST, Subtree, Told, ManifestLead, ManifestPlace, OnWay,
      PlacesFor, WayIn, Comps, BothStaged, StateLinked;
    StagingIs(g, u, s);
    ToldStaged(g, u, root, r, s);
    ManifestInImage(g, u, root, r, s);
    SamePassages(u, root, r, s);
    SameStateLink(g, u, r, s);
    OpenMeans(g, root, r);
  }
}
