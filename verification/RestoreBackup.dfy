/** Restoring a whole backup archive (src/archive_stream.cpp). */
module RestoreBackup {
  import opened Paths
  import opened FileTree
  import opened PathWalk
  import opened Ways
  import opened FileSystem
  import opened PathSafety
  import opened FsOps
  import opened Extraction
  import opened RestorePlaces
  import opened RestoreState
  import opened RestoreSteps
  import opened RestoreManifest
  import opened RestoreRoots
  import opened RestoreTransaction
  import opened RestoreStage
  import opened RestoreOutcome

  // ---- The stage and its removal ----

  /** The archive is read to its end and leaves the backup places free. */
  ghost predicate Certain(archive: Archive) {
    && archive.readable && archive.intact
    && OLD_DATA !in Contents(archive) && OLD_EXTENSIONS !in Contents(archive)
  }

  /** From the empty stage in the tree g to its removal. */
  ghost predicate Cleaned(g: Tree, w: Tree, root: string, r: Path, s: Path, archive: Archive, result: RestoreResult,
                          sameDevice: bool, reliable: bool) {
    && (!Stageable(archive) ==> result == RestoreFailed && BesideStage(s, g, w))
    && (RootLinked(g, root) ==>
          && (result == RestoreFailed || result == RestoreAndRollbackFailed) && BesideStage(s, g, w)
          && (reliable && Certain(archive) ==> result == RestoreFailed && s !in w))
    && (Told(g, root, r, Contents(archive)) ==>
          if ManifestLead(g, root, r, Contents(archive)).0.Above?
          then result == RestoreFailed || result == RestoreAndRollbackFailed
          else
            && Finished(g, w, root, r, s, archive, result, sameDevice)
            && (reliable && sameDevice && Certain(archive) ==> FinishedCertain(g, w, root, r, s, archive, result)))
  }

  /** What the removal of the stage does when its path names it. */
  lemma StageRemoved(v: Tree, w: Tree, s: Path)
    requires RemovedBelow(v, w, s)
    ensures forall k | !(s <= k) :: At(w, k) == At(v, k)
    ensures w == Without(v, s) ==> s !in w
  {
    assert s <= s;
  }

  lemma BesideFurther(g: Tree, v: Tree, w: Tree, s: Path)
    requires BesideStage(s, g, v) && RemovedBelow(v, w, s)
    ensures BesideStage(s, g, w)
  {
    forall k | !(s <= k) ensures At(w, k) == At(g, k) {
      assert At(w, k) == At(v, k);
    }
  }

  /** What the contract of the removal says when the path names the stage. */
  lemma RemovalOfStage(v: Tree, w: Tree, stage: string, s: Path, cleaned: bool, reliable: bool)
    requires StageFound(v, stage, s)
    requires Found(v, stage) ==>
               var p := SourceLoc(v, stage);
               && RemovedBelow(v, w, p) && (cleaned ==> w == Without(v, p))
               && (reliable && p != [] && Settled(v, stage) ==> cleaned)
    ensures RemovedBelow(v, w, s) && (cleaned ==> s !in w) && (reliable ==> cleaned && s !in w)
  {
    hide Found, SourceLoc, Settled;
    StageRemoved(v, w, s);
  }

  /** With its root reached, the stage is still found. */
  lemma StageStillFound(pl: Places, u: Tree, v: Tree, root: string, r: Path, stage: string, s: Path)
    requires WellFormed(v) && Sound(pl, u, v) && Reached(pl, v) && Rooted(pl, u) && pl.way == Comps(root) && pl.r == r
    requires pl.stage == s && IsStage(r, s) && stage == JoinPath(root, s[|r|])
    ensures StageFound(v, stage, s)
  {
    hide Comps, Walk, RealWay, OnWay, Outside, End;
    var e := Emptied(v, s);
    EmptiedWellFormed(v, s);
    RootEnds(pl, u);
    WayKept(v, e, pl.way, s);
    RootKept(pl, e);
    StageInRoot(v, root, r, stage, s);
  }

  lemma RootEnds(pl: Places, u: Tree)
    requires Rooted(pl, u)
    ensures End(pl.way) == pl.r && !OnWay(pl.way, pl.stage)
  {
  }

  /** With its root lost, it is not. */
  lemma StageLost(pl: Places, v: Tree, stage: string, name: string)
    requires WellFormed(v) && Adrift(pl, v) && Comps(stage) == pl.way + [name]
    ensures !Found(v, stage) && StatOf(v, stage, false) == NoEntry
  {
    hide Gap, Comps;
    GapIsMissing(v, pl.way, [name], false);
  }

  /** The removal after a transaction over a plain root. */
  lemma StageAfter(g: Tree, u: Tree, v: Tree, root: string, r: Path, stage: string, s: Path)
    requires StageFor(g, root, r, stage, s) && Staging(g, u, s) && NoLinksAt(u, s) && WellFormed(v)
    requires PlacesFor(u, root, r, s).mode.Plain? && !PlacesFor(u, root, r, s).man.Above?
    requires Sound(PlacesFor(u, root, r, s), u, v)
    requires Reached(PlacesFor(u, root, r, s), v) || Adrift(PlacesFor(u, root, r, s), v)
    ensures if Reached(PlacesFor(u, root, r, s), v) then StageFound(v, stage, s)
            else !Found(v, stage) && StatOf(v, stage, false) == NoEntry
    ensures Layout(PlacesFor(u, root, r, s)) && PlacesFor(u, root, r, s).stage == s
  {
    hide Comps, Walk, PlacesFor, Layout, Rooted, Sound, RealWay, Gap, Found, StatOf, Where, StageFound;
    var pl := PlacesFor(u, root, r, s);
    StageForIs(g, u, root, r, stage, s);
    StageJoined(g, root, r, stage, s);
    PlacesAre(u, root, r, s);
    PlacesForLayout(u, root, r, s);
    if Reached(pl, v) {
      StageStillFound(pl, u, v, root, r, stage, s);
    } else {
      StageLost(pl, v, stage, s[|r|]);
    }
  }

  lemma StageJoined(g: Tree, root: string, r: Path, stage: string, s: Path)
    requires StageFor(g, root, r, stage, s)
    ensures stage == JoinPath(root, s[|r|])
  {
  }

  lemma StageCleanedAfter(pl: Places, v: Tree, w: Tree, stage: string, s: Path, cleaned: bool, reliable: bool)
    requires pl.stage == s
    requires if Reached(pl, v) then StageFound(v, stage, s) else !Found(v, stage) && StatOf(v, stage, false) == NoEntry
    requires !Found(v, stage) ==> w == v && cleaned == (StatOf(v, stage, false) == NoEntry)
    requires Found(v, stage) ==>
               var p := SourceLoc(v, stage);
               && RemovedBelow(v, w, p) && (cleaned ==> w == Without(v, p))
               && (reliable && p != [] && Settled(v, stage) ==> cleaned)
    ensures StageCleaned(pl, v, w, cleaned, reliable)
  {
    hide Found, SourceLoc, Settled, Reached, StatOf;
    if Reached(pl, v) {
      RemovalOfStage(v, w, stage, s, cleaned, reliable);
    }
  }

  // ---- From the transaction to the restore ----

  lemma CleanedUnpacking(g: Tree, u: Tree, w: Tree, root: string, r: Path, s: Path, archive: Archive, sameDevice: bool,
                         reliable: bool)
    requires WellFormed(g) && WellFormed(w) && s !in g && BesideStage(s, g, u) && RemovedBelow(u, w, s)
    requires reliable ==> s !in w
    requires reliable && archive.intact ==> Image(archive).None?
    ensures Cleaned(g, w, root, r, s, archive, RestoreFailed, sameDevice, reliable)
  {
    hide Told, RootLinked, WayIn, ManifestLead, ManifestPlace, ManifestAt, ExtensionsAt, DataAt, Expected, OffTheWay,
      Contents, PutInPlace, Stranded, RootInDanger, ManifestInDanger, ManifestCanFollow;
    BesideFurther(g, u, w, s);
    if s !in w {
      SameWithoutStage(g, w, s);
    }
    if reliable && archive.intact {
      NotExtracted(g, root, r, archive);
    }
  }

  lemma NotExtracted(g: Tree, root: string, r: Path, archive: Archive)
    requires Image(archive).None?
    ensures !Stageable(archive) && Expected(g, root, r, archive) == RestoreFailed
  {
  }

  lemma SameWithoutStage(g: Tree, w: Tree, s: Path)
    requires WellFormed(g) && WellFormed(w) && s !in g && s !in w && BesideStage(s, g, w)
    ensures forall k :: At(w, k) == At(g, k)
  {
    EmptySubtree(g, s);
    EmptySubtree(w, s);
  }

  lemma CleanedLinked(g: Tree, u: Tree, v: Tree, w: Tree, root: string, r: Path, s: Path, archive: Archive,
                      status: RestoreStatus, cleaned: bool, sameDevice: bool, reliable: bool)
    requires WellFormed(g) && IsStage(r, s) && s !in g && Staging(g, u, s) && RootLinked(g, root)
    requires archive.readable && Image(archive) == Some(Subtree(u, s))
    requires v == u && status != Restored && RemovedBelow(v, w, s) && (reliable ==> s !in w)
    requires !BothStaged(u, s) ==> status == Undone
    requires BackupsFree(PlacesFor(u, root, r, s), u) ==> status == Undone
    ensures Cleaned(g, w, root, r, s, archive, ResultOf(status, cleaned), sameDevice, reliable)
  {
    hide Told, RootLinked, WayIn, Image, DATA, STAGED_EXTENSIONS, OLD_DATA, OLD_EXTENSIONS, BothStaged, Finished,
      FinishedCertain, BackupsFree, Subtree, PlacesFor;
    ToldIsNotLinked(g, root, r, Contents(archive));
    BesideFurther(g, u, w, s);
    BothInImage(u, s);
    PlacesAre(u, root, r, s);
    BackupsInImage(u, s, PlacesFor(u, root, r, s));
  }

  lemma CleanedTold(g: Tree, u: Tree, v: Tree, w: Tree, root: string, r: Path, s: Path, archive: Archive,
                    status: RestoreStatus, cleaned: bool, sameDevice: bool, reliable: bool)
    requires WellFormed(g) && WellFormed(w) && IsStage(r, s) && s !in g && Staging(g, u, s)
    requires archive.readable && Image(archive) == Some(Subtree(u, s)) && Told(g, root, r, Subtree(u, s))
    requires Concluded(PlacesFor(u, root, r, s), u, v, status, sameDevice)
    requires !BothStaged(u, s) ==> status == Undone && v == u && RemovedBelow(v, w, s)
    requires !PlacesFor(u, root, r, s).man.Above? ==>
               Layout(PlacesFor(u, root, r, s)) && StageCleaned(PlacesFor(u, root, r, s), v, w, cleaned, reliable)
    requires reliable && sameDevice && BackupsFree(PlacesFor(u, root, r, s), u) ==>
               ConcludedCertain(PlacesFor(u, root, r, s), u, v, status)
    ensures Cleaned(g, w, root, r, s, archive, ResultOf(status, cleaned), sameDevice, reliable)
  {
    hide Told, RootLinked, WayIn, Image, DATA, STAGED_EXTENSIONS, OLD_DATA, OLD_EXTENSIONS, BothStaged, BackupsFree,
      Subtree, Finished, FinishedCertain, Concluded, ConcludedCertain, PlacesFor, RemovedBelow, WellFormed, BesideStage,
      Layout, StageCleaned, ManifestLead;
    var pl := PlacesFor(u, root, r, s);
    ToldStaged(g, u, root, r, s);
    ToldIsNotLinked(g, root, r, Subtree(u, s));
    BothInImage(u, s);
    PlacesAre(u, root, r, s);
    BackupsInImage(u, s, pl);
    StagingIs(g, u, s);
    if v == u && RemovedBelow(v, w, s) {
      BesideFurther(g, u, w, s);
    }
    if pl.man.Above? {
      NotRestoredAbove(pl, u, v, status, sameDevice);
    } else {
      FinishedAfter(g, u, v, w, root, r, s, archive, status, cleaned, sameDevice, reliable);
      if reliable && sameDevice && BackupsFree(pl, u) {
        FinishedCertainAfter(g, u, v, w, root, r, s, archive, status, cleaned);
      }
    }
  }

  lemma NotRestoredAbove(pl: Places, u: Tree, v: Tree, status: RestoreStatus, sameDevice: bool)
    requires Concluded(pl, u, v, status, sameDevice) && pl.man.Above?
    ensures status != Restored
  {
    hide Done, BothStaged, Passes, Closed;
  }

  lemma CleanedOther(g: Tree, u: Tree, v: Tree, w: Tree, root: string, r: Path, s: Path, archive: Archive,
                     status: RestoreStatus, cleaned: bool, sameDevice: bool, reliable: bool)
    requires Staging(g, u, s) && !Told(g, root, r, Subtree(u, s)) && !RootLinked(g, root)
    requires archive.readable && Image(archive) == Some(Subtree(u, s))
    requires !BothStaged(u, s) ==> status == Undone && v == u
    requires v == u ==> RemovedBelow(v, w, s)
    ensures Cleaned(g, w, root, r, s, archive, ResultOf(status, cleaned), sameDevice, reliable)
  {
    hide Told, RootLinked, WayIn, Image, DATA, STAGED_EXTENSIONS, BothStaged, Subtree, RemovedBelow, BesideStage;
    BothInImage(u, s);
    if v == u {
      StagingIs(g, u, s);
      BesideFurther(g, u, w, s);
    }
  }

  lemma ConcludedIsSound(pl: Places, u: Tree, v: Tree, status: RestoreStatus, sameDevice: bool)
    requires Concluded(pl, u, v, status, sameDevice) && !pl.man.Above?
    ensures Sound(pl, u, v) && (Reached(pl, v) || Adrift(pl, v))
  {
    hide Sound, RealWay, Gap;
  }

  lemma ValidTree(fs: FileSystem)
    requires fs.Valid()
    ensures WellFormed(fs.tree)
  {
  }

  /** From the empty stage to its removal, which is tried whatever happened before. */
  method RestoreFromStageAndClean(fs: FileSystem, root: string, stage: string, ghost r: Path, ghost s: Path,
                                  archive: Archive, ghost g: Tree)
    returns (result: RestoreResult, ghost unpacked: bool)
    requires fs.Valid() && StageFor(g, root, r, stage, s) && Staging(g, fs.tree, s)
    requires Subtree(fs.tree, s) == EMPTY_STAGE && archive.readable
    modifies fs
    ensures fs.Valid() && Cleaned(g, fs.tree, root, r, s, archive, result, fs.sameDevice, fs.reliable)
    ensures if unpacked then Image(archive).Some? else result == RestoreFailed && BesideStage(s, g, fs.tree)
    ensures fs.reliable && archive.intact ==> unpacked == Image(archive).Some?
  {
    hide *;
    StageReached(g, fs.tree, root, r, stage, s);
    var complete := Unpack(fs, stage, s, archive, g);
    unpacked := complete;
    ghost var u := fs.tree;
    StageReached(g, u, root, r, stage, s);
    StageForIs(g, u, root, r, stage, s);
    if !complete {
      var cleaned := RemovePathRecursive(fs, stage);
      RemovalOfStage(u, fs.tree, stage, s, cleaned, fs.reliable);
      ValidTree(fs);
      CleanedUnpacking(g, u, fs.tree, root, r, s, archive, fs.sameDevice, fs.reliable);
      BesideFurther(g, u, fs.tree, s);
      return RestoreFailed, unpacked;
    }
    UnpackedHasNoLinks(u, s, archive);
    var status := RestoreFromStagingDirectory(fs, root, stage, r, s);
    ghost var v := fs.tree;
    ghost var pl := PlacesFor(u, root, r, s);
    ghost var told := Told(g, root, r, Subtree(u, s));
    ValidTree(fs);
    if RootLinked(g, root) {
      LinkedStaged(g, u, root, r, s);
    } else if told {
      ToldStaged(g, u, root, r, s);
      if !pl.man.Above? {
        ConcludedIsSound(pl, u, v, status, fs.sameDevice);
        StageAfter(g, u, v, root, r, stage, s);
      }
    }
    var cleaned := RemovePathRecursive(fs, stage);
    result := ResultOf(status, cleaned);
    ValidTree(fs);
    if v == u {
      RemovalOfStage(v, fs.tree, stage, s, cleaned, fs.reliable);
    }
    if RootLinked(g, root) {
      CleanedLinked(g, u, v, fs.tree, root, r, s, archive, status, cleaned, fs.sameDevice, fs.reliable);
    } else if told {
      if !pl.man.Above? {
        StageCleanedAfter(pl, v, fs.tree, stage, s, cleaned, fs.reliable);
      }
      CleanedTold(g, u, v, fs.tree, root, r, s, archive, status, cleaned, fs.sameDevice, fs.reliable);
    } else {
      CleanedOther(g, u, v, fs.tree, root, r, s, archive, status, cleaned, fs.sameDevice, fs.reliable);
    }
  }

  /** A whole restore, from the tree t to the tree w: the root is made (g); without a stage that is all; if the
      archive was not unpacked completely, for whatever reason, only the stage was touched; and otherwise what
      happened beside the stage depends on the root and the archive. */
  ghost predicate Restoration(t: Tree, g: Tree, w: Tree, root: string, archive: Archive, stage: Option<Path>,
                              unpacked: bool, result: RestoreResult, sameDevice: bool, reliable: bool) {
    && RootMade(t, g, root) && WellFormed(w)
    && (stage.None? ==> !unpacked && w == g)
    && (if unpacked then archive.readable && Image(archive).Some?
        else result == RestoreFailed && OnlyStage(stage, g, w))
    && (stage.Some? ==>
          && LeadsToDir(g, Comps(root)) && IsStage(LedTo(g, Comps(root)), stage.value) && stage.value !in g
          && Cleaned(g, w, root, LedTo(g, Comps(root)), stage.value, archive, result, sameDevice, reliable)
          && (reliable && archive.intact ==> unpacked == Image(archive).Some?))
    && (reliable && HasRoom(t, g, root) ==> LeadsToDir(g, Comps(root)) && (archive.readable ==> stage.Some?))
  }

  lemma NoRoot(t: Tree, root: string, archive: Archive, sameDevice: bool, reliable: bool)
    requires WellFormed(t) && root == ""
    ensures Restoration(t, t, t, root, archive, None, false, RestoreFailed, sameDevice, reliable)
  {
    hide Creatable, LeadsToDir, FollowAimed;
    GrownNothing(t, FollowEnd(t, Comps(root)));
  }

  lemma NoStage(t: Tree, g: Tree, root: string, archive: Archive, sameDevice: bool, reliable: bool)
    requires RootMade(t, g, root)
    requires reliable && HasRoom(t, g, root) ==> LeadsToDir(g, Comps(root)) && !archive.readable
    ensures Restoration(t, g, g, root, archive, None, false, RestoreFailed, sameDevice, reliable)
  {
    hide HasRoom, LeadsToDir, OnlyDirsAdded, FollowAimed, Grown;
  }

  lemma WithStage(t: Tree, g: Tree, w: Tree, root: string, archive: Archive, stage: string, s: Path, unpacked: bool,
                  result: RestoreResult, sameDevice: bool, reliable: bool)
    requires RootMade(t, g, root) && LeadsToDir(g, Comps(root)) && StageFor(g, root, LedTo(g, Comps(root)), stage, s)
    requires Cleaned(g, w, root, LedTo(g, Comps(root)), s, archive, result, sameDevice, reliable) && archive.readable
    requires WellFormed(w)
    requires if unpacked then Image(archive).Some? else result == RestoreFailed && BesideStage(s, g, w)
    requires reliable && archive.intact ==> unpacked == Image(archive).Some?
    ensures Restoration(t, g, w, root, archive, Some(s), unpacked, result, sameDevice, reliable)
  {
    hide RootMade, HasRoom, Cleaned, LeadsToDir, LedTo, Comps, Image;
  }

  /** restore_backup_archive; g is the tree with the root made, which is the tree on entry if the root is
      there. */
  method RestoreBackupArchive(fs: FileSystem, root: string, archive: Archive)
    returns (result: RestoreResult, ghost g: Tree, ghost stage: Option<Path>, ghost unpacked: bool)
    requires fs.Valid()
    modifies fs
    ensures fs.Valid()
    ensures Restoration(old(fs.tree), g, fs.tree, root, archive, stage, unpacked, result, fs.sameDevice, fs.reliable)
  {
    hide *;
    ghost var t := fs.tree;
    stage, unpacked, g, result := None, false, t, RestoreFailed;
    ValidTree(fs);
    if root == "" {
      NoRoot(t, root, archive, fs.sameDevice, fs.reliable);
      return;
    }
    var ok := EnsureDirectoryTreeFollowing(fs, root);
    g := fs.tree;
    ValidTree(fs);
    RootIsMade(t, g, root, ok, fs.reliable);
    if !ok || !archive.readable {
      NoStage(t, g, root, archive, fs.sameDevice, fs.reliable);
      return;
    }
    var stagePath;
    ghost var g', s;
    ok, stagePath, g', s := MakeStage(fs, root);
    RootMadeAgain(g, g', t, root);
    if !ok {
      NoStage(t, g, root, archive, fs.sameDevice, fs.reliable);
      return;
    }
    result, unpacked := RestoreFromStageAndClean(fs, root, stagePath, LedTo(g, Comps(root)), s, archive, g);
    stage := Some(s);
    ValidTree(fs);
    WithStage(t, g, fs.tree, root, archive, stagePath, s, unpacked, result, fs.sameDevice, fs.reliable);
  }
}
