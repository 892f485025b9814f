/** restore_from_staging_directory. */
module RestoreTransaction {
  import opened Paths
  import opened FileTree
  import opened PathWalk
  import opened Ways
  import opened FileSystem
  import opened PathSafety
  import opened FsOps
  import opened RestorePlaces
  import opened RestoreState
  import opened RestoreSteps
  import opened RestoreRoots
  import opened RestoreManifest

  datatype RestoreStatus = Restored | Undone | RollbackFailed

  /** Data and extensions are as on entry, and of the manifest nothing is new. */
  ghost predicate Reverted(pl: Places, t: Tree, u: Tree) {
    TargetsKept(pl, t, u) && Less(t, u, pl.manifest)
  }

  /** Roll back and report; the caller's own error stays unless the rollback fails as well. */
  method Fail(fs: FileSystem, paths: RestorePaths, hadData: bool, hadExtensions: bool,
              installedData: bool, installedExtensions: bool, ghost pl: Places, ghost t: Tree)
    returns (status: RestoreStatus)
    requires Running(fs, paths, pl, t)
    requires (installedData ==> CanRemove(pl, Data)) && (installedExtensions ==> CanRemove(pl, Extensions))
    modifies fs
    ensures Running(fs, paths, pl, t) && status != Restored
    ensures pl.mode.Barred? && NoBackups(t, paths) ==> status == Undone
    ensures Adrift(pl, old(fs.tree)) ==> status == Undone && fs.tree == old(fs.tree)
    ensures Reached(pl, old(fs.tree)) ==>
              var u := old(fs.tree);
              && Reached(pl, fs.tree) && SameAt(u, fs.tree, Loc(pl, Manifest))
              && ((status == Undone && Less(t, u, pl.manifest) &&
                   BothUndoable(pl, t, u, hadData, hadExtensions, installedData, installedExtensions)) ==>
                    Reverted(pl, t, fs.tree))
              && (CutOff(pl, u) && hadExtensions ==> status == RollbackFailed && CutOff(pl, fs.tree))
              && ((fs.reliable && fs.sameDevice &&
                   BothReversible(pl, t, u, hadData, hadExtensions, installedData, installedExtensions)) ==>
                    status == Undone)
  {
    hide Sound, Match, Rooted, Leads, Layout, Subtree, BothUndoable, BothReversible, SameAt, Less, CutOff, NoBackups;
    hide RealWay, Gap, CanRemove;
    ghost var u := fs.tree;
    var ok := RollbackRestoreTargets(fs, paths, hadData, hadExtensions, installedData, installedExtensions, pl, t);
    status := if ok then Undone else RollbackFailed;
    if Reached(pl, u) && Less(t, u, pl.manifest) {
      LessThen(t, u, fs.tree, Loc(pl, Manifest));
    }
  }

  /** What was staged, and the manifest, are as they were. */
  ghost predicate StagedKept(pl: Places, t: Tree, u: Tree) {
    && SameAt(t, u, Loc(pl, StagedData)) && SameAt(t, u, Loc(pl, StagedExtensions))
    && SameAt(t, u, Loc(pl, StagedManifest)) && SameAt(t, u, Loc(pl, Manifest))
  }

  /** Both targets are free, and what was there is kept in the stage. */
  ghost predicate SetAside(pl: Places, t: Tree, u: Tree, hadData: bool, hadExtensions: bool) {
    && Away(t, u, Loc(pl, Data), Loc(pl, OldData), hadData) && Loc(pl, Data) !in u
    && Away(t, u, Loc(pl, Extensions), Loc(pl, OldExtensions), hadExtensions) && Loc(pl, Extensions) !in u
  }

  ghost predicate BackupsFree(pl: Places, t: Tree) {
    Loc(pl, OldData) !in t && Loc(pl, OldExtensions) !in t
  }

  /** The first step was taken: the data, if there was any, is in the stage. */
  ghost predicate DataAside(pl: Places, t: Tree, u: Tree, hadData: bool) {
    if hadData then pl.data in t && MovedTo(t, u, pl.data, pl.oldData) else pl.data !in t && u == t
  }

  lemma DataAgrees(pl: Places, t: Tree, u: Tree, hadData: bool)
    requires WellFormed(t) && DataAside(pl, t, u, hadData)
    ensures Agree(t, u) && Extends(Without(t, pl.data), u)
    ensures forall k | k in t && k in u :: k in Without(t, pl.data) && Without(t, pl.data)[k] == t[k]
    ensures forall k | !(pl.data <= k) && !(pl.oldData <= k) && k in t :: At(u, k) == At(t, k)
  {
    var v := Without(t, pl.data);
    if hadData {
      EmptySubtree(t, pl.oldData);
      forall k | k in v ensures k in u && u[k] == v[k] {
        assert At(u, k) == At(t, k);
      }
      forall k | k in t && k in u ensures k in v && u[k] == t[k] {
        assert At(u, k) == At(t, k) || pl.data <= k;
        assert pl.data <= k ==> At(u, k) == None;
      }
    } else {
      EmptySubtree(t, pl.data);
    }
  }

  /** The extensions path once the data is away: it still names what it named, or nothing that can be moved. */
  lemma ExtensionsSource(paths: RestorePaths, pl: Places, t: Tree, u: Tree, hadData: bool)
    requires Layout(pl) && Rooted(pl, t) && Leads(paths, pl, t) && Match(paths, pl) && WellFormed(t)
    requires Sound(pl, t, t) && Sound(pl, t, u) && RealWay(u, pl.way) && DataAside(pl, t, u, hadData)
    requires Found(t, paths.extensions)
    ensures !pl.ext.Stuck? ==>
              NamesPlace(u, paths.extensions, pl.extensions) && pl.extensions in t && pl.extensions in u
    ensures pl.ext.Stuck? ==> Immovable(u, paths.extensions, pl.oldExtensions)
  {
    hide Spells, RealWay, Match, Rooted, Sound, Walk, Layout, OnWay, ManifestLeads, InstalledTree;
    var path, v := paths.extensions, Without(t, pl.data);
    DataAgrees(pl, t, u, hadData);
    if pl.ext.Open? {
      RootedReal(pl, t);
      PlaceNamed(paths, pl, t, t, Extensions);
      PlaceNamed(paths, pl, t, u, Extensions);
      PlacesDiffer(pl, Data, Extensions);
      PlacesDiffer(pl, OldData, Extensions);
      assert At(u, pl.extensions) == At(t, pl.extensions);
    } else if pl.ext.Linked? {
      FoundStays(v, u, path);
    } else if Found(u, path) {
      WalkMeet(t, u, v, [], Comps(path), false, MAX_LINKS);
      WalkCommon(t, u, [], Comps(path), false, MAX_LINKS);
      StageBelowRoot(pl);
    }
  }

  lemma StageBelowRoot(pl: Places)
    requires Layout(pl)
    ensures pl.r <= pl.oldExtensions
  {
    assert pl.stage < Loc(pl, OldExtensions);
  }

  /** Where the path of the extensions leads to nothing, none of their places is there. */
  lemma NoExtensions(paths: RestorePaths, pl: Places, t: Tree)
    requires Layout(pl) && Rooted(pl, t) && Leads(paths, pl, t) && Match(paths, pl) && WellFormed(t) && Sound(pl, t, t)
    ensures !Found(t, paths.extensions) ==> pl.extensions !in t && !pl.ext.Linked?
    ensures pl.ext.Stuck? ==> pl.extensions !in t
  {
    hide Spells, RealWay, Match, Walk;
    if pl.ext.Open? {
      PlaceNamed(paths, pl, t, t, Extensions);
    } else if pl.ext.Linked? {
      FoundStays(Without(t, pl.data), t, paths.extensions);
    } else if pl.fixed in t {
      DirectInTree(t, pl.fixed);
    }
  }

  /** The entry state and the state after the first step, for the targets. */
  lemma AfterFirstStep(pl: Places, t: Tree, u: Tree, hadData: bool)
    requires Layout(pl) && WellFormed(t) && DataAside(pl, t, u, hadData)
    ensures FirstStepDone(pl, t, u, hadData)
  {
    hide Subtree, Layout;
    if hadData {
      MovedOnlyAt(t, u, pl.data, pl.oldData);
      OthersAside(pl, t, u, Data, OldData);
    }
  }

  ghost predicate FirstStepDone(pl: Places, t: Tree, u: Tree, hadData: bool) {
    && Away(t, u, Loc(pl, Data), Loc(pl, OldData), hadData) && Loc(pl, Data) !in u
    && SameAt(t, u, Loc(pl, Extensions)) && SameAt(t, u, Loc(pl, OldExtensions)) && StagedKept(pl, t, u)
  }

  lemma SecondStepTaken(pl: Places, t: Tree, u: Tree, v: Tree, hadData: bool)
    requires FirstStepDone(pl, t, u, hadData) && SamePlaces(pl, u, v, Extensions, OldExtensions)
    requires MovedTo(u, v, Loc(pl, Extensions), Loc(pl, OldExtensions))
    ensures SetAside(pl, t, v, hadData, true) && StagedKept(pl, t, v)
  {
    hide SameAt, Loc, Subtree, SamePlaces;
    MovedOnlyAt(u, v, Loc(pl, Extensions), Loc(pl, OldExtensions));
    PlaceSame(pl, u, v, Extensions, OldExtensions, Data);
    PlaceSame(pl, u, v, Extensions, OldExtensions, OldData);
    SamePresence(t, u, Loc(pl, Extensions));
    KeptFurther(pl, t, u, v, Extensions, OldExtensions);
  }

  lemma KeptFurther(pl: Places, t: Tree, u: Tree, v: Tree, x: PlaceId, y: PlaceId)
    requires StagedKept(pl, t, u) && SamePlaces(pl, u, v, x, y)
    requires x == Extensions && y == OldExtensions
    ensures StagedKept(pl, t, v)
  {
    hide SameAt, Loc, SamePlaces;
    PlaceSame(pl, u, v, x, y, StagedData);
    PlaceSame(pl, u, v, x, y, StagedExtensions);
    PlaceSame(pl, u, v, x, y, StagedManifest);
    PlaceSame(pl, u, v, x, y, Manifest);
    SameTwice(t, u, v, Loc(pl, StagedData));
    SameTwice(t, u, v, Loc(pl, StagedExtensions));
    SameTwice(t, u, v, Loc(pl, StagedManifest));
    SameTwice(t, u, v, Loc(pl, Manifest));
  }

  lemma SecondStepFailed(pl: Places, t: Tree, u: Tree, v: Tree, hadData: bool)
    requires FirstStepDone(pl, t, u, hadData) && SamePlaces(pl, u, v, Extensions, OldExtensions)
    requires SameAt(u, v, Loc(pl, Extensions)) && SameAt(u, v, Loc(pl, OldExtensions))
    requires if pl.ext.Stuck? then Loc(pl, Extensions) !in t else Loc(pl, Extensions) in t
    ensures BothUndoable(pl, t, v, hadData, true, false, false) && Less(t, v, pl.manifest)
    ensures BackupsFree(pl, t) ==> BothReversible(pl, t, v, hadData, true, false, false)
  {
    hide SameAt, Subtree, SamePlaces, Closed, Less;
    PlaceSame(pl, u, v, Extensions, OldExtensions, Data);
    PlaceSame(pl, u, v, Extensions, OldExtensions, OldData);
    SamePresence(t, u, Loc(pl, Extensions));
    SamePresence(u, v, Loc(pl, Extensions));
    SamePresence(t, u, Loc(pl, OldExtensions));
    SamePresence(u, v, Loc(pl, OldExtensions));
    StuckIsClosed(pl, t);
    KeptFurther(pl, t, u, v, Extensions, OldExtensions);
    SameIsLess(t, v, pl.manifest);
  }

  lemma SameIsLess(t: Tree, v: Tree, p: Path)
    requires SameAt(t, v, p)
    ensures Less(t, v, p)
  {
    assert Less(t, t, p);
    LessThen(t, t, v, p);
  }

  lemma BackupStillFree(pl: Places, t: Tree, u: Tree, hadData: bool)
    requires FirstStepDone(pl, t, u, hadData) && BackupsFree(pl, t)
    ensures Loc(pl, OldExtensions) !in u
  {
    hide SameAt;
    SamePresence(t, u, Loc(pl, OldExtensions));
  }

  lemma SecondStepSkipped(pl: Places, t: Tree, u: Tree, hadData: bool)
    requires FirstStepDone(pl, t, u, hadData) && Loc(pl, Extensions) !in t
    ensures SetAside(pl, t, u, hadData, false) && StagedKept(pl, t, u)
  {
    hide SameAt, Loc, Subtree;
    SamePresence(t, u, Loc(pl, Extensions));
  }

  /** With the extensions set aside, or not there, the root is lost exactly if they are on the way. */
  lemma ExtensionsPassed(pl: Places, t: Tree, u: Tree, hadData: bool)
    requires WellFormed(u) && Reached(pl, u) && FirstStepDone(pl, t, u, hadData)
    ensures Passes(pl, Extensions) ==> pl.extensions in t
  {
    hide SameAt, RealWay, OnWay;
    SamePresence(t, u, Loc(pl, Extensions));
    if Passes(pl, Extensions) {
      PassedIsThere(u, pl.way, pl.extensions);
    }
  }

  /** Second backup step: the extensions, after the data. */
  method SetExtensionsAside(fs: FileSystem, paths: RestorePaths, hadData: bool, hadExtensions: bool,
                            ghost pl: Places, ghost t: Tree)
    returns (status: RestoreStatus)
    requires Running(fs, paths, pl, t) && hadExtensions == Found(t, paths.extensions)
    requires Reached(pl, fs.tree) ==> Sound(pl, t, t) && DataAside(pl, t, fs.tree, hadData)
    modifies fs
    ensures Running(fs, paths, pl, t)
    ensures pl.mode.Barred? && NoBackups(t, paths) ==> status != RollbackFailed
    ensures Adrift(pl, old(fs.tree)) ==> status != RollbackFailed && fs.tree == old(fs.tree)
    ensures Reached(pl, old(fs.tree)) ==>
              && (status == Restored ==>
                    && SetAside(pl, t, fs.tree, hadData, hadExtensions) && StagedKept(pl, t, fs.tree)
                    && (pl.ext.Stuck? ==> !hadExtensions)
                    && (Passes(pl, Extensions) ==> Adrift(pl, fs.tree)))
              && (Passes(pl, Extensions) ==> hadExtensions && !pl.ext.Stuck?) && SameAt(t, fs.tree, Loc(pl, Manifest))
              && (status == Undone && fs.sameDevice ==> Reverted(pl, t, fs.tree) && Reached(pl, fs.tree))
              && (!Passes(pl, Extensions) || (fs.sameDevice && status != Restored) ==> Reached(pl, fs.tree))
              && (fs.reliable && fs.sameDevice && BackupsFree(pl, t) ==>
                    status == if pl.ext.Stuck? && hadExtensions then Undone else Restored)
  {
    hide Sound, Match, Rooted, Leads, Layout, Closed, Found, SourceLoc, Subtree, NamesPlace, Immovable, DataAside;
    hide BothUndoable, BothReversible, SetAside, StagedKept, Reverted, SamePlaces, Less, MovedTo, CutOff, RealWay, Gap;
    hide SameAt, OnWay, FirstStepDone, BackupsFree;
    ghost var u := fs.tree;
    if pl.mode.Plain? {
      NotBoth(pl, u);
      StuckIsClosed(pl, t);
    }
    if Reached(pl, u) {
      BeforeSecondStep(paths, pl, t, u, hadData, hadExtensions);
    }
    if hadExtensions {
      var ok := MovePlace(fs, paths, Extensions, OldExtensions, pl, t);
      if Reached(pl, u) && ok {
        SecondStepTaken(pl, t, u, fs.tree, hadData);
      } else if Reached(pl, u) && fs.sameDevice {
        SecondStepFailed(pl, t, u, fs.tree, hadData);
      }
      if !ok {
        ghost var v := fs.tree;
        status := Fail(fs, paths, hadData, hadExtensions, false, false, pl, t);
        if Reached(pl, u) {
          ManifestAside(pl, t, u, v, fs.tree, hadData);
        }
        return;
      }
    } else if Reached(pl, u) {
      SecondStepSkipped(pl, t, u, hadData);
    }
    if Reached(pl, u) {
      KeptManifest(pl, t, fs.tree);
    }
    status := Restored;
  }

  lemma KeptManifest(pl: Places, t: Tree, u: Tree)
    requires StagedKept(pl, t, u)
    ensures SameAt(t, u, Loc(pl, Manifest))
  {
    hide SameAt;
  }

  lemma ManifestAside(pl: Places, t: Tree, u: Tree, v: Tree, w: Tree, hadData: bool)
    requires FirstStepDone(pl, t, u, hadData) && SamePlaces(pl, u, v, Extensions, OldExtensions)
    requires SameAt(v, w, Loc(pl, Manifest)) || w == v
    ensures SameAt(t, w, Loc(pl, Manifest))
  {
    hide SameAt, SamePlaces;
    PlaceSame(pl, u, v, Extensions, OldExtensions, Manifest);
    SameTwice(t, u, v, Loc(pl, Manifest));
    if w != v {
      SameTwice(t, v, w, Loc(pl, Manifest));
    }
  }

  /** What is known before the second backup step. */
  lemma BeforeSecondStep(paths: RestorePaths, pl: Places, t: Tree, u: Tree, hadData: bool, hadExtensions: bool)
    requires Layout(pl) && Rooted(pl, t) && Leads(paths, pl, t) && Match(paths, pl) && WellFormed(t)
    requires Sound(pl, t, t) && Sound(pl, t, u) && Reached(pl, u) && DataAside(pl, t, u, hadData)
    requires hadExtensions == Found(t, paths.extensions)
    ensures FirstStepDone(pl, t, u, hadData) && (BackupsFree(pl, t) ==> pl.oldExtensions !in u)
    ensures Passes(pl, Extensions) ==> hadExtensions && !pl.ext.Stuck?
    ensures !hadExtensions ==> pl.extensions !in t
    ensures hadExtensions && !pl.ext.Stuck? ==>
              NamesPlace(u, paths.extensions, pl.extensions) && pl.extensions in t && pl.extensions in u
    ensures pl.ext.Stuck? ==> pl.extensions !in t
    ensures hadExtensions && pl.ext.Stuck? ==> Immovable(u, paths.extensions, pl.oldExtensions)
  {
    hide Sound, Match, Rooted, Leads, Layout, Found, SourceLoc, NamesPlace, Immovable, DataAside, RealWay, OnWay;
    hide FirstStepDone, BackupsFree;
    NoExtensions(paths, pl, t);
    AfterFirstStep(pl, t, u, hadData);
    if BackupsFree(pl, t) {
      BackupStillFree(pl, t, u, hadData);
    }
    ReachedIs(pl, t, u);
    ExtensionsPassed(pl, t, u, hadData);
    if hadExtensions {
      ExtensionsSource(paths, pl, t, u, hadData);
    }
  }

  lemma ReachedIs(pl: Places, t: Tree, u: Tree)
    requires Reached(pl, u) && Sound(pl, t, u)
    ensures RealWay(u, pl.way) && WellFormed(u)
  {
  }

  lemma EntryState(pl: Places, t: Tree)
    ensures Reverted(pl, t, t)
  {
  }

  lemma FirstStepTried(pl: Places, t: Tree, u: Tree)
    requires SamePlaces(pl, t, u, Data, OldData)
    ensures SameAt(t, u, Loc(pl, Manifest))
  {
  }

  lemma FirstStepFailed(pl: Places, t: Tree, u: Tree)
    requires SamePlaces(pl, t, u, Data, OldData) && SameAt(t, u, Loc(pl, Data))
    ensures Reverted(pl, t, u)
  {
    hide Less, Subtree;
    assert SameAt(t, u, Loc(pl, Extensions)) && SameAt(t, u, Loc(pl, Manifest));
    SameIsLess(t, u, pl.manifest);
  }

  /** The root is lost because a target that is on the way to it was moved to the stage: the data, or else
      the extensions. */
  ghost predicate TakenAway(pl: Places, t: Tree, u: Tree) {
    && Adrift(pl, u)
    && if Passes(pl, Data) then FirstStepDone(pl, t, u, true)
       else Passes(pl, Extensions) && SetAside(pl, t, u, pl.data in t, true) && StagedKept(pl, t, u)
  }

  lemma NothingAdrift(pl: Places, t: Tree)
    requires Layout(pl) && Rooted(pl, t) && WellFormed(t) && pl.mode.Plain?
    ensures Reached(pl, t) && !Adrift(pl, t) && (Passes(pl, Data) ==> pl.data in t)
  {
    hide Gap, OnWay, RealWay, Layout;
    RootedReal(pl, t);
    GapIsNotRealHere(pl, t);
    if Passes(pl, Data) {
      PassedIsThere(t, pl.way, pl.data);
    }
  }

  lemma RootedReal(pl: Places, t: Tree)
    requires Rooted(pl, t)
    ensures RealWay(t, pl.way)
  {
  }

  lemma GapIsNotRealHere(pl: Places, t: Tree)
    requires RealWay(t, pl.way)
    ensures !Gap(t, pl.way)
  {
  }

  lemma DataMoved(pl: Places, t: Tree, u: Tree)
    requires Layout(pl) && WellFormed(t) && pl.data in t && MovedTo(t, u, pl.data, pl.oldData)
    ensures DataAside(pl, t, u, true) && FirstStepDone(pl, t, u, true) && SameAt(t, u, Loc(pl, Manifest))
  {
    hide SameAt, Away, Layout, MovedTo;
    AfterFirstStep(pl, t, u, true);
  }

  /** First half of restore_from_staging_directory: move what is installed into the stage. */
  method SetTargetsAside(fs: FileSystem, paths: RestorePaths, ghost pl: Places, ghost t: Tree)
    returns (status: RestoreStatus, hadData: bool, hadExtensions: bool)
    requires Running(fs, paths, pl, t) && t == fs.tree
    modifies fs
    ensures Running(fs, paths, pl, t) && hadExtensions == Found(t, paths.extensions)
    ensures pl.mode.Barred? && NoBackups(t, paths) ==> status != RollbackFailed
    ensures Reached(pl, fs.tree) ==>
              && (status == Restored ==>
                    && SetAside(pl, t, fs.tree, hadData, hadExtensions) && StagedKept(pl, t, fs.tree)
                    && (pl.ext.Stuck? ==> !hadExtensions))
              && (status == Undone && fs.sameDevice ==> Reverted(pl, t, fs.tree))
    ensures Adrift(pl, fs.tree) && fs.sameDevice ==> status != RollbackFailed && TakenAway(pl, t, fs.tree)
    ensures pl.mode.Plain? ==> SameAt(t, fs.tree, Loc(pl, Manifest))
    ensures pl.mode.Plain? && !Passes(pl, Data) && !Passes(pl, Extensions) ==> Reached(pl, fs.tree)
    ensures pl.mode.Plain? && fs.reliable && fs.sameDevice && BackupsFree(pl, t) ==>
              if Passes(pl, Data) || Passes(pl, Extensions) then Adrift(pl, fs.tree)
              else status == if pl.ext.Stuck? && hadExtensions then Undone else Restored
  {
    hide Sound, Match, Rooted, Leads, Layout, Closed, Found, SourceLoc, Subtree, NamesPlace, SameAt, Less, RealWay, Gap;
    hide Reverted, SetAside, StagedKept, NoBackups, SamePlaces, OnWay, FirstStepDone, DataAside, MovedTo;
    EntryState(pl, t);
    StuckIsClosed(pl, t);
    hadData := PathExists(fs, paths, Data, pl, t);
    hadExtensions := PathExists(fs, paths, Extensions, pl, t);
    if pl.mode.Plain? {
      NothingAdrift(pl, t);
      NamesHere(fs, paths, pl, t, Data);
    }
    if hadData {
      var ok := MovePlace(fs, paths, Data, OldData, pl, t);
      if pl.mode.Plain? {
        NotBoth(pl, fs.tree);
      }
      if !ok {
        if pl.mode.Plain? {
          FirstStepTried(pl, t, fs.tree);
          if fs.sameDevice {
            FirstStepFailed(pl, t, fs.tree);
          }
        }
        return Undone, hadData, hadExtensions;
      }
      if pl.mode.Plain? {
        DataMoved(pl, t, fs.tree);
      }
    } else if pl.mode.Plain? {
      DataAbsent(pl, t);
    }
    status := SetExtensionsAside(fs, paths, hadData, hadExtensions, pl, t);
    if pl.mode.Plain? {
      NotBoth(pl, fs.tree);
      if Adrift(pl, fs.tree) && fs.sameDevice && !Passes(pl, Data) {
        AwayWas(pl, t, fs.tree, hadData, hadExtensions);
      }
    }
  }

  lemma DataAbsent(pl: Places, t: Tree)
    requires pl.data !in t
    ensures DataAside(pl, t, t, false)
  {
  }

  /** What is in the stage was there before. */
  lemma AwayWas(pl: Places, t: Tree, u: Tree, hadData: bool, hadExtensions: bool)
    requires SetAside(pl, t, u, hadData, hadExtensions)
    ensures hadData == (pl.data in t) && hadExtensions == (pl.extensions in t)
  {
    hide Same;
    SamePresent(t, u, pl.data, pl.oldData);
    SamePresent(t, u, pl.extensions, pl.oldExtensions);
  }

  lemma SamePresent(t: Tree, u: Tree, a: Path, b: Path)
    ensures Same(t, a, u, b) ==> (a in t <==> b in u)
  {
    if Same(t, a, u, b) {
      SameSubtreePresent(t, u, a, b);
    }
  }

  /** The managed trees are the staged ones. */
  ghost predicate Installed(pl: Places, t: Tree, u: Tree) {
    && Same(t, pl.stagedData, u, pl.data) && Same(t, pl.stagedExtensions, u, pl.extensions)
    && Same(t, pl.stagedManifest, u, pl.manifest)
  }

  /** Data is installed, and what it replaced is in the stage. */
  ghost predicate DataInstalled(pl: Places, t: Tree, u: Tree, hadData: bool, hadExtensions: bool) {
    && Away(t, u, Loc(pl, Data), Loc(pl, OldData), hadData)
    && Away(t, u, Loc(pl, Extensions), Loc(pl, OldExtensions), hadExtensions)
    && Same(t, Loc(pl, StagedData), u, Loc(pl, Data))
    && SameAt(t, u, Loc(pl, StagedManifest)) && SameAt(t, u, Loc(pl, Manifest))
  }

  ghost predicate BothInstalled(pl: Places, t: Tree, u: Tree, hadData: bool, hadExtensions: bool) {
    && DataInstalled(pl, t, u, hadData, hadExtensions)
    && Same(t, Loc(pl, StagedExtensions), u, Loc(pl, Extensions))
  }

  /** The managed trees are the staged ones, but a file that the path of the manifest led to is missing. */
  ghost predicate InstalledBut(pl: Places, t: Tree, u: Tree) {
    && pl.fixed != [] && pl.stagedManifest !in t
    && BesideStage(pl.stage, Without(InstalledTree(pl, t), pl.led), u)
  }

  ghost predicate Done(pl: Places, t: Tree, u: Tree) {
    if pl.man.Inside? then InstalledBut(pl, t, u) else Installed(pl, t, u)
  }

  /** The root is lost with the manifest, after both trees were installed: they stay, and what they replaced
      is in the stage. */
  ghost predicate LeftInstalled(pl: Places, t: Tree, u: Tree) {
    && CanReach(pl) && Passes(pl, Manifest) && Adrift(pl, u)
    && AwayAt(pl, t, u, Data, pl.data in t) && AwayAt(pl, t, u, Extensions, pl.extensions in t)
    && TreesInstalled(pl, t, u) && Less(t, u, pl.manifest)
  }

  /** A manifest that is on the way to the root will be taken away. */
  ghost predicate Threatens(pl: Places, t: Tree) {
    pl.ext.Open? && Passes(pl, Manifest) && !IsDir(t, pl.stagedManifest)
  }

  /** The end of a transaction that has set the targets aside, however the calls go. */
  ghost predicate Ended(pl: Places, t: Tree, u: Tree, status: RestoreStatus, sameDevice: bool) {
    && (status == Restored ==> pl.ext.Open? && ManifestFits(pl, t, t) && Done(pl, t, u))
    && (!pl.man.Above? ==>
          && Sound(pl, t, u) && (Reached(pl, u) || Adrift(pl, u))
          && (!Threatens(pl, t) ==> Reached(pl, u))
          && (status == Undone && sameDevice ==>
                if Reached(pl, u) then Reverted(pl, t, u) else LeftInstalled(pl, t, u)))
  }

  /** An error leaves the manifest, as no link is on its way, or a directory was staged for it. */
  ghost predicate ManifestStays(pl: Places, t: Tree) {
    pl.man.Straight? || (!pl.man.Above? && IsDir(t, pl.stagedManifest))
  }

  /** The same if nothing fails. */
  ghost predicate EndedCertain(pl: Places, t: Tree, u: Tree, status: RestoreStatus, hadExtensions: bool) {
    && (!pl.man.Above? ==> status == Ending(pl, t, hadExtensions))
    && (status == Undone && ManifestStays(pl, t) && Reached(pl, u) ==> SameAt(t, u, Loc(pl, Manifest)))
    && (pl.ext.Open? && !pl.man.Above? && !IsDir(t, pl.stagedManifest) ==>
          && (Passes(pl, Manifest) && (pl.settled || pl.man.Straight?) ==> Adrift(pl, u))
          && (pl.man.Led? && status == Undone ==>
                && (pl.settled ==> pl.manifest !in u)
                && (pl.manifest in t ==> !SameAt(t, u, Loc(pl, Manifest)))))
  }

  /** After the manifest step, whichever way it went. */
  lemma ManifestStep(pl: Places, t: Tree, u: Tree, v: Tree, hadData: bool, hadExtensions: bool, ok: bool,
                     sameDevice: bool)
    requires BothInstalled(pl, t, u, hadData, hadExtensions) && (pl.man.Straight? || pl.man.Led?)
    requires SamePlaces(pl, u, v, StagedManifest, Manifest)
    requires ok ==> Same(u, pl.stagedManifest, v, pl.manifest)
    requires (!ok && sameDevice ==> Less(u, v, pl.manifest)) && CanInstall(pl, t) && pl.ext.Open?
    ensures ok ==> Done(pl, t, v)
    ensures BothUndoable(pl, t, v, hadData, hadExtensions, true, true)
    ensures BothReversible(pl, t, v, hadData, hadExtensions, true, true)
    ensures !ok && sameDevice ==> Less(t, v, pl.manifest)
    ensures Passes(pl, Manifest) && Adrift(pl, v) && !ok && sameDevice ==> LeftInstalled(pl, t, v)
  {
    hide BothInstalled, SamePlaces, Same, Less, BothUndoable, BothReversible, TreesInstalled, Installed, AwayAt, OnWay;
    hide Gap;
    StillInstalled(pl, t, u, v, hadData, hadExtensions);
    StillAway(pl, t, u, v, Data, hadData, hadExtensions);
    StillAway(pl, t, u, v, Extensions, hadData, hadExtensions);
    AwayIsUndoable(pl, t, v, hadData, hadExtensions);
    InstalledIsReversible(pl, t, v, hadData, hadExtensions);
    ManifestLess(pl, t, u, v, hadData, hadExtensions);
    ManifestTaken(pl, t, u, v, hadData, hadExtensions);
    HadIs(pl, t, u, hadData, hadExtensions);
  }

  lemma HadIs(pl: Places, t: Tree, u: Tree, hadData: bool, hadExtensions: bool)
    requires BothInstalled(pl, t, u, hadData, hadExtensions)
    ensures hadData == (pl.data in t) && hadExtensions == (pl.extensions in t)
  {
    hide Same, SameAt;
    SamePresent(t, u, pl.data, pl.oldData);
    SamePresent(t, u, pl.extensions, pl.oldExtensions);
  }

  /** The manifest step when its path leads into one of the installed trees. */
  lemma InsideStep(pl: Places, t: Tree, u: Tree, v: Tree, hadData: bool, hadExtensions: bool, ok: bool)
    requires pl.fixed != [] && pl.man.Inside?
    requires Layout(pl) && WellFormed(v) && BothInstalled(pl, t, u, hadData, hadExtensions)
    requires pl.data < pl.led || pl.extensions < pl.led
    requires RemovedBelow(u, v, pl.led) && (ok ==> pl.stagedManifest !in u && v == Without(u, pl.led))
    requires BesideStage(pl.stage, InstalledTree(pl, t), u)
    requires pl.stagedData in t && pl.stagedExtensions in t
    ensures ok ==> Done(pl, t, v)
    ensures BothUndoable(pl, t, v, hadData, hadExtensions, true, true)
    ensures BothReversible(pl, t, v, hadData, hadExtensions, true, true)
    ensures Less(t, v, pl.manifest)
  {
    hide BothUndoable, BothReversible, InstalledTree, Layout, Same, SameAt, Less, RemovedBelow;
    InsidePlaces(pl);
    InsideAway(pl, t, u, v, hadData, hadExtensions);
    AwayIsUndoable(pl, t, v, hadData, hadExtensions);
    InsideThere(pl, t, u, v, hadData, hadExtensions);
    RemovedBeside(u, v, pl.led, Loc(pl, Manifest));
    SameTwice(t, u, v, Loc(pl, Manifest));
    ManifestStill(pl, t, v);
    if ok {
      StagedAtEntry(pl, t, u, hadData, hadExtensions);
      BesideWithout(pl.stage, InstalledTree(pl, t), u, pl.led);
    }
  }

  lemma BesideWithout(s: Path, x: Tree, u: Tree, p: Path)
    requires BesideStage(s, x, u)
    ensures BesideStage(s, Without(x, p), Without(u, p))
  {
    forall k | !(s <= k) ensures At(Without(u, p), k) == At(Without(x, p), k) {
      assert At(u, k) == At(x, k);
    }
  }

  lemma InsidePlaces(pl: Places)
    requires Layout(pl) && (pl.data < pl.led || pl.extensions < pl.led)
    ensures Apart(pl.led, Loc(pl, OldData)) && Apart(pl.led, Loc(pl, OldExtensions)) && Apart(pl.led, Loc(pl, Manifest))
    ensures !(pl.led <= pl.data) && !(pl.led <= pl.extensions) && pl.fixed != []
  {
    var x := if pl.data < pl.led then Data else Extensions;
    var p := Loc(pl, x);
    assert Apart(Loc(pl, Data), Loc(pl, Extensions));
    ApartBelow(Loc(pl, OldData), p, pl.led);
    ApartBelow(Loc(pl, OldExtensions), p, pl.led);
    ApartBelow(Loc(pl, Manifest), p, pl.led);
    ApartBelow(if x == Data then pl.extensions else pl.data, p, pl.led);
  }

  lemma InsideAway(pl: Places, t: Tree, u: Tree, v: Tree, hadData: bool, hadExtensions: bool)
    requires BothInstalled(pl, t, u, hadData, hadExtensions) && RemovedBelow(u, v, pl.led)
    requires Apart(pl.led, Loc(pl, OldData)) && Apart(pl.led, Loc(pl, OldExtensions))
    ensures AwayAt(pl, t, v, Data, hadData) && AwayAt(pl, t, v, Extensions, hadExtensions)
  {
    hide RemovedBelow, Same, SameAt;
    RemovedBeside(u, v, pl.led, Loc(pl, OldData));
    RemovedBeside(u, v, pl.led, Loc(pl, OldExtensions));
    SamePresence(u, v, Loc(pl, OldData));
    SamePresence(u, v, Loc(pl, OldExtensions));
    SameThen(t, u, v, pl.data, pl.oldData, pl.oldData);
    SameThen(t, u, v, pl.extensions, pl.oldExtensions, pl.oldExtensions);
  }

  lemma InsideThere(pl: Places, t: Tree, u: Tree, v: Tree, hadData: bool, hadExtensions: bool)
    requires BothInstalled(pl, t, u, hadData, hadExtensions) && RemovedBelow(u, v, pl.led)
    requires !(pl.led <= pl.data) && !(pl.led <= pl.extensions)
    requires pl.stagedData in t && pl.stagedExtensions in t
    ensures BothReversible(pl, t, v, hadData, hadExtensions, true, true)
  {
    hide Same, SameAt, Away, Closed;
    SameSubtreePresent(t, u, pl.stagedData, pl.data);
    SameSubtreePresent(t, u, pl.stagedExtensions, pl.extensions);
    assert At(v, pl.data) == At(u, pl.data) && At(v, pl.extensions) == At(u, pl.extensions);
  }

  ghost predicate TreesInstalled(pl: Places, t: Tree, u: Tree) {
    && Same(t, Loc(pl, StagedData), u, Loc(pl, Data))
    && Same(t, Loc(pl, StagedExtensions), u, Loc(pl, Extensions))
  }

  lemma StillInstalled(pl: Places, t: Tree, u: Tree, v: Tree, hadData: bool, hadExtensions: bool)
    requires BothInstalled(pl, t, u, hadData, hadExtensions) && SamePlaces(pl, u, v, StagedManifest, Manifest)
    ensures TreesInstalled(pl, t, v)
  {
    hide SameAt, Subtree, SamePlaces, Loc, Away;
    PlaceSame(pl, u, v, StagedManifest, Manifest, Data);
    PlaceSame(pl, u, v, StagedManifest, Manifest, Extensions);
  }

  ghost predicate AwayAt(pl: Places, t: Tree, u: Tree, x: PlaceId, had: bool) {
    Away(t, u, Loc(pl, x), Loc(pl, BackupOf(x)), had)
  }

  lemma StillAway(pl: Places, t: Tree, u: Tree, v: Tree, x: PlaceId, hadData: bool, hadExtensions: bool)
    requires BothInstalled(pl, t, u, hadData, hadExtensions) && SamePlaces(pl, u, v, StagedManifest, Manifest)
    requires x.Data? || x.Extensions?
    ensures AwayAt(pl, t, v, x, if x.Data? then hadData else hadExtensions)
  {
    hide SameAt, Subtree, SamePlaces, Loc;
    PlaceSame(pl, u, v, StagedManifest, Manifest, BackupOf(x));
  }

  lemma AwayIsUndoable(pl: Places, t: Tree, v: Tree, hadData: bool, hadExtensions: bool)
    requires AwayAt(pl, t, v, Data, hadData) && AwayAt(pl, t, v, Extensions, hadExtensions)
    ensures BothUndoable(pl, t, v, hadData, hadExtensions, true, true)
  {
    hide Subtree, Loc, Away;
  }

  lemma InstalledIsReversible(pl: Places, t: Tree, v: Tree, hadData: bool, hadExtensions: bool)
    requires TreesInstalled(pl, t, v)
    ensures pl.stagedData in t && pl.stagedExtensions in t ==>
              BothReversible(pl, t, v, hadData, hadExtensions, true, true)
  {
    hide Same, Closed;
    SameSubtreePresent(t, v, Loc(pl, StagedData), Loc(pl, Data));
    SameSubtreePresent(t, v, Loc(pl, StagedExtensions), Loc(pl, Extensions));
  }

  lemma ManifestLess(pl: Places, t: Tree, u: Tree, v: Tree, hadData: bool, hadExtensions: bool)
    requires BothInstalled(pl, t, u, hadData, hadExtensions) || DataInstalled(pl, t, u, hadData, hadExtensions)
    ensures Less(u, v, pl.manifest) ==> Less(t, v, pl.manifest)
  {
    hide Subtree, Away, Less, SameAt;
    if Less(u, v, pl.manifest) {
      LessThen(t, u, v, pl.manifest);
    }
  }

  lemma ManifestTaken(pl: Places, t: Tree, u: Tree, v: Tree, hadData: bool, hadExtensions: bool)
    requires BothInstalled(pl, t, u, hadData, hadExtensions) && TreesInstalled(pl, t, v)
    ensures Same(u, pl.stagedManifest, v, pl.manifest) ==> Installed(pl, t, v)
  {
    hide Same, Away, SameAt;
    SamePresence(t, u, Loc(pl, StagedManifest));
    SameThen(t, u, v, pl.stagedManifest, pl.stagedManifest, pl.manifest);
  }

  /** Both trees were staged, and neither of the targets is on the way to the root. */
  ghost predicate CanInstall(pl: Places, t: Tree) {
    && pl.stagedData in t && pl.stagedExtensions in t && !Passes(pl, Data) && !Passes(pl, Extensions)
  }

  /** Data and extensions are installed; the manifest comes last. */
  method InstallManifest(fs: FileSystem, paths: RestorePaths, hadData: bool, hadExtensions: bool,
                         ghost pl: Places, ghost t: Tree)
    returns (status: RestoreStatus)
    requires Running(fs, paths, pl, t) && !pl.mode.Barred? && !Adrift(pl, fs.tree)
    requires pl.mode.Plain? ==>
               pl.ext.Open? && BothInstalled(pl, t, fs.tree, hadData, hadExtensions) && CanInstall(pl, t)
    modifies fs
    ensures fs.Valid()
    ensures pl.mode.Plain? ==> Ended(pl, t, fs.tree, status, fs.sameDevice)
    ensures pl.mode.Plain? && fs.reliable && fs.sameDevice ==> EndedCertain(pl, t, fs.tree, status, hadExtensions)
  {
    hide Sound, Match, Rooted, Leads, Layout, BothInstalled, InstalledTree, BesideStage, ManifestTried, ManifestCertain;
    hide RealWay, Gap, OnWay, Removable, StagedFile, Crossed, Comps, DirectoryOf, Found, SourceLoc, Ended, EndedCertain;
    hide BothUndoable, BothReversible, Reverted, Less, SameAt, CutOff, Closed;
    ghost var u := fs.tree;
    if pl.mode.Plain? {
      NotBoth(pl, u);
      AllInstalled(pl, t, u, hadData, hadExtensions);
    }
    var ok := RestoreGitManifest(fs, paths, pl, t);
    ghost var v, now := fs.tree, Onwards(pl);
    if pl.mode.Plain? {
      BeforeEnding(fs, paths, pl, t, u, v, hadData, hadExtensions, ok);
    }
    if ok {
      if pl.mode.Plain? {
        EndedWell(pl, t, u, v, hadExtensions, fs.sameDevice, fs.reliable);
      }
      return Restored;
    }
    status := Fail(fs, paths, hadData, hadExtensions, true, true, now, t);
    if pl.mode.Plain? && !pl.man.Above? {
      NotBoth(pl, v);
      EndedBadly(pl, t, u, v, fs.tree, hadData, hadExtensions, status, fs.sameDevice, fs.reliable);
    } else if pl.mode.Plain? {
      EndedAbove(pl, t, fs.tree, hadExtensions, status, fs.sameDevice);
    }
  }

  /** What the manifest step leaves, seen from the beginning. */
  lemma ManifestAfterAll(paths: RestorePaths, pl: Places, t: Tree, u: Tree, v: Tree, hadData: bool,
                         hadExtensions: bool, ok: bool, sameDevice: bool)
    requires Layout(pl) && WellFormed(v) && BothInstalled(pl, t, u, hadData, hadExtensions) && CanInstall(pl, t)
    requires Leads(paths, pl, t) && pl.ext.Open? && ManifestTried(pl, t, u, v, ok, sameDevice)
    requires NeedsTree(pl) ==> pl.fixed != [] && BesideStage(pl.stage, InstalledTree(pl, t), u)
    ensures !pl.man.Above? ==>
              && BothUndoable(pl, t, v, hadData, hadExtensions, true, true)
              && BothReversible(pl, t, v, hadData, hadExtensions, true, true)
              && (!ok && sameDevice ==> Less(t, v, pl.manifest))
    ensures ok ==> !pl.man.Above? && Done(pl, t, v)
    ensures Passes(pl, Manifest) && Adrift(pl, v) && !ok && sameDevice && !pl.man.Inside? && !pl.man.Above? ==>
              LeftInstalled(pl, t, v)
  {
    hide Layout, BothInstalled, BothUndoable, BothReversible, Less, Done, LeftInstalled, InstalledTree, BesideStage,
      SamePlaces, Same, Sound, RealWay, Gap, OnWay, RemovedBelow, Closed, Found, SourceLoc, Settled;
    if pl.man.Inside? {
      InsideStep(pl, t, u, v, hadData, hadExtensions, ok);
    } else if !pl.man.Above? {
      ManifestStep(pl, t, u, v, hadData, hadExtensions, ok, sameDevice);
    }
  }

  lemma EndedWell(pl: Places, t: Tree, u: Tree, v: Tree, hadExtensions: bool, sameDevice: bool, reliable: bool)
    requires pl.ext.Open? && Done(pl, t, v) && ManifestTried(pl, t, u, v, true, sameDevice)
    requires (pl.stagedManifest in u <==> pl.stagedManifest in t) &&
             (IsDir(u, pl.stagedManifest) <==> IsDir(t, pl.stagedManifest))
    requires reliable && sameDevice ==> ManifestCertain(pl, t, u, v, true)
    ensures Ended(pl, t, v, Restored, sameDevice)
    ensures reliable && sameDevice ==> EndedCertain(pl, t, v, Restored, hadExtensions)
  {
    hide Done, Sound, Reached, Adrift, OnWay, Closed, SamePlaces, Same, RemovedBelow, Less, IsDir;
  }

  lemma EndedAbove(pl: Places, t: Tree, w: Tree, hadExtensions: bool, status: RestoreStatus, sameDevice: bool)
    requires pl.man.Above? && status != Restored
    ensures Ended(pl, t, w, status, sameDevice) && EndedCertain(pl, t, w, status, hadExtensions)
  {
  }

  lemma EndedBadly(pl: Places, t: Tree, u: Tree, v: Tree, w: Tree, hadData: bool, hadExtensions: bool,
                   status: RestoreStatus, sameDevice: bool, reliable: bool)
    requires pl.ext.Open? && !pl.man.Above? && status != Restored && !(Reached(pl, v) && Adrift(pl, v))
    requires ManifestTried(pl, t, u, v, false, sameDevice) && SameAt(t, u, Loc(pl, Manifest)) && Sound(pl, t, w)
    requires (pl.stagedManifest in u <==> pl.stagedManifest in t) &&
             (IsDir(u, pl.stagedManifest) <==> IsDir(t, pl.stagedManifest))
    requires reliable && sameDevice ==> ManifestCertain(pl, t, u, v, false)
    requires Adrift(pl, v) ==> status == Undone && w == v
    requires Adrift(pl, v) && Passes(pl, Manifest) && sameDevice && !pl.man.Inside? ==> LeftInstalled(pl, t, v)
    requires pl.man.Inside? ==> !Passes(pl, Manifest)
    requires Reached(pl, v) ==>
               && Reached(pl, w) && SameAt(v, w, Loc(pl, Manifest))
               && (status == Undone && sameDevice ==> Reverted(pl, t, w))
               && (reliable && sameDevice ==> status == Undone)
    ensures Ended(pl, t, w, status, sameDevice)
    ensures reliable && sameDevice ==> EndedCertain(pl, t, w, status, hadExtensions)
  {
    hide Sound, Reached, Adrift, OnWay, Closed, SamePlaces, Same, SameAt, RemovedBelow, Less, IsDir, Reverted,
      LeftInstalled;
    if reliable && sameDevice {
      if v == u && Reached(pl, v) {
        SameTwice(t, v, w, Loc(pl, Manifest));
      }
      if Reached(pl, v) {
        SamePresence(v, w, Loc(pl, Manifest));
      }
      StaysChanged(t, u, v, w, Loc(pl, Manifest));
    }
    LostOnce(pl, w);
  }

  /** What has changed since the beginning still has. */
  lemma StaysChanged(t: Tree, u: Tree, v: Tree, w: Tree, p: Path)
    requires SameAt(t, u, p)
    ensures !SameAt(u, v, p) && (w == v || SameAt(v, w, p)) ==> !SameAt(t, w, p)
    ensures p in t <==> p in u
  {
    hide Subtree;
  }

  lemma LostOnce(pl: Places, w: Tree)
    ensures !(Reached(pl, w) && Adrift(pl, w))
  {
    NotBoth(pl, w);
  }

  /** What is known after the manifest step. */
  lemma BeforeEnding(fs: FileSystem, paths: RestorePaths, pl: Places, t: Tree, u: Tree, v: Tree, hadData: bool,
                     hadExtensions: bool, ok: bool)
    requires pl.mode.Plain? && Layout(pl) && Rooted(pl, t) && WellFormed(t) && fs.Valid() && v == fs.tree
    requires BothInstalled(pl, t, u, hadData, hadExtensions) && CanInstall(pl, t)
    requires Leads(paths, pl, t) && pl.ext.Open? && ManifestTried(pl, t, u, v, ok, fs.sameDevice)
    requires NeedsTree(pl) ==> pl.fixed != [] && BesideStage(pl.stage, InstalledTree(pl, t), u)
    ensures SameAt(t, u, Loc(pl, Manifest)) && (pl.man.Inside? ==> !Passes(pl, Manifest))
    ensures !pl.man.Above? ==>
              && BothUndoable(pl, t, v, hadData, hadExtensions, true, true)
              && BothReversible(pl, t, v, hadData, hadExtensions, true, true)
              && (!ok && fs.sameDevice ==> Less(t, v, pl.manifest))
    ensures ok ==> !pl.man.Above? && Done(pl, t, v)
    ensures Passes(pl, Manifest) && Adrift(pl, v) && !ok && fs.sameDevice && !pl.man.Inside? && !pl.man.Above? ==>
              LeftInstalled(pl, t, v)
    ensures CanRemove(Onwards(pl), Data) && CanRemove(Onwards(pl), Extensions)
    ensures pl.man.Above? || Onwards(pl) == pl
  {
    hide Layout, Rooted, ManifestTried, BothUndoable, BothReversible, Less, Done, LeftInstalled, InstalledTree,
      BesideStage, Same, OnWay, Gap, RealWay, ManifestLeads, ExtensionsLead;
    ManifestAfterAll(paths, pl, t, u, v, hadData, hadExtensions, ok, fs.sameDevice);
    if pl.man.Inside? {
      NotPassedLinked(pl, t);
    }
  }

  /** The tree before the manifest step. */
  lemma AllInstalled(pl: Places, t: Tree, u: Tree, hadData: bool, hadExtensions: bool)
    requires Layout(pl) && Rooted(pl, t) && WellFormed(t) && Sound(pl, t, u) && pl.ext.Open?
    requires BothInstalled(pl, t, u, hadData, hadExtensions) && pl.stagedExtensions in t
    ensures NeedsTree(pl) ==> pl.fixed != [] && BesideStage(pl.stage, InstalledTree(pl, t), u)
    ensures (pl.stagedManifest in u <==> pl.stagedManifest in t) && WellFormed(u)
    ensures IsDir(u, pl.stagedManifest) <==> IsDir(t, pl.stagedManifest)
  {
    hide Layout, InstalledTree, BesideStage, Away, RealWay, OnWay;
    StagedAtEntry(pl, t, u, hadData, hadExtensions);
    if NeedsTree(pl) {
      LinkIsThere(pl, t);
      InstalledBeside(pl, t, u);
    }
  }

  lemma LinkIsThere(pl: Places, t: Tree)
    requires Layout(pl) && Rooted(pl, t) && WellFormed(t) && NeedsTree(pl)
    ensures Parent(pl.fixedManifest) in t
  {
    hide RealWay, OnWay;
    if pl.man.Straight? {
      PassedIsThere(t, pl.way, pl.manifest);
    }
  }

  lemma StagedAtEntry(pl: Places, t: Tree, u: Tree, hadData: bool, hadExtensions: bool)
    requires BothInstalled(pl, t, u, hadData, hadExtensions)
    ensures pl.stagedManifest in u <==> pl.stagedManifest in t
    ensures IsDir(u, pl.stagedManifest) <==> IsDir(t, pl.stagedManifest)
  {
    hide Same, Away, SameAt, IsDir;
    SameNode(t, u, pl.stagedManifest);
  }

  lemma SameNode(t: Tree, u: Tree, p: Path)
    requires SameAt(t, u, p)
    ensures (p in u <==> p in t) && (IsDir(u, p) <==> IsDir(t, p))
  {
    hide Subtree;
  }

  /** What is set aside, with the staged trees untouched. */
  ghost predicate ReadyToInstall(pl: Places, t: Tree, u: Tree, hadData: bool, hadExtensions: bool) {
    && SetAside(pl, t, u, hadData, hadExtensions) && StagedKept(pl, t, u)
    && (pl.ext.Stuck? ==> !hadExtensions)
  }

  /** The data is installed, the extensions are still staged. */
  ghost predicate HalfInstalled(pl: Places, t: Tree, u: Tree, hadData: bool, hadExtensions: bool) {
    && DataInstalled(pl, t, u, hadData, hadExtensions) && SameAt(t, u, Loc(pl, StagedExtensions))
    && Loc(pl, Extensions) !in u && (pl.ext.Stuck? ==> !hadExtensions)
  }

  /** What a rollback gives, from a state in which the manifest is as on entry. */
  ghost predicate CanFail(pl: Places, t: Tree, u: Tree, hadData: bool, hadExtensions: bool,
                          installedData: bool, installedExtensions: bool) {
    && BothUndoable(pl, t, u, hadData, hadExtensions, installedData, installedExtensions)
    && Less(t, u, pl.manifest)
  }

  lemma DataStepTaken(pl: Places, t: Tree, u: Tree, v: Tree, hadData: bool, hadExtensions: bool)
    requires ReadyToInstall(pl, t, u, hadData, hadExtensions) && SamePlaces(pl, u, v, StagedData, Data)
    requires MovedTo(u, v, Loc(pl, StagedData), Loc(pl, Data))
    ensures HalfInstalled(pl, t, v, hadData, hadExtensions)
  {
    hide Same, SameAt, Loc, SamePlaces;
    MovedSame(u, v, Loc(pl, StagedData), Loc(pl, Data));
    PlaceSame(pl, u, v, StagedData, Data, OldData);
    PlaceSame(pl, u, v, StagedData, Data, OldExtensions);
    PlaceSame(pl, u, v, StagedData, Data, Extensions);
    PlaceSame(pl, u, v, StagedData, Data, StagedExtensions);
    PlaceSame(pl, u, v, StagedData, Data, StagedManifest);
    PlaceSame(pl, u, v, StagedData, Data, Manifest);
    SameTwice(t, u, v, Loc(pl, StagedExtensions));
    SameTwice(t, u, v, Loc(pl, StagedManifest));
    SameTwice(t, u, v, Loc(pl, Manifest));
    SamePresence(t, u, Loc(pl, StagedData));
    SameThen(t, u, v, Loc(pl, StagedData), Loc(pl, StagedData), Loc(pl, Data));
    SameThen(t, u, v, Loc(pl, Data), Loc(pl, OldData), Loc(pl, OldData));
    SameThen(t, u, v, Loc(pl, Extensions), Loc(pl, OldExtensions), Loc(pl, OldExtensions));
  }

  lemma DataStepFailed(pl: Places, t: Tree, u: Tree, v: Tree, hadData: bool, hadExtensions: bool)
    requires ReadyToInstall(pl, t, u, hadData, hadExtensions) && SamePlaces(pl, u, v, StagedData, Data)
    requires SameAt(u, v, Loc(pl, Data))
    ensures CanFail(pl, t, v, hadData, hadExtensions, false, false)
    ensures !pl.ext.Linked? || !hadExtensions ==> BothReversible(pl, t, v, hadData, hadExtensions, false, false)
  {
    hide Same, SameAt, Loc, SamePlaces, Less, Closed;
    StuckIsClosed(pl, t);
    PlaceSame(pl, u, v, StagedData, Data, OldData);
    PlaceSame(pl, u, v, StagedData, Data, OldExtensions);
    PlaceSame(pl, u, v, StagedData, Data, Extensions);
    PlaceSame(pl, u, v, StagedData, Data, Manifest);
    SamePresence(u, v, Loc(pl, Data));
    SameThen(t, u, v, Loc(pl, Data), Loc(pl, OldData), Loc(pl, OldData));
    SameThen(t, u, v, Loc(pl, Extensions), Loc(pl, OldExtensions), Loc(pl, OldExtensions));
    SameTwice(t, u, v, Loc(pl, Manifest));
    ManifestStill(pl, t, v);
  }

  lemma ManifestStill(pl: Places, t: Tree, v: Tree)
    requires SameAt(t, v, Loc(pl, Manifest))
    ensures Less(t, v, pl.manifest)
  {
    SameIsLess(t, v, Loc(pl, Manifest));
  }

  /** With the extensions away through a link, there is no way back for them. */
  lemma AwayIsCutOff(pl: Places, t: Tree, u: Tree, v: Tree, hadData: bool, hadExtensions: bool)
    requires ReadyToInstall(pl, t, u, hadData, hadExtensions) && SamePlaces(pl, u, v, StagedData, Data)
    requires pl.ext.Linked? && hadExtensions
    ensures CutOff(pl, v)
  {
    hide Same, SameAt, SamePlaces;
    PlacePresent(pl, u, v, StagedData, Data, Extensions);
    PlacePresent(pl, u, v, StagedData, Data, OldExtensions);
  }

  lemma ExtensionsStepTaken(pl: Places, t: Tree, u: Tree, v: Tree, hadData: bool, hadExtensions: bool)
    requires HalfInstalled(pl, t, u, hadData, hadExtensions) && SamePlaces(pl, u, v, StagedExtensions, Extensions)
    requires MovedTo(u, v, Loc(pl, StagedExtensions), Loc(pl, Extensions))
    ensures BothInstalled(pl, t, v, hadData, hadExtensions)
  {
    hide Same, SameAt, Loc, SamePlaces;
    MovedSame(u, v, Loc(pl, StagedExtensions), Loc(pl, Extensions));
    PlaceSame(pl, u, v, StagedExtensions, Extensions, OldData);
    PlaceSame(pl, u, v, StagedExtensions, Extensions, OldExtensions);
    PlaceSame(pl, u, v, StagedExtensions, Extensions, Data);
    PlaceSame(pl, u, v, StagedExtensions, Extensions, StagedManifest);
    PlaceSame(pl, u, v, StagedExtensions, Extensions, Manifest);
    SamePresence(t, u, Loc(pl, StagedExtensions));
    SameTwice(t, u, v, Loc(pl, StagedManifest));
    SameTwice(t, u, v, Loc(pl, Manifest));
    SameThen(t, u, v, Loc(pl, StagedExtensions), Loc(pl, StagedExtensions), Loc(pl, Extensions));
    SameThen(t, u, v, Loc(pl, StagedData), Loc(pl, Data), Loc(pl, Data));
    SameThen(t, u, v, Loc(pl, Data), Loc(pl, OldData), Loc(pl, OldData));
    SameThen(t, u, v, Loc(pl, Extensions), Loc(pl, OldExtensions), Loc(pl, OldExtensions));
  }

  lemma ExtensionsStepFailed(pl: Places, t: Tree, u: Tree, v: Tree, hadData: bool, hadExtensions: bool)
    requires HalfInstalled(pl, t, u, hadData, hadExtensions) && SamePlaces(pl, u, v, StagedExtensions, Extensions)
    requires SameAt(u, v, Loc(pl, Extensions))
    ensures CanFail(pl, t, v, hadData, hadExtensions, true, false) && SameAt(t, v, Loc(pl, Manifest))
    ensures (!pl.ext.Linked? || !hadExtensions) && Loc(pl, StagedData) in t ==>
              BothReversible(pl, t, v, hadData, hadExtensions, true, false)
    ensures pl.ext.Linked? && hadExtensions ==> CutOff(pl, v)
  {
    hide Same, SameAt, SamePlaces, Less, Closed, Loc;
    StuckIsClosed(pl, t);
    PlaceSame(pl, u, v, StagedExtensions, Extensions, OldData);
    PlaceSame(pl, u, v, StagedExtensions, Extensions, OldExtensions);
    PlaceSame(pl, u, v, StagedExtensions, Extensions, Data);
    PlaceSame(pl, u, v, StagedExtensions, Extensions, Manifest);
    SamePresence(u, v, Loc(pl, Extensions));
    SameSubtreePresent(t, u, Loc(pl, StagedData), Loc(pl, Data));
    SameThen(t, u, v, Loc(pl, Data), Loc(pl, OldData), Loc(pl, OldData));
    SameThen(t, u, v, Loc(pl, Extensions), Loc(pl, OldExtensions), Loc(pl, OldExtensions));
    SameTwice(t, u, v, Loc(pl, Manifest));
    ManifestStill(pl, t, v);
    CutOffIs(pl, v);
  }

  lemma CutOffIs(pl: Places, v: Tree)
    ensures CutOff(pl, v) <==> pl.ext.Linked? && Loc(pl, Extensions) !in v && Loc(pl, OldExtensions) in v
  {
  }

  /** How a transaction ends that goes on after the data is installed, if nothing fails. */
  ghost function Ending(pl: Places, t: Tree, hadExtensions: bool): RestoreStatus {
    if pl.ext.Open? && ManifestFits(pl, t, t) then Restored
    else if pl.ext.Linked? && hadExtensions then RollbackFailed
    else Undone
  }

  /** The data is installed; the extensions and the manifest follow. */
  method InstallExtensions(fs: FileSystem, paths: RestorePaths, hadData: bool, hadExtensions: bool,
                           ghost pl: Places, ghost t: Tree)
    returns (status: RestoreStatus)
    requires Running(fs, paths, pl, t) && !pl.mode.Barred? && !Adrift(pl, fs.tree)
    requires pl.mode.Plain? ==> HalfInstalled(pl, t, fs.tree, hadData, hadExtensions) && CanInstall(pl, t)
    modifies fs
    ensures fs.Valid()
    ensures pl.mode.Plain? ==> Ended(pl, t, fs.tree, status, fs.sameDevice)
    ensures pl.mode.Plain? && pl.ext.Linked? && hadExtensions ==> status == RollbackFailed && CutOff(pl, fs.tree)
    ensures pl.mode.Plain? && fs.reliable && fs.sameDevice ==> EndedCertain(pl, t, fs.tree, status, hadExtensions)
  {
    hide Sound, Match, Rooted, Leads, Layout, Closed, Found, SourceLoc, Same, SameAt, Less, SamePlaces, BothInstalled;
    hide BothUndoable, BothReversible, Reverted, CutOff, MovedTo, DataInstalled, NamesPlace, Ended, EndedCertain;
    hide RealWay, Gap, OnWay;
    ghost var u := fs.tree;
    StuckIsClosed(pl, t);
    if pl.mode.Plain? {
      NotBoth(pl, u);
      NamesHere(fs, paths, pl, t, StagedExtensions);
      StageNotPassed(pl, t, StagedExtensions);
      StillStagedAt(pl, t, u, hadData, hadExtensions);
    }
    var ok := MovePlace(fs, paths, StagedExtensions, Extensions, pl, t);
    ghost var v := fs.tree;
    if pl.mode.Plain? {
      NotBoth(pl, v);
      if ok {
        ExtensionsStepTaken(pl, t, u, v, hadData, hadExtensions);
      } else if fs.sameDevice || !pl.ext.Open? {
        NothingMoved(pl, u, StagedExtensions, Extensions);
        ExtensionsStepFailed(pl, t, u, v, hadData, hadExtensions);
      }
    }
    if !ok {
      status := Fail(fs, paths, hadData, hadExtensions, true, false, pl, t);
      if pl.mode.Plain? {
        EndedEarly(fs, paths, pl, t, v, hadExtensions, status);
      }
      return;
    }
    status := InstallManifest(fs, paths, hadData, hadExtensions, pl, t);
  }

  /** A failure before the manifest step. */
  lemma EndedEarly(fs: FileSystem, paths: RestorePaths, pl: Places, t: Tree, v: Tree, hadExtensions: bool,
                   status: RestoreStatus)
    requires Running(fs, paths, pl, t) && pl.mode.Plain? && status != Restored && Reached(pl, fs.tree)
    requires status == Undone && fs.sameDevice ==> Reverted(pl, t, fs.tree)
    requires fs.reliable && fs.sameDevice ==>
               && !pl.ext.Open? && status == (if pl.ext.Linked? && hadExtensions then RollbackFailed else Undone)
               && SameAt(t, v, Loc(pl, Manifest)) && SameAt(v, fs.tree, Loc(pl, Manifest))
    ensures Ended(pl, t, fs.tree, status, fs.sameDevice)
    ensures fs.reliable && fs.sameDevice ==> EndedCertain(pl, t, fs.tree, status, hadExtensions)
  {
    hide Sound, Match, Rooted, Leads, Layout, RealWay, Gap, OnWay, Reverted, Less, SameAt;
    NotBoth(pl, fs.tree);
    if fs.reliable && fs.sameDevice {
      SameTwice(t, v, fs.tree, Loc(pl, Manifest));
    }
  }

  lemma StillStagedAt(pl: Places, t: Tree, u: Tree, hadData: bool, hadExtensions: bool)
    requires HalfInstalled(pl, t, u, hadData, hadExtensions)
    ensures pl.stagedExtensions in t ==> pl.stagedExtensions in u
    ensures pl.extensions !in u
  {
    hide Same, DataInstalled, SameAt;
    SamePresence(t, u, pl.stagedExtensions);
  }

  /** Second half: move the staged trees into place, data first. */
  method InstallStaged(fs: FileSystem, paths: RestorePaths, hadData: bool, hadExtensions: bool,
                       ghost pl: Places, ghost t: Tree)
    returns (status: RestoreStatus)
    requires Running(fs, paths, pl, t)
    requires Reached(pl, fs.tree) ==>
               && ReadyToInstall(pl, t, fs.tree, hadData, hadExtensions)
               && pl.stagedData in t && pl.stagedExtensions in t
    modifies fs
    ensures fs.Valid()
    ensures pl.mode.Barred? ==> fs.tree == t && status != Restored && (NoBackups(t, paths) ==> status == Undone)
    ensures Adrift(pl, old(fs.tree)) ==> status == Undone && fs.tree == old(fs.tree)
    ensures Reached(pl, old(fs.tree)) ==>
              && CanInstall(pl, t) && Ended(pl, t, fs.tree, status, fs.sameDevice)
              && (pl.ext.Linked? && hadExtensions ==> status == RollbackFailed && CutOff(pl, fs.tree))
              && (fs.reliable && fs.sameDevice ==> EndedCertain(pl, t, fs.tree, status, hadExtensions))
  {
    hide Sound, Match, Rooted, Leads, Layout, Closed, Found, SourceLoc, Same, SameAt, Less, SamePlaces, SetAside,
      StagedKept;
    hide BothUndoable, BothReversible, Reverted, CutOff, MovedTo, HalfInstalled, NoBackups, NamesPlace, Ended,
      EndedCertain, RealWay, Gap, OnWay;
    ghost var u := fs.tree;
    StuckIsClosed(pl, t);
    if pl.mode.Plain? {
      NotBoth(pl, u);
    }
    if Reached(pl, u) {
      NamesHere(fs, paths, pl, t, StagedData);
      StageNotPassed(pl, t, StagedData);
      ReadyAt(pl, t, u, hadData, hadExtensions);
    }
    var ok := MovePlace(fs, paths, StagedData, Data, pl, t);
    ghost var v := fs.tree;
    if Reached(pl, u) {
      NotBoth(pl, v);
      if ok {
        DataStepTaken(pl, t, u, v, hadData, hadExtensions);
      } else if fs.sameDevice {
        DataStepFailed(pl, t, u, v, hadData, hadExtensions);
      }
      if pl.ext.Linked? && hadExtensions {
        AwayIsCutOff(pl, t, u, v, hadData, hadExtensions);
      }
    }
    if !ok {
      status := Fail(fs, paths, hadData, hadExtensions, false, false, pl, t);
      if Reached(pl, u) {
        EndedEarly(fs, paths, pl, t, v, hadExtensions, status);
      }
      return;
    }
    status := InstallExtensions(fs, paths, hadData, hadExtensions, pl, t);
  }

  lemma ReadyAt(pl: Places, t: Tree, u: Tree, hadData: bool, hadExtensions: bool)
    requires ReadyToInstall(pl, t, u, hadData, hadExtensions) && WellFormed(u) && Reached(pl, u)
    ensures (pl.stagedData in t ==> pl.stagedData in u) && pl.data !in u
    ensures !Passes(pl, Data) && !Passes(pl, Extensions)
  {
    hide Same, SameAt, RealWay, OnWay;
    SamePresence(t, u, pl.stagedData);
    if Passes(pl, Data) {
      PassedIsThere(u, pl.way, pl.data);
    }
    if Passes(pl, Extensions) {
      PassedIsThere(u, pl.way, pl.extensions);
    }
  }

  /** Both trees that a restore needs are staged. */
  predicate BothStaged(t: Tree, s: Path) {
    IsDir(t, s + DATA) && IsDir(t, s + STAGED_EXTENSIONS)
  }

  /** How a transaction over a plain root ends if nothing fails: undone if a target is on the way to the root;
      otherwise with everything installed exactly if nothing is in the way of the extensions, nor of the
      manifest if one is staged; with a failed rollback if the old extensions could be taken away through a
      link; undone in every other case. */
  ghost function Outcome(pl: Places, t: Tree): RestoreStatus {
    if !BothStaged(t, pl.stage) || Passes(pl, Data) || Passes(pl, Extensions) then Undone
    else if pl.ext.Open? && ManifestFits(pl, t, t) then Restored
    else if pl.ext.Linked? then RollbackFailed
    else Undone
  }

  /** What a transaction over a plain root does to the tree, however the calls go. */
  ghost predicate Concluded(pl: Places, t: Tree, u: Tree, status: RestoreStatus, sameDevice: bool) {
    && (status == Restored ==>
          && BothStaged(t, pl.stage) && !Passes(pl, Data) && !Passes(pl, Extensions)
          && pl.ext.Open? && ManifestFits(pl, t, t) && Done(pl, t, u))
    && (!pl.man.Above? ==>
          && Sound(pl, t, u) && (Reached(pl, u) || Adrift(pl, u))
          && (!Passes(pl, Data) && !Passes(pl, Extensions) && !Threatens(pl, t) ==> Reached(pl, u))
          && (status == Undone && sameDevice ==>
                if Reached(pl, u) then Reverted(pl, t, u) else TakenAway(pl, t, u) || LeftInstalled(pl, t, u)))
  }

  /** The same if nothing fails: the outcome; what is on the way is taken away, and the root with it; with a
      failed rollback the extensions are away; and an error that leaves the root leaves a manifest below it as
      well, but not one behind a link. */
  ghost predicate ConcludedCertain(pl: Places, t: Tree, u: Tree, status: RestoreStatus) {
    && (!pl.man.Above? ==> status == Outcome(pl, t))
    && (!pl.man.Above? && status == RollbackFailed ==> CutOff(pl, u))
    && (BothStaged(t, pl.stage) && !pl.man.Above? && Endangered(pl, t) ==> Adrift(pl, u))
    && (status == Undone && ManifestStays(pl, t) && Reached(pl, u) ==> SameAt(t, u, Loc(pl, Manifest)))
    && (status == Undone && LosesManifest(pl, t) ==>
          && (pl.settled ==> pl.manifest !in u)
          && (pl.manifest in t ==> !SameAt(t, u, Loc(pl, Manifest))))
  }

  /** A target is on the way to the root, and will be taken away. */
  ghost predicate Endangered(pl: Places, t: Tree) {
    || Passes(pl, Data) || Passes(pl, Extensions)
    || (pl.ext.Open? && Passes(pl, Manifest) && (pl.settled || pl.man.Straight?) && !IsDir(t, pl.stagedManifest))
  }

  /** The manifest step will be reached, and remove a manifest behind a link, or parts of it. */
  ghost predicate LosesManifest(pl: Places, t: Tree) {
    && BothStaged(t, pl.stage) && !IsDir(t, pl.stagedManifest)
    && !Passes(pl, Data) && !Passes(pl, Extensions) && pl.ext.Open? && pl.man.Led?
  }

  method RestoreFromStage(fs: FileSystem, paths: RestorePaths, ghost pl: Places, ghost t: Tree)
    returns (status: RestoreStatus)
    requires Running(fs, paths, pl, t) && t == fs.tree
    requires pl.stagedData == pl.stage + DATA && pl.stagedExtensions == pl.stage + STAGED_EXTENSIONS
    requires NamesPlace(t, paths.stagedData, pl.stagedData)
    requires NamesPlace(t, paths.stagedExtensions, pl.stagedExtensions)
    modifies fs
    ensures fs.Valid()
    ensures !BothStaged(t, pl.stage) ==> status == Undone && fs.tree == t
    ensures pl.mode.Barred? ==> fs.tree == t && status != Restored && (NoBackups(t, paths) ==> status == Undone)
    ensures pl.mode.Plain? ==> Concluded(pl, t, fs.tree, status, fs.sameDevice)
    ensures pl.mode.Plain? && fs.reliable && fs.sameDevice && BackupsFree(pl, t) ==>
              ConcludedCertain(pl, t, fs.tree, status)
  {
    hide Sound, Match, Rooted, Leads, Layout, Found, SourceLoc, Reverted, CutOff, NoBackups, SetAside, SameAt;
    hide StagedKept, BackupsFree, RealWay, Gap, OnWay, Ended, EndedCertain, Concluded, ConcludedCertain, TakenAway;
    EntryState(pl, t);
    if pl.mode.Plain? {
      NothingAdrift(pl, t);
    }
    var isDirectory := PathIsDirectory(fs, paths, StagedData, pl, t);
    if !isDirectory {
      if pl.mode.Plain? {
        NotStaged(fs, paths, pl, t);
      }
      return Undone;
    }
    isDirectory := PathIsDirectory(fs, paths, StagedExtensions, pl, t);
    if !isDirectory {
      if pl.mode.Plain? {
        NotStaged(fs, paths, pl, t);
      }
      return Undone;
    }
    if pl.mode.Plain? {
      ExtensionsAtEntry(fs, paths, pl, t);
    }
    var hadData, hadExtensions;
    status, hadData, hadExtensions := SetTargetsAside(fs, paths, pl, t);
    ghost var u := fs.tree;
    if pl.mode.Plain? {
      NotBoth(pl, u);
      RunningSound(fs, paths, pl, t);
    }
    ghost var certain := fs.reliable && fs.sameDevice && BackupsFree(pl, t);
    if status == Restored {
      status := InstallStaged(fs, paths, hadData, hadExtensions, pl, t);
      if Reached(pl, u) {
        FromEnding(pl, t, fs.tree, hadExtensions, status, fs.sameDevice, fs.reliable);
      } else if pl.mode.Plain? {
        FromAway(pl, t, u, fs.sameDevice, certain);
      }
    } else if Reached(pl, u) {
      FromFailure(pl, t, u, hadExtensions, status, fs.sameDevice, certain);
    } else if pl.mode.Plain? {
      AwayStatus(pl, t, u, status, fs.sameDevice, certain);
    }
  }

  /** The root was lost while the targets were set aside, and they were not. */
  lemma AwayStatus(pl: Places, t: Tree, u: Tree, status: RestoreStatus, sameDevice: bool, certain: bool)
    requires Sound(pl, t, u) && Adrift(pl, u) && status != Restored && (certain ==> sameDevice)
    requires sameDevice ==> status == Undone && TakenAway(pl, t, u)
    requires !Passes(pl, Data) && !Passes(pl, Extensions) ==> Reached(pl, u)
    ensures Concluded(pl, t, u, status, sameDevice)
    ensures certain ==> ConcludedCertain(pl, t, u, status)
  {
    hide Sound, Reached, Adrift, OnWay, Reverted, LeftInstalled, TakenAway, Done, CutOff, SameAt, BothStaged,
      ConcludedCertain;
    NotBoth(pl, u);
    FromAway(pl, t, u, sameDevice, certain);
  }

  /** Nothing happens without both staged trees. */
  lemma NotStaged(fs: FileSystem, paths: RestorePaths, pl: Places, t: Tree)
    requires Running(fs, paths, pl, t) && t == fs.tree && Reached(pl, t) && !BothStaged(t, pl.stage)
    ensures Concluded(pl, t, t, Undone, fs.sameDevice) && ConcludedCertain(pl, t, t, Undone)
  {
    hide Sound, Match, Rooted, Leads, Layout, RealWay, Gap, OnWay, Reverted, Installed, TakenAway, LeftInstalled;
    EntryState(pl, t);
  }

  lemma FromEnding(pl: Places, t: Tree, w: Tree, hadExtensions: bool, status: RestoreStatus, sameDevice: bool,
                   reliable: bool)
    requires CanInstall(pl, t) && BothStaged(t, pl.stage) && (pl.ext.Linked? ==> hadExtensions)
    requires Ended(pl, t, w, status, sameDevice) && (pl.ext.Linked? && hadExtensions ==> CutOff(pl, w))
    requires reliable && sameDevice ==> EndedCertain(pl, t, w, status, hadExtensions)
    ensures Concluded(pl, t, w, status, sameDevice)
    ensures reliable && sameDevice ==> ConcludedCertain(pl, t, w, status)
  {
    hide Sound, Reached, Adrift, OnWay, Reverted, LeftInstalled, TakenAway, Done, CutOff, SameAt, BothStaged;
    hide ManifestFits;
  }

  /** The root was lost when the targets were set aside. */
  lemma FromAway(pl: Places, t: Tree, u: Tree, sameDevice: bool, certain: bool)
    requires Sound(pl, t, u) && Adrift(pl, u) && (sameDevice ==> TakenAway(pl, t, u))
    requires !Passes(pl, Data) && !Passes(pl, Extensions) ==> Reached(pl, u)
    ensures Concluded(pl, t, u, Undone, sameDevice)
    ensures certain ==> ConcludedCertain(pl, t, u, Undone)
  {
    hide Sound, Reached, Adrift, OnWay, Reverted, LeftInstalled, TakenAway, Done, CutOff, SameAt, BothStaged;
    NotBoth(pl, u);
  }

  /** The targets could not be set aside. */
  lemma FromFailure(pl: Places, t: Tree, u: Tree, hadExtensions: bool, status: RestoreStatus, sameDevice: bool,
                    certain: bool)
    requires Sound(pl, t, u) && Reached(pl, u) && status != Restored && SameAt(t, u, Loc(pl, Manifest))
    requires status == Undone && sameDevice ==> Reverted(pl, t, u)
    requires certain ==>
               && !Passes(pl, Data) && !Passes(pl, Extensions)
               && status == if pl.ext.Stuck? && hadExtensions then Undone else Restored
    ensures Concluded(pl, t, u, status, sameDevice)
    ensures certain && BothStaged(t, pl.stage) ==> ConcludedCertain(pl, t, u, status)
  {
    hide Sound, OnWay, RealWay, Gap, Reverted, LeftInstalled, TakenAway, Done, CutOff, SameAt, BothStaged;
    NotBoth(pl, u);
  }

  lemma RunningSound(fs: FileSystem, paths: RestorePaths, pl: Places, t: Tree)
    requires Running(fs, paths, pl, t) && pl.mode.Plain?
    ensures Sound(pl, t, fs.tree) && (Reached(pl, fs.tree) || Adrift(pl, fs.tree))
  {
    hide Sound, Match, Rooted, Leads, Layout, RealWay, Gap;
  }

  lemma ExtensionsAtEntry(fs: FileSystem, paths: RestorePaths, pl: Places, t: Tree)
    requires Running(fs, paths, pl, t) && t == fs.tree && pl.mode.Plain?
    ensures pl.ext.Linked? ==> Found(t, paths.extensions)
  {
    NoExtensions(paths, pl, t);
  }

  // ---- From a root ----

  /** restore_from_staging_directory, from a stage as an extraction leaves it. */
  method RestoreFromStagingDirectory(fs: FileSystem, root: string, stage: string, ghost r: Path, ghost s: Path)
    returns (status: RestoreStatus)
    requires fs.Valid() && Where(fs.tree, root, true) == Spot(r) && IsDir(fs.tree, r)
    requires IsStage(r, s) && Comps(stage) == Comps(root) + [s[|r|]] && IsDir(fs.tree, s) && NoLinksAt(fs.tree, s)
    modifies fs
    ensures fs.Valid()
    ensures !BothStaged(old(fs.tree), s) ==> status == Undone && fs.tree == old(fs.tree)
    ensures var t, pl := old(fs.tree), PlacesFor(old(fs.tree), root, r, s);
            && (pl.mode.Barred? ==> fs.tree == t && status != Restored && (BackupsFree(pl, t) ==> status == Undone))
            && (pl.mode.Plain? ==> Concluded(pl, t, fs.tree, status, fs.sameDevice))
            && (pl.mode.Plain? && fs.reliable && fs.sameDevice && BackupsFree(pl, t) ==>
                  ConcludedCertain(pl, t, fs.tree, status))
  {
    hide Sound, Match, Rooted, Leads, Layout, Comps, NamesPlace, Crossed, Concluded, ConcludedCertain, Found, Walk;
    hide ResolvePaths, BackupsFree, NoBackups, NoLinksAt, EXTENSIONS, GIT_MANIFEST, OLD_DATA, OLD_EXTENSIONS, PlacesFor,
      RealWay;
    ghost var pl, t := PlacesFor(fs.tree, root, r, s), fs.tree;
    SetUp(t, root, stage, r, s);
    StagedNames(t, root, stage, r, s, StagedData);
    StagedNames(t, root, stage, r, s, StagedExtensions);
    StagedNames(t, root, stage, r, s, OldData);
    StagedNames(t, root, stage, r, s, OldExtensions);
    var paths := ResolvePaths(root, stage);
    BackupsNamed(paths, pl, t);
    PlacesAre(t, root, r, s);
    AtOnce(pl, t);
    status := RestoreFromStage(fs, paths, pl, t);
  }

  /** At the beginning a plain root is reached. */
  lemma AtOnce(pl: Places, t: Tree)
    ensures Rooted(pl, t) ==> RealWay(t, pl.way)
  {
  }

  lemma BackupsNamed(paths: RestorePaths, pl: Places, t: Tree)
    requires NamesPlace(t, paths.oldData, pl.oldData) && NamesPlace(t, paths.oldExtensions, pl.oldExtensions)
    ensures BackupsFree(pl, t) ==> NoBackups(t, paths)
  {
  }
}
