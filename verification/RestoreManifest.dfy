/** The manifest step of a restore: restore_git_manifest. */
module RestoreManifest {
  import opened Paths
  import opened FileTree
  import opened PathWalk
  import opened Ways
  import opened FileSystem
  import opened PathSafety
  import opened FsOps
  import opened RestorePlaces
  import opened RestoreState
  import opened RestoreSteps

  /** What the path of the manifest names in a state in which both trees are installed. */
  ghost predicate ManifestNamed(path: string, pl: Places, u: Tree) {
    && (pl.settled <==> (Found(u, path) ==> Settled(u, path)))
    && match pl.man
       case Straight => NamesPlace(u, path, pl.manifest)
       case Led => NamesPlace(u, path, pl.manifest)
       case Inside => Found(u, path) && SourceLoc(u, path) == pl.led && (pl.data < pl.led || pl.extensions < pl.led)
       case Above => Found(u, path) && SourceLoc(u, path) == pl.led && !Settled(u, path)
  }

  lemma InstalledNotInStage(pl: Places, t: Tree)
    requires Layout(pl)
    ensures forall k | pl.stage <= k :: k !in InstalledTree(pl, t)
  {
    hide Replaced, Subtree;
    forall k | pl.stage <= k ensures k !in InstalledTree(pl, t) {
      ReplacedAt(Without(t, pl.stage), pl.data, Subtree(t, pl.stagedData), pl.fixed,
                 Subtree(t, pl.stagedExtensions), k);
      assert Apart(Loc(pl, Data), pl.stage);
      if pl.data <= k { PrefixesMeet(pl.data, pl.stage, k); }
      if pl.fixed <= k { PrefixesMeet(pl.fixed, pl.stage, k); }
    }
  }

  lemma ManifestNamedNow(paths: RestorePaths, pl: Places, t: Tree, u: Tree)
    requires Layout(pl) && Rooted(pl, t) && Leads(paths, pl, t) && Sound(pl, t, u) && RealWay(u, pl.way)
    requires Match(paths, pl) && WellFormed(t)
    requires CanReach(pl) && (NeedsTree(pl) ==> BesideStage(pl.stage, InstalledTree(pl, t), u))
    ensures ManifestNamed(paths.manifest, pl, u)
  {
    hide Spells, RealWay, Match, Rooted, Layout, Settled, OnWay, InstalledTree;
    if !NeedsTree(pl) {
      PlaceNamed(paths, pl, t, u, Manifest);
      if pl.manifest in u {
        TargetSettled(paths, pl, t, u, Manifest);
      }
    } else {
      var x, path := InstalledTree(pl, t), paths.manifest;
      InstalledNotInStage(pl, t);
      StageThere(pl, t, u);
      LookupBeside(pl.stage, x, u, path);
      if Found(x, path) {
        SettledBeside(pl.stage, x, u, path);
      }
      if pl.man.Led? || pl.man.Straight? {
        LedSame(pl, t, u, x);
      }
      if pl.man.Above? {
        EndOfWay(pl, t);
        TextSpells(paths, pl, Manifest);
        ManifestBelowRoot(pl);
        AboveUnsettled(pl, u, path);
      }
    }
  }

  lemma StageThere(pl: Places, t: Tree, u: Tree)
    requires Layout(pl) && Sound(pl, t, u)
    ensures pl.stage != [] && !IsLink(u, pl.stage) && pl.stage <= pl.stage
  {
  }

  lemma ManifestBelowRoot(pl: Places)
    requires Layout(pl)
    ensures |pl.fixedManifest| == |pl.r| + 2
  {
    assert |Parent(Parent(pl.fixedManifest))| == |pl.r|;
  }

  /** The place of a linked manifest is in the one tree exactly if it is in the other. */
  lemma LedSame(pl: Places, t: Tree, u: Tree, x: Tree)
    requires Layout(pl) && BesideStage(pl.stage, x, u)
    ensures pl.manifest in x <==> pl.manifest in u
  {
    assert Apart(Loc(pl, Manifest), pl.stage);
    assert At(u, pl.manifest) == At(x, pl.manifest);
  }

  /** What the root is in is lost together with the path that leads from there. */
  lemma AboveUnsettled(pl: Places, u: Tree, path: string)
    requires WellFormed(u) && RealWay(u, pl.way) && End(pl.way) == pl.r
    requires Spells(path, pl.way, pl.r, pl.fixedManifest) && |pl.fixedManifest| == |pl.r| + 2
    requires Found(u, path) && SourceLoc(u, path) <= pl.r
    ensures !Settled(u, path)
  {
    hide Gap, End, RealWay;
    var m := SourceLoc(u, path);
    var e := Emptied(u, m);
    EmptiedWellFormed(u, m);
    WayLost(u, e, pl.way);
    var rel := Comps(path)[|pl.way|..];
    assert Comps(path) == pl.way + rel && |rel| == 2;
    if RealWay(e, pl.way) {
      RealThrough(e, pl.way, rel, false, MAX_LINKS);
      RootKept(pl, e);
      assert !IsDots(rel[0]);
      assert m < pl.r + [rel[0]] && pl.r + [rel[0]] !in e;
    } else {
      GapIsMissing(e, pl.way, rel, false);
    }
  }

  /** In a transaction that began in t, the manifest that is staged in u, if any, can be installed, and the
      installed one can be removed. */
  ghost predicate ManifestFits(pl: Places, t: Tree, u: Tree) {
    && !IsDir(u, pl.stagedManifest) && pl.settled && !pl.man.Above?
    && (pl.stagedManifest in u ==> !Closed(pl, t, Manifest) && !Passes(pl, Manifest))
  }

  /** The effect of the manifest step, from u to v, however the calls go. */
  ghost predicate ManifestTried(pl: Places, t: Tree, u: Tree, v: Tree, ok: bool, sameDevice: bool) {
    && (ok ==> ManifestFits(pl, t, u))
    && (IsDir(u, pl.stagedManifest) ==> v == u)
    && (pl.stagedManifest in u && Closed(pl, t, Manifest) ==> !ok)
    && (!pl.man.Above? ==> Sound(pl, t, v) && (Reached(pl, v) || Adrift(pl, v)))
    && (!pl.man.Above? && (!Passes(pl, Manifest) || IsDir(u, pl.stagedManifest)) ==> Reached(pl, v))
    && match pl.man
       case Inside => RemovedBelow(u, v, pl.led) && (ok ==> pl.stagedManifest !in u && v == Without(u, pl.led))
       case Above => !ok
       case _ =>
         && SamePlaces(pl, u, v, StagedManifest, Manifest)
         && (ok ==> Same(u, pl.stagedManifest, v, pl.manifest))
         && (!ok && sameDevice ==> Less(u, v, pl.manifest))
  }

  /** The same if nothing fails: it succeeds if it can, with a straight path an error changes nothing, and
      with a link on its way the installed manifest is lost to an error, all of it or in part. */
  ghost predicate ManifestCertain(pl: Places, t: Tree, u: Tree, v: Tree, ok: bool) {
    && (ManifestFits(pl, t, u) ==> ok)
    && (pl.man.Straight? && !Passes(pl, Manifest) && !ok ==> v == u)
    && (Passes(pl, Manifest) && (pl.settled || pl.man.Straight?) && !IsDir(u, pl.stagedManifest) && !pl.man.Above? ==>
          Adrift(pl, v))
    && (pl.man.Led? && !IsDir(u, pl.stagedManifest) ==>
          && (pl.settled && !ok ==> pl.manifest !in v)
          && (pl.manifest in u ==> !SameAt(u, v, Loc(pl, Manifest))))
  }

  /** The places, unless the root itself may be damaged. */
  ghost function Onwards(pl: Places): Places {
    if pl.mode.Plain? && pl.man.Above? then pl.(mode := Unsteady) else pl
  }

  /** The manifest step leaves every other place alone; on success it installs the staged manifest, or
      removes the installed one if none was staged. With a link or a file on its way a staged manifest is
      refused, but only after the installed one was removed. */
  method RestoreGitManifest(fs: FileSystem, paths: RestorePaths, ghost pl: Places, ghost t: Tree) returns (ok: bool)
    requires Running(fs, paths, pl, t) && !pl.mode.Barred? && !Adrift(pl, fs.tree)
    requires pl.mode.Plain? ==> CanReach(pl)
    requires pl.mode.Plain? && NeedsTree(pl) ==>
               BesideStage(pl.stage, InstalledTree(pl, t), fs.tree)
    modifies fs
    ensures Running(fs, paths, Onwards(pl), t)
    ensures pl.mode.Plain? ==> ManifestTried(pl, t, old(fs.tree), fs.tree, ok, fs.sameDevice)
    ensures pl.mode.Plain? && fs.reliable && fs.sameDevice ==> ManifestCertain(pl, t, old(fs.tree), fs.tree, ok)
    ensures var u, m := old(fs.tree), SourceLoc(old(fs.tree), paths.manifest);
            (fs.reliable && StagedFile(u, paths.stagedManifest) && Found(u, paths.manifest) &&
             Removable(u, paths.manifest) &&
             Crossed(Without(u, m), Comps(DirectoryOf(paths.manifest)))) ==> !ok && fs.tree == Without(u, m)
  {
    hide Running, Sound, Match, Rooted, Leads, Layout, Closed, Found, SourceLoc, Crossed, Comps, DirectoryOf, RealWay,
      Gap, Passes, ManifestTried, ManifestCertain, ManifestNamed, NamesPlace, StatOf, BesideStage, Cleared,
      InstalledTree, RemovedBelow, Without, Settled, ChildNames, Onwards, SamePlaces, SameAt, MovedTo;
    ghost var u := fs.tree;
    ManifestAtEntry(fs, paths, pl, t);
    var staged := PathExists(fs, paths, StagedManifest, pl, t);
    var isDirectory := PathIsDirectory(fs, paths, StagedManifest, pl, t);
    if staged && isDirectory {
      ManifestRuns(fs, paths, pl, t);
      if pl.mode.Plain? {
        ManifestUntouched(pl, t, u, fs.sameDevice);
      }
      return false;
    }
    var installed := PathExists(fs, paths, Manifest, pl, t);
    ok := true;
    if installed {
      ok := RemovePathRecursive(fs, paths.manifest);
    }
    ghost var cleared := fs.tree;
    if pl.mode.Plain? {
      ManifestCleared(paths, pl, t, u, cleared, ok, fs.reliable);
    }
    ManifestStillRuns(fs, paths, pl, t, u, ok);
    if !ok {
      if pl.mode.Plain? {
        ManifestNotCleared(pl, t, u, cleared, fs.sameDevice, fs.reliable);
      }
      return;
    }
    if staged {
      ok := MoveManifest(fs, paths, pl, t, u);
    } else if pl.mode.Plain? {
      ManifestGone(pl, t, u, cleared, fs.sameDevice, fs.reliable);
    }
  }

  /** The second half of the step: the staged manifest goes to its place. */
  method MoveManifest(fs: FileSystem, paths: RestorePaths, ghost pl: Places, ghost t: Tree, ghost u: Tree)
    returns (ok: bool)
    requires Running(fs, paths, pl, t)
    requires pl.mode.Plain? ==> Cleared(pl, t, u, fs.tree, true, fs.reliable) && Sound(pl, t, u) &&
                                pl.stagedManifest in u && !IsDir(u, pl.stagedManifest)
    modifies fs
    ensures Running(fs, paths, pl, t)
    ensures pl.mode.Plain? ==> ManifestTried(pl, t, u, fs.tree, ok, fs.sameDevice)
    ensures pl.mode.Plain? && fs.reliable && fs.sameDevice ==> ManifestCertain(pl, t, u, fs.tree, ok)
    ensures Crossed(old(fs.tree), Comps(DirectoryOf(paths.manifest))) ==> !ok && fs.tree == old(fs.tree)
  {
    hide Match, Leads, Sound, Layout, Rooted, Crossed, Comps, DirectoryOf, RealWay, Gap, OnWay, Closed, SamePlaces;
    hide ManifestTried, ManifestCertain, NamesPlace, MovedTo, SameAt, Found, SourceLoc, BesideStage, Less, Cleared;
    ghost var v := fs.tree;
    if Reached(pl, v) {
      NamesHere(fs, paths, pl, t, StagedManifest);
      StageNotPassed(pl, t, StagedManifest);
      ClearedStaged(pl, t, u, v, fs.reliable);
    }
    ok := MovePlace(fs, paths, StagedManifest, Manifest, pl, t);
    if pl.mode.Plain? {
      ManifestMoved(pl, t, u, v, fs.tree, ok, fs.sameDevice, fs.reliable);
    }
  }

  lemma ClearedStaged(pl: Places, t: Tree, u: Tree, v: Tree, reliable: bool)
    requires Cleared(pl, t, u, v, true, reliable) && pl.stagedManifest in u
    ensures pl.stagedManifest in v
  {
    hide Sound, RealWay, Gap, OnWay, SameAt, SamePlaces;
    SamePresence(u, v, Loc(pl, StagedManifest));
  }

  ghost predicate Removable(t: Tree, path: string) {
    Settled(t, path) && SourceLoc(t, path) != []
  }

  /** What is staged is there, and no directory. */
  ghost predicate StagedFile(u: Tree, path: string) {
    Found(u, path) && !IsDir(u, SourceLoc(u, path))
  }

  lemma ManifestAtEntry(fs: FileSystem, paths: RestorePaths, pl: Places, t: Tree)
    requires Running(fs, paths, pl, t) && !pl.mode.Barred? && !Adrift(pl, fs.tree)
    requires pl.mode.Plain? ==> CanReach(pl)
    requires pl.mode.Plain? && NeedsTree(pl) ==> BesideStage(pl.stage, InstalledTree(pl, t), fs.tree)
    ensures fs.Valid() && WellFormed(fs.tree) && WellFormed(t) && Match(paths, pl)
    ensures pl.mode.Plain? ==>
              && Leads(paths, pl, t) && (!NeedsTree(pl) ==> pl.settled) && Reached(pl, fs.tree)
              && ManifestNamed(paths.manifest, pl, fs.tree)
              && NamesPlace(fs.tree, paths.stagedManifest, pl.stagedManifest)
              && Layout(pl) && Rooted(pl, t) && Sound(pl, t, fs.tree)
  {
    hide Match, Sound, Rooted, ManifestLeads, ExtensionsLead, Layout, NamesPlace, ManifestNamed, RealWay, Gap;
    if pl.mode.Plain? {
      ManifestNamedNow(paths, pl, t, fs.tree);
      PlaceNamed(paths, pl, t, fs.tree, StagedManifest);
    }
  }

  /** While the root is not touched, everything goes on. */
  lemma ManifestRuns(fs: FileSystem, paths: RestorePaths, pl: Places, t: Tree)
    requires Running(fs, paths, pl, t)
    ensures Running(fs, paths, Onwards(pl), t)
  {
    hide Layout, Rooted, Leads, Sound, RealWay, Gap, Match;
    MatchAnyMode(paths, pl);
  }

  /** A staged directory is refused at once. */
  lemma ManifestUntouched(pl: Places, t: Tree, u: Tree, sameDevice: bool)
    requires Layout(pl) && Rooted(pl, t) && Sound(pl, t, u) && Reached(pl, u) && IsDir(u, pl.stagedManifest)
    ensures ManifestTried(pl, t, u, u, false, sameDevice) && ManifestCertain(pl, t, u, u, false)
  {
    hide Sound, Layout, RealWay, Gap, Closed, Passes;
    NothingMoved(pl, u, StagedManifest, Manifest);
  }

  /** The installed manifest, if any, was removed as far as possible, from u to v. */
  ghost predicate Cleared(pl: Places, t: Tree, u: Tree, v: Tree, ok: bool, reliable: bool) {
    && (pl.man.Above? ==> !ok)
    && (ok ==> pl.settled)
    && (!pl.man.Above? ==>
          && Sound(pl, t, v) && (Reached(pl, v) || Adrift(pl, v))
          && (!Passes(pl, Manifest) ==> Reached(pl, v))
          && (reliable ==> ok == pl.settled)
          && (reliable && (pl.settled || pl.man.Straight?) && Passes(pl, Manifest) ==> Adrift(pl, v))
          && SameAt(u, v, Loc(pl, StagedManifest)))
    && (ok && Passes(pl, Manifest) ==> Adrift(pl, v))
    && match pl.man
       case Inside => RemovedBelow(u, v, pl.led) && (ok ==> v == Without(u, pl.led))
       case Above => true
       case _ =>
         && SamePlaces(pl, u, v, Manifest, Manifest) && Less(u, v, pl.manifest) && (ok ==> pl.manifest !in v)
         && (pl.manifest !in u ==> v == u) && (reliable && pl.manifest in u ==> !SameAt(u, v, Loc(pl, Manifest)))
  }

  /** What the contract of the removal means. */
  lemma ManifestCleared(paths: RestorePaths, pl: Places, t: Tree, u: Tree, v: Tree, ok: bool, reliable: bool)
    requires Layout(pl) && Rooted(pl, t) && Leads(paths, pl, t) && Match(paths, pl) && Sound(pl, t, u) && Reached(pl, u)
    requires ManifestNamed(paths.manifest, pl, u) && WellFormed(v) && WellFormed(t)
    requires CanReach(pl)
    requires if Found(u, paths.manifest) then Removal(u, v, paths.manifest, ok, reliable) else v == u && ok
    ensures Cleared(pl, t, u, v, ok, reliable)
  {
    hide Match, Sound, Rooted, Leads, Layout, RealWay, Gap, OnWay, Settled, RemovedBelow, Without, Removal;
    match pl.man
    case Straight => StraightCleared(paths, pl, t, u, v, ok, reliable);
    case Led => LedCleared(paths, pl, t, u, v, ok, reliable);
    case Inside => InsideCleared(paths, pl, t, u, v, ok, reliable);
    case Above => AboveCleared(paths, pl, t, u, v, ok, reliable);
  }

  /** A removal of what the path names, according to RemovePathRecursive. */
  ghost predicate Removal(u: Tree, v: Tree, path: string, ok: bool, reliable: bool) {
    var p := SourceLoc(u, path);
    && RemovedBelow(u, v, p) && (ok ==> v == Without(u, p) && Settled(u, path)) && (!ok ==> p in v)
    && (reliable && p != [] && !ok ==> !Found(v, path) && !Settled(u, path))
  }

  lemma RemovalHere(u: Tree, v: Tree, path: string, p: Path, ok: bool, reliable: bool)
    requires Found(u, path) && SourceLoc(u, path) == p && Removal(u, v, path, ok, reliable)
    ensures RemovedBelow(u, v, p) && (ok ==> v == Without(u, p) && Settled(u, path) && p !in v) && (!ok ==> p in v)
    ensures reliable && p != [] && !ok ==> !Found(v, path) && !Settled(u, path)
    ensures Less(u, v, p)
  {
    assert p <= p;
  }

  lemma StraightCleared(paths: RestorePaths, pl: Places, t: Tree, u: Tree, v: Tree, ok: bool, reliable: bool)
    requires Layout(pl) && Rooted(pl, t) && Leads(paths, pl, t) && Match(paths, pl) && Sound(pl, t, u) && Reached(pl, u)
    requires ManifestNamed(paths.manifest, pl, u) && WellFormed(v) && WellFormed(t) && pl.man.Straight?
    requires if Found(u, paths.manifest) then Removal(u, v, paths.manifest, ok, reliable) else v == u && ok
    ensures Cleared(pl, t, u, v, ok, reliable)
  {
    hide Match, Sound, Rooted, Layout, RealWay, Gap, OnWay, Settled, RemovedBelow, Without, Removal, SamePlaces, SameAt;
    hide Found, SourceLoc, Less;
    PlaceCleared(paths, pl, t, u, v, ok, reliable);
    if reliable && !ok && Reached(pl, v) {
      PlaceNamed(paths, pl, t, v, Manifest);
    }
  }

  lemma LedCleared(paths: RestorePaths, pl: Places, t: Tree, u: Tree, v: Tree, ok: bool, reliable: bool)
    requires Layout(pl) && Rooted(pl, t) && Leads(paths, pl, t) && Match(paths, pl) && Sound(pl, t, u) && Reached(pl, u)
    requires ManifestNamed(paths.manifest, pl, u) && WellFormed(v) && pl.man.Led?
    requires if Found(u, paths.manifest) then Removal(u, v, paths.manifest, ok, reliable) else v == u && ok
    ensures Cleared(pl, t, u, v, ok, reliable)
  {
    hide Match, Sound, Rooted, Layout, RealWay, Gap, OnWay, Settled, RemovedBelow, Without, Removal, SamePlaces, SameAt;
    hide Found, SourceLoc, Less, Leads;
    PlaceCleared(paths, pl, t, u, v, ok, reliable);
  }

  /** A manifest that has a place of its own. */
  lemma PlaceCleared(paths: RestorePaths, pl: Places, t: Tree, u: Tree, v: Tree, ok: bool, reliable: bool)
    requires Layout(pl) && Sound(pl, t, u) && Reached(pl, u) && NamesPlace(u, paths.manifest, pl.manifest)
    requires WellFormed(v)
    requires if Found(u, paths.manifest) then Removal(u, v, paths.manifest, ok, reliable) else v == u && ok
    ensures Sound(pl, t, v) && (Reached(pl, v) || Adrift(pl, v)) && (!Passes(pl, Manifest) ==> Reached(pl, v))
    ensures ok && Passes(pl, Manifest) ==> Adrift(pl, v)
    ensures SamePlaces(pl, u, v, Manifest, Manifest) && SameAt(u, v, Loc(pl, StagedManifest))
    ensures Less(u, v, pl.manifest) && (ok ==> pl.manifest !in v) && (!ok ==> pl.manifest in v)
    ensures if pl.manifest in u then (ok ==> Settled(u, paths.manifest)) else ok && v == u
    ensures reliable && !ok ==> !Found(v, paths.manifest) && !Settled(u, paths.manifest)
    ensures reliable && pl.manifest in u ==> !SameAt(u, v, Loc(pl, Manifest))
  {
    hide Sound, RealWay, Gap, OnWay, Settled, RemovedBelow, Without, Removal, SamePlaces, SameAt, Found, SourceLoc,
      Less;
    if pl.manifest in u {
      RemovalHere(u, v, paths.manifest, pl.manifest, ok, reliable);
      TargetRemoved(pl, t, u, v, Manifest);
      if SameAt(u, v, Loc(pl, Manifest)) {
        SamePresence(u, v, Loc(pl, Manifest));
        NothingRemoved(u, v, pl.manifest);
      }
    } else {
      NothingMoved(pl, u, Manifest, Manifest);
      LessSame(u, pl.manifest);
      if Passes(pl, Manifest) {
        PassedIsThere(u, pl.way, pl.manifest);
      }
    }
    StillStaged(pl, u, v);
  }

  lemma NothingRemoved(u: Tree, v: Tree, p: Path)
    requires RemovedBelow(u, v, p) && SameAt(u, v, p)
    ensures v == u
  {
    forall k ensures At(v, k) == At(u, k) {
      if p <= k {
        SameNodes(u, v, p, k);
      }
    }
    SameTree(v, u);
  }

  lemma LessSame(u: Tree, p: Path)
    ensures Less(u, u, p)
  {
  }

  lemma InsideCleared(paths: RestorePaths, pl: Places, t: Tree, u: Tree, v: Tree, ok: bool, reliable: bool)
    requires Layout(pl) && Rooted(pl, t) && Sound(pl, t, u) && Reached(pl, u)
    requires ManifestNamed(paths.manifest, pl, u) && WellFormed(v) && WellFormed(t) && pl.man.Inside?
    requires !Passes(pl, Data) && !Passes(pl, Extensions)
    requires Removal(u, v, paths.manifest, ok, reliable)
    ensures Cleared(pl, t, u, v, ok, reliable)
  {
    hide Sound, RealWay, Gap, Settled, RemovedBelow, Without, Removal, SamePlaces, SameAt, Found, SourceLoc, Less,
      Layout;
    RemovalHere(u, v, paths.manifest, pl.led, ok, reliable);
    InsideApart(pl, u);
    SoundRemoved(pl, t, u, v, pl.led);
    ReachedWithout(pl, u, v, pl.led);
    RemovedBeside(u, v, pl.led, Loc(pl, StagedManifest));
    NotPassedLinked(pl, t);
  }

  lemma InsideApart(pl: Places, u: Tree)
    requires Layout(pl) && pl.man.Inside? && (pl.data < pl.led || pl.extensions < pl.led)
    requires !Passes(pl, Data) && !Passes(pl, Extensions)
    ensures Apart(pl.led, pl.stage) && Apart(pl.led, Loc(pl, StagedManifest)) && pl.led != []
    ensures forall k | pl.led <= k :: InPlay(pl, k)
    ensures !OnWay(pl.way, pl.led)
  {
    var p := if pl.data < pl.led then Loc(pl, Data) else Loc(pl, Extensions);
    assert Apart(p, pl.stage) && p < pl.led;
    ApartBelow(pl.stage, p, pl.led);
    ApartBelow(pl.led, pl.stage, Loc(pl, StagedManifest));
  }

  lemma RemovedBeside(u: Tree, v: Tree, a: Path, p: Path)
    requires RemovedBelow(u, v, a) && Apart(a, p)
    ensures SameAt(u, v, p)
  {
    forall k | p <= k ensures At(v, k) == At(u, k) {
      if a <= k { PrefixesMeet(a, p, k); }
    }
    SameSubtree(v, u, p);
  }

  /** Nothing is where a linked manifest would be put. */
  lemma NotPassedLinked(pl: Places, t: Tree)
    requires Layout(pl) && Rooted(pl, t) && WellFormed(t) && (pl.man.Inside? || pl.man.Above?)
    ensures !Passes(pl, Manifest)
  {
    hide OnWay, RealWay;
    if Passes(pl, Manifest) {
      PassedIsThere(t, pl.way, pl.manifest);
    }
  }

  lemma AboveCleared(paths: RestorePaths, pl: Places, t: Tree, u: Tree, v: Tree, ok: bool, reliable: bool)
    requires Layout(pl) && Rooted(pl, t) && WellFormed(t)
    requires ManifestNamed(paths.manifest, pl, u) && pl.man.Above?
    requires Removal(u, v, paths.manifest, ok, reliable)
    ensures Cleared(pl, t, u, v, ok, reliable)
  {
    hide Layout, Rooted, Settled, RemovedBelow, Found, SourceLoc, Removal;
    RemovalHere(u, v, paths.manifest, pl.led, ok, reliable);
  }

  /** The standing assumptions after the removal. */
  lemma ManifestStillRuns(fs: FileSystem, paths: RestorePaths, pl: Places, t: Tree, u: Tree, ok: bool)
    requires fs.Valid() && WellFormed(t) && Match(paths, pl) && !pl.mode.Barred?
    requires pl.mode.Plain? ==>
               Layout(pl) && Rooted(pl, t) && Leads(paths, pl, t) && Cleared(pl, t, u, fs.tree, ok, fs.reliable)
    ensures Running(fs, paths, Onwards(pl), t) && (ok ==> Onwards(pl) == pl)
  {
    hide Layout, Rooted, Leads, Sound, Spells, RealWay, Gap, Match, SamePlaces, SameAt, Passes, Less;
    if pl.man.Above? {
      MatchAnyMode(paths, pl);
    }
  }

  lemma MatchAnyMode(paths: RestorePaths, pl: Places)
    requires Match(paths, pl)
    ensures Match(paths, pl.(mode := Unsteady))
  {
    hide Spells;
    forall x ensures Spells(Text(paths, x), pl.way, pl.r, Target(pl.(mode := Unsteady), x)) {
      TextSpells(paths, pl, x);
    }
  }

  lemma ManifestNotCleared(pl: Places, t: Tree, u: Tree, v: Tree, sameDevice: bool, reliable: bool)
    requires Cleared(pl, t, u, v, false, reliable) && !IsDir(u, pl.stagedManifest) && (!NeedsTree(pl) ==> pl.settled)
    ensures ManifestTried(pl, t, u, v, false, sameDevice)
    ensures reliable ==> ManifestCertain(pl, t, u, v, false)
  {
    hide Sound, Reached, Adrift, SameAt, Closed, Passes, Less;
    if !pl.man.Inside? && !pl.man.Above? {
      WiderSame(pl, u, v);
    }
  }

  lemma WiderSame(pl: Places, u: Tree, v: Tree)
    requires SamePlaces(pl, u, v, Manifest, Manifest)
    ensures SamePlaces(pl, u, v, StagedManifest, Manifest)
  {
  }

  lemma ManifestGone(pl: Places, t: Tree, u: Tree, v: Tree, sameDevice: bool, reliable: bool)
    requires Cleared(pl, t, u, v, true, reliable) && pl.stagedManifest !in u && WellFormed(u) && WellFormed(v)
    ensures ManifestTried(pl, t, u, v, true, sameDevice)
    ensures reliable ==> ManifestCertain(pl, t, u, v, true)
  {
    hide Sound, Reached, Adrift, SameAt, Closed, Passes, Less;
    if !pl.man.Inside? && !pl.man.Above? {
      WiderSame(pl, u, v);
      EmptySubtree(u, pl.stagedManifest);
      EmptySubtree(v, pl.manifest);
    }
  }

  lemma StillStaged(pl: Places, u: Tree, v: Tree)
    requires SamePlaces(pl, u, v, Manifest, Manifest)
    ensures SameAt(u, v, Loc(pl, StagedManifest))
  {
    hide SameAt, SamePlaces;
    PlaceSame(pl, u, v, Manifest, Manifest, StagedManifest);
  }

  /** Where a file is in the place of the state directory, there is no manifest. */
  lemma ClosedIsAbsent(pl: Places, t: Tree, u: Tree)
    requires Layout(pl) && Rooted(pl, t) && WellFormed(t) && Sound(pl, t, u) && Closed(pl, t, Manifest)
    requires pl.man.Straight?
    ensures pl.manifest !in u
  {
    hide RealWay, OnWay;
    ClosedStays(pl, t, u, Manifest);
    if pl.manifest in u {
      DirIsOpen(u, Parent(pl.manifest));
    }
  }

  /** With a link in the place of the state directory, nothing can be put behind it. */
  lemma LinkedIsClosed(pl: Places, t: Tree)
    requires Rooted(pl, t) && !pl.man.Straight?
    ensures Closed(pl, t, Manifest)
  {
    assert Parent(pl.fixedManifest) <= Parent(pl.fixedManifest);
  }

  /** After the installed manifest was removed, from u to v, the staged one was moved, or not, from v to w. */
  lemma ManifestMoved(pl: Places, t: Tree, u: Tree, v: Tree, w: Tree, ok: bool, sameDevice: bool, reliable: bool)
    requires Layout(pl) && Rooted(pl, t) && WellFormed(t) && Sound(pl, t, u) && Sound(pl, t, w)
    requires Cleared(pl, t, u, v, true, reliable) && pl.stagedManifest in u && !IsDir(u, pl.stagedManifest)
    requires Adrift(pl, v) ==> !ok && w == v
    requires Reached(pl, v) ==>
               && SamePlaces(pl, v, w, StagedManifest, Manifest) && Reached(pl, w)
               && (Closed(pl, t, Manifest) ==> !ok && w == v)
               && (ok ==> MovedTo(v, w, pl.stagedManifest, pl.manifest))
               && (!ok && sameDevice ==> SameAt(v, w, pl.manifest))
               && (reliable && sameDevice && pl.manifest !in v && !Closed(pl, t, Manifest) ==> ok)
    ensures ManifestTried(pl, t, u, w, ok, sameDevice)
    ensures reliable && sameDevice ==> ManifestCertain(pl, t, u, w, ok)
  {
    hide Sound, RealWay, Gap, SameAt, SamePlaces, Closed, OnWay, Less, MovedTo, Layout, Rooted;
    NotBoth(pl, v);
    if !pl.man.Straight? {
      LinkedIsClosed(pl, t);
    }
    if Closed(pl, t, Manifest) && pl.man.Straight? {
      ClosedIsAbsent(pl, t, u);
    }
    if !pl.man.Inside? && !pl.man.Above? {
      if Reached(pl, v) {
        ManifestExchanged(pl, u, v, w, ok, sameDevice);
      } else {
        WiderSame(pl, u, v);
      }
    }
  }

  lemma ExchangedTwice(pl: Places, u: Tree, v: Tree, w: Tree)
    requires SamePlaces(pl, u, v, Manifest, Manifest) && SamePlaces(pl, v, w, StagedManifest, Manifest)
    ensures SamePlaces(pl, u, w, StagedManifest, Manifest)
  {
    hide Subtree;
    SamePlacesTwice(pl, u, v, w, StagedManifest, Manifest);
  }

  lemma ManifestExchanged(pl: Places, u: Tree, v: Tree, w: Tree, ok: bool, sameDevice: bool)
    requires SamePlaces(pl, u, v, Manifest, Manifest) && SamePlaces(pl, v, w, StagedManifest, Manifest)
    requires ok ==> MovedTo(v, w, pl.stagedManifest, pl.manifest)
    requires Less(u, v, pl.manifest) && (!ok && sameDevice ==> SameAt(v, w, pl.manifest))
    ensures SamePlaces(pl, u, w, StagedManifest, Manifest)
    ensures ok ==> Same(u, pl.stagedManifest, w, pl.manifest)
    ensures !ok && sameDevice ==> Less(u, w, pl.manifest)
  {
    hide SamePlaces, SameAt, Same, MovedTo, Less;
    ExchangedTwice(pl, u, v, w);
    StillStaged(pl, u, v);
    if ok {
      MovedSame(v, w, pl.stagedManifest, pl.manifest);
      SamePresence(u, v, pl.stagedManifest);
      SameThen(u, v, w, pl.stagedManifest, pl.stagedManifest, pl.manifest);
    } else if sameDevice {
      LessThen(u, v, w, pl.manifest);
    }
  }
}
