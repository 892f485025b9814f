/** What a caller of a restore may conclude. */
module RestoreResults {
  import opened Paths
  import opened FileTree
  import opened PathWalk
  import opened Ways
  import opened FileSystem
  import opened PathSafety
  import opened FsOps
  import opened RestorePlaces
  import opened RestoreState
  import opened RestoreRoots
  import opened RestoreStage
  import opened RestoreOutcome
  import opened RestoreBackup

  /** An archive that was not unpacked completely, because it does not extract, is damaged, or a call failed,
      or that does not hold two directories, or a root behind a link: nothing changed but the root that was
      made and the stage. */
  lemma NothingInstalled(t: Tree, g: Tree, w: Tree, root: string, archive: Archive, stage: Option<Path>,
                         unpacked: bool, result: RestoreResult, sameDevice: bool, reliable: bool)
    requires Restoration(t, g, w, root, archive, stage, unpacked, result, sameDevice, reliable)
    requires !unpacked || !Stageable(archive) || RootLinked(g, root)
    ensures result == RestoreFailed || (unpacked && Stageable(archive) && result == RestoreAndRollbackFailed)
    ensures OnlyStage(stage, g, w)
  {
    hide RootMade, HasRoom, Finished, FinishedCertain, Certain, Told, Image;
  }

  /** What happened to a root that a restore does not disturb: on success the targets hold what the archive
      holds, and after an error on one device everything is as before, but for what may be missing of a
      manifest that was there. */
  ghost predicate ExchangedOrKept(g: Tree, w: Tree, root: string, r: Path, stage: Option<Path>, archive: Archive,
                                  result: RestoreResult, sameDevice: bool) {
    var image := Contents(archive);
    var e, m := WayIn(g, root, r).1, ManifestPlace(g, root, r, image);
    && ElsewhereKept(r, e, m, g, w, stage)
    && (result == Succeeded || result == CleanupFailed ==>
          Stageable(archive) && WayIn(g, root, r).0.Open? && Holds(r, m, w, image))
    && (result == Succeeded ==> ElsewhereKept(r, e, m, g, w, None))
    && (result == RestoreFailed && sameDevice ==> RolledBack(r, m, g, w, stage))
  }

  /** A steady root: the targets are exchanged or as before, on one device, unless the rollback fails. */
  lemma SteadyResult(t: Tree, g: Tree, w: Tree, root: string, archive: Archive, stage: Option<Path>,
                     unpacked: bool, result: RestoreResult, sameDevice: bool, reliable: bool)
    requires Restoration(t, g, w, root, archive, stage, unpacked, result, sameDevice, reliable)
    requires LeadsToDir(g, Comps(root)) && Steady(g, root, LedTo(g, Comps(root)), Contents(archive))
    ensures ExchangedOrKept(g, w, root, LedTo(g, Comps(root)), stage, archive, result, sameDevice)
  {
    hide RootMade, HasRoom, Certain, FinishedCertain, Told, Contents, Stageable, ManifestCanFollow, WayIn, Holds,
      RolledBack, ElsewhereKept, ManifestLead, OffTheWay, Stranded, ManifestPlace, RootLinked;
    if stage.None? {
      NothingDone(g, LedTo(g, Comps(root)), WayIn(g, root, LedTo(g, Comps(root))).1,
                  ManifestPlace(g, root, LedTo(g, Comps(root)), Contents(archive)));
    }
  }

  lemma NothingDone(g: Tree, r: Path, e: Path, m: Path)
    ensures ElsewhereKept(r, e, m, g, g, None) && RolledBack(r, m, g, g, None)
  {
  }

  // ---- If nothing fails ----

  /** A restore on one device in which no call failed, of an archive that was read to its end and leaves the
      backup places free, to a root that is there or could be made, with room for a stage. */
  ghost predicate WithoutFailures(t: Tree, g: Tree, w: Tree, root: string, archive: Archive, stage: Option<Path>,
                                  result: RestoreResult) {
    && Restoration(t, g, w, root, archive, stage, Image(archive).Some?, result, true, true)
    && HasRoom(t, g, root) && Certain(archive)
  }

  /** A root of which the result can be told. */
  ghost predicate Foreseen(g: Tree, root: string, archive: Archive) {
    LeadsToDir(g, Comps(root)) && Told(g, root, LedTo(g, Comps(root)), Contents(archive))
  }

  lemma WhatHappened(t: Tree, g: Tree, w: Tree, root: string, archive: Archive, stage: Option<Path>,
                     result: RestoreResult)
    requires WithoutFailures(t, g, w, root, archive, stage, result)
    ensures LeadsToDir(g, Comps(root)) && stage.Some? && stage.value !in g && Certain(archive)
    ensures WellFormed(g) && WellFormed(w)
    ensures IsStage(LedTo(g, Comps(root)), stage.value)
    ensures Cleaned(g, w, root, LedTo(g, Comps(root)), stage.value, archive, result, true, true)
  {
    hide Cleaned, HasRoom, LeadsToDir, LedTo, FollowAimed, FollowEnd, OnlyDirsAdded, Grown, IsStage, Contents;
  }

  lemma StageableMeans(archive: Archive)
    requires Stageable(archive)
    ensures archive.readable && Image(archive) == Some(Contents(archive))
    ensures IsDir(Contents(archive), DATA) && IsDir(Contents(archive), STAGED_EXTENSIONS)
  {
  }

  /** Success if and only if the archive holds what is needed, the root is not behind a link, and from there
      neither a link nor a file is on the way to a target that gets something, nor such a target on the way
      to the root. An error leaves everything as it was, the manifest included, unless a target is on the way
      or a link in the place of the state directory. */
  lemma SucceedsIff(t: Tree, g: Tree, w: Tree, root: string, archive: Archive, stage: Option<Path>,
                    result: RestoreResult)
    requires WithoutFailures(t, g, w, root, archive, stage, result)
    requires Foreseen(g, root, archive) || RootLinked(g, root)
    ensures var r := LedTo(g, Comps(root));
            result == Succeeded <==>
              && Stageable(archive) && !RootLinked(g, root) && OpenWay(g, r + EXTENSIONS[..3])
              && !OnWay(Comps(root), DataAt(r)) && !OnWay(Comps(root), ExtensionsAt(r))
              && ManifestCanFollow(g, root, r, Contents(archive))
    ensures var r, image := LedTo(g, Comps(root)), Contents(archive);
            result == RestoreFailed && !RootLinked(g, root) && !StateLinked(g, r) && OffTheWay(g, root, r, image) ==>
              Untouched(r, g, w)
  {
    hide Finished, Told, Lost, Contents, OpenWay, RootLinked, WithoutFailures, LeadsToDir, LedTo, OnWay, WayIn,
      ManifestLead, OffTheWay, RootInDanger, ManifestInDanger, Untouched, Stranded, IsStage, Stageable, ManifestPlace,
      StateLinked;
    WhatHappened(t, g, w, root, archive, stage, result);
    var r := LedTo(g, Comps(root));
    ToldIsNotLinked(g, root, r, Contents(archive));
    OpenMeans(g, root, r);
    OpenIsOpen(g, root, r);
    if !StateLinked(g, r) {
      StraightManifest(g, root, r, Contents(archive));
    }
  }

  /** A root that is spelled through a target that the restore takes away is lost with it: the restore ends in
      a plain error if that is the data or the extensions, the stage stays, and with it what it holds. */
  lemma TargetOnTheWay(t: Tree, g: Tree, w: Tree, root: string, archive: Archive, stage: Option<Path>,
                       result: RestoreResult)
    requires WithoutFailures(t, g, w, root, archive, stage, result) && Foreseen(g, root, archive)
    requires var r, image := LedTo(g, Comps(root)), Contents(archive);
             Stageable(archive) && RootInDanger(g, root, r, image) && !ManifestLead(g, root, r, image).0.Above?
    ensures var r := LedTo(g, Comps(root));
            && stage.Some? && stage.value in w
            && (result == RestoreFailed ==> Stranded(g, w, root, r, stage.value, Contents(archive)))
            && (OnWay(Comps(root), DataAt(r)) || OnWay(Comps(root), WayIn(g, root, r).1) ==> result == RestoreFailed)
            && (result == RestoreFailed || result == Succeeded)
  {
    hide Finished, Told, Lost, Contents, RootLinked, WithoutFailures, LeadsToDir, LedTo, OnWay, WayIn, ManifestLead,
      OffTheWay, ManifestInDanger, Untouched, Stranded, IsStage, Stageable, ManifestPlace, ManifestCanFollow;
    WhatHappened(t, g, w, root, archive, stage, result);
    ToldIsNotLinked(g, root, LedTo(g, Comps(root)), Contents(archive));
  }

  /** With both trees in the archive and no link in the place of the state directory: the targets are as before, or
      hold what the archive holds, with nothing left behind, if and only if no target that the restore takes
      away is on the way to the root, and none is taken away through a link. */
  lemma KeptOrInstalledIff(t: Tree, g: Tree, w: Tree, root: string, archive: Archive, stage: Option<Path>,
                           result: RestoreResult)
    requires WithoutFailures(t, g, w, root, archive, stage, result) && Foreseen(g, root, archive)
    requires Stageable(archive) && !StateLinked(g, LedTo(g, Comps(root)))
    ensures var r, image := LedTo(g, Comps(root)), Contents(archive);
            var (ext, e), m := WayIn(g, root, r), ManifestAt(r);
            (Untouched(r, g, w) || (Holds(r, m, w, image) && ElsewhereKept(r, e, m, g, w, None))) <==>
              (OffTheWay(g, root, r, image) && !ext.Linked?)
  {
    hide Told, Contents, RootLinked, WithoutFailures, LeadsToDir, LedTo, Comps, OnWay, WayIn, ManifestLead, OffTheWay,
      ManifestInDanger, Untouched, Stranded, IsStage, Stageable, ManifestPlace, ManifestCanFollow, Holds, ElsewhereKept,
      RolledBack, RootInDanger, Lost, StateLinked, PutInPlace;
    var r, image := LedTo(g, Comps(root)), Contents(archive);
    WhatHappened(t, g, w, root, archive, stage, result);
    ToldIsNotLinked(g, root, r, image);
    StageableMeans(archive);
    StraightManifest(g, root, r, image);
    StraightPut(g, w, root, r, stage.value, image);
    if !OffTheWay(g, root, r, image) {
      StageRemains(g, w, root, r, stage.value, image);
    } else if WayIn(g, root, r).0.Linked? {
      OffMeans(g, root, r, image);
      ExtensionsGone(g, w, root, r, stage.value, image);
    }
  }

  lemma StraightManifest(g: Tree, root: string, r: Path, image: Tree)
    requires !StateLinked(g, r)
    ensures ManifestLead(g, root, r, image).0.Straight? && ManifestPlace(g, root, r, image) == ManifestAt(r)
    ensures !OffTheWay(g, root, r, image) ==> RootInDanger(g, root, r, image)
  {
    hide Exchanged, OnWay, WayIn, Settled, Comps, GIT_MANIFEST, StateLinked;
  }

  lemma OffMeans(g: Tree, root: string, r: Path, image: Tree)
    requires OffTheWay(g, root, r, image)
    ensures !OnWay(Comps(root), DataAt(r)) && !OnWay(Comps(root), WayIn(g, root, r).1)
  {
  }

  lemma StraightPut(g: Tree, w: Tree, root: string, r: Path, s: Path, image: Tree)
    requires !StateLinked(g, r)
    ensures PutInPlace(g, w, root, r, s, image) ==> Holds(r, ManifestAt(r), w, image)
  {
    hide ManifestLead, ManifestPlace, Exchanged, Holds, StateLinked;
    StraightManifest(g, root, r, image);
  }

  /** The stage is no target, nor above one. */
  lemma StageElsewhere(r: Path, s: Path)
    requires IsStage(r, s)
    ensures !(DataAt(r) <= s) && !(ExtensionsAt(r) <= s) && !(ManifestAt(r) <= s)
    ensures !(s < ExtensionsAt(r)) && !(s < ManifestAt(r))
  {
    hide DATA, EXTENSIONS, GIT_MANIFEST;
    PlacesApart(r, s);
  }

  /** A stage that is left is neither what was there, nor what should be. */
  lemma StageRemains(g: Tree, w: Tree, root: string, r: Path, s: Path, image: Tree)
    requires WellFormed(g) && IsStage(r, s) && s !in g && s in w
    ensures !Untouched(r, g, w)
    ensures !ElsewhereKept(r, WayIn(g, root, r).1, ManifestAt(r), g, w, None)
  {
    hide Comps, Walk, EXTENSIONS, DATA, GIT_MANIFEST, WayIn;
    StageElsewhere(r, s);
    FoundOutside(g, root, r, s);
    assert At(w, s) != At(g, s) && !NewDir(r, g, w, s);
  }

  lemma ExtensionsMissing(g: Tree, w: Tree, root: string, r: Path, s: Path)
    requires WayIn(g, root, r).0.Linked? && Lost(WayIn(g, root, r).1, s, w)
    ensures !Untouched(r, g, w) && WayIn(g, root, r).1 !in w
  {
    hide Comps, Walk, WayIn, EXTENSIONS, GIT_MANIFEST;
    var e := WayIn(g, root, r).1;
    LinkedIsThere(g, root, r, EMPTY_STAGE);
    assert e <= e && e !in w;
    assert At(w, e) != At(g, e) && !NewDir(r, g, w, e);
  }

  /** Extensions that were taken away through a link are neither kept nor replaced. */
  lemma ExtensionsGone(g: Tree, w: Tree, root: string, r: Path, s: Path, image: Tree)
    requires WellFormed(g) && WayIn(g, root, r).0.Linked? && IsStage(r, s) && s !in g
    requires Lost(WayIn(g, root, r).1, s, w) && IsDir(image, STAGED_EXTENSIONS)
    requires ElsewhereKept(r, WayIn(g, root, r).1, ManifestAt(r), g, w, Some(s))
    ensures !Untouched(r, g, w) && !Holds(r, ManifestAt(r), w, image)
  {
    hide Comps, Walk, EXTENSIONS, DATA, GIT_MANIFEST, STAGED_EXTENSIONS, WayIn, Subtree;
    var e, x := WayIn(g, root, r).1, ExtensionsAt(r);
    FoundOutside(g, root, r, s);
    StageElsewhere(r, s);
    ExtensionsMissing(g, w, root, r, s);
    NotInPlace(g, root, r);
    DataApart(r);
    PlacesApart(r, s);
    assert x !in w by {
      if e <= x {
        assert x !in w;
      } else {
        assert At(w, x) == At(g, x) || NewDir(r, g, w, x);
      }
    }
    NotHeld(w, x, image);
  }

  lemma NotHeld(w: Tree, x: Path, image: Tree)
    requires x !in w && IsDir(image, STAGED_EXTENSIONS)
    ensures Subtree(w, x) != Subtree(image, STAGED_EXTENSIONS)
  {
    hide STAGED_EXTENSIONS;
    RootInSubtree(w, x);
    RootInSubtree(image, STAGED_EXTENSIONS);
  }

  /** Behind a link, nothing is in the place of the extensions itself. */
  lemma NotInPlace(g: Tree, root: string, r: Path)
    requires WellFormed(g) && !WayIn(g, root, r).0.Open?
    ensures ExtensionsAt(r) !in g
  {
    hide WayIn, EXTENSIONS;
    FixedParents(r);
    OpenIsOpen(g, root, r);
    if ExtensionsAt(r) in g {
      DirIsOpen(g, r + EXTENSIONS[..3]);
    }
  }

  /** With a link on the way to extensions that are still found when the data is away, a complete archive ends
      in a failed rollback, and the extensions are lost. */
  lemma LinkedExtensionsLost(t: Tree, g: Tree, w: Tree, root: string, archive: Archive, stage: Option<Path>,
                             result: RestoreResult)
    requires WithoutFailures(t, g, w, root, archive, stage, result) && Foreseen(g, root, archive)
    requires var r := LedTo(g, Comps(root));
             && Stageable(archive) && WayIn(g, root, r).0.Linked?
             && !OnWay(Comps(root), DataAt(r)) && !OnWay(Comps(root), WayIn(g, root, r).1)
    ensures result == RestoreAndRollbackFailed
    ensures forall k | WayIn(g, root, LedTo(g, Comps(root))).1 <= k || stage.value <= k :: k !in w
    ensures WayIn(g, root, LedTo(g, Comps(root))).1 in g
  {
    hide Told, Finished, Contents, WayIn, RootLinked, WithoutFailures, LeadsToDir, LedTo, Comps, OnWay, ManifestLead,
      OffTheWay, RootInDanger, ManifestInDanger, Untouched, Stranded, IsStage, Stageable, ManifestPlace,
      ManifestCanFollow, StateLinked;
    var r := LedTo(g, Comps(root));
    WhatHappened(t, g, w, root, archive, stage, result);
    ToldIsNotLinked(g, root, r, Contents(archive));
    LinkedIsThere(g, root, r, Contents(archive));
  }

  lemma LinkedIsThere(g: Tree, root: string, r: Path, image: Tree)
    ensures WayIn(g, root, r).0.Linked? ==> WayIn(g, root, r).1 in g && !ManifestLead(g, root, r, image).0.Above?
  {
    hide Exchanged, OnWay, Settled, Comps;
  }

  /** Such an input: public is a link to another directory in the root, with third-party in it. */
  lemma LinkedPublic(g: Tree, root: string, r: Path, name: string)
    requires WellFormed(g) && RealWay(g, Comps(root)) && End(Comps(root)) == r
    requires forall i | 0 <= i <= |Comps(root)| :: !(DataAt(r) <= End(Comps(root)[..i]))
    requires SafeName(name) && name != DATA[0] && At(g, r + EXTENSIONS[..1]) == Some(LinkE(name))
    requires r + ([name] + EXTENSIONS[1..]) in g
    ensures WayIn(g, root, r) == (Linked, r + ([name] + EXTENSIONS[1..]))
  {
    hide Comps, Walk;
    var way, v, e := Comps(root), Without(g, DataAt(r)), r + ([name] + EXTENSIONS[1..]);
    FixedNamesSafe();
    PublicIsLink(g, r);
    WithoutData(g, way, r, name, e);
    assert Comps(ExtensionsPath(root)) == way + EXTENSIONS;
    RealThrough(v, way, EXTENSIONS, false, MAX_LINKS);
    PublicStep(v, r, name);
    PlainNames(name);
    assert IsDir(v, Parent(e));
    WalkDown(v, r, [name] + EXTENSIONS[1..], false, MAX_LINKS - 1);
  }

  lemma PublicIsLink(g: Tree, r: Path)
    requires IsLink(g, r + EXTENSIONS[..1])
    ensures !OpenWay(g, r + EXTENSIONS[..3])
  {
    assert r + EXTENSIONS[..1] <= r + EXTENSIONS[..3];
  }

  lemma PlainNames(name: string)
    requires SafeName(name)
    ensures NoDots([name] + EXTENSIONS[1..]) && |[name] + EXTENSIONS[1..]| == 4
  {
  }

  lemma WithoutData(g: Tree, way: seq<string>, r: Path, name: string, e: Path)
    requires WellFormed(g) && RealWay(g, way) && End(way) == r
    requires forall i | 0 <= i <= |way| :: !(DataAt(r) <= End(way[..i]))
    requires name != DATA[0] && e == r + ([name] + EXTENSIONS[1..]) && e in g
    ensures var v := Without(g, DataAt(r));
            WellFormed(v) && RealWay(v, way) && e in v && IsDir(v, r) && !(e <= r) && e != [] &&
            At(v, r + EXTENSIONS[..1]) == At(g, r + EXTENSIONS[..1])
  {
    hide Walk, Comps, EXTENSIONS, DATA;
    FixedParents(r);
    PublicIsNotData();
    WithoutWellFormed(g, DataAt(r));
    WayWithout(g, way, DataAt(r));
    BesideFork(g, r, DATA, [name] + EXTENSIONS[1..]);
    BesideFork(g, r, DATA, EXTENSIONS[..1]);
  }

  lemma PublicIsNotData()
    ensures |EXTENSIONS| == 4 && |DATA| == 1 && EXTENSIONS[0] != DATA[0]
  {
  }

  lemma WayWithout(g: Tree, way: seq<string>, p: Path)
    requires RealWay(g, way) && forall i | 0 <= i <= |way| :: !(p <= End(way[..i]))
    ensures RealWay(Without(g, p), way) && IsDir(Without(g, p), End(way))
  {
    forall i | 0 <= i <= |way| ensures IsDir(Without(g, p), End(way[..i])) {
      assert IsDir(g, End(way[..i]));
    }
    Whole(way);
    assert IsDir(Without(g, p), End(way[..|way|]));
  }

  lemma BesideFork(g: Tree, r: Path, a: Path, b: Path)
    requires a != [] && b != [] && a[0] != b[0]
    ensures At(Without(g, r + a), r + b) == At(g, r + b) && !(r + b <= r) && r + b != []
  {
    ForkApart(r, a, b);
  }

  lemma PublicStep(v: Tree, r: Path, name: string)
    requires IsDir(v, r) && At(v, r + EXTENSIONS[..1]) == Some(LinkE(name)) && SafeName(name)
    ensures Walk(v, r, EXTENSIONS, false, MAX_LINKS) == Walk(v, r, [name] + EXTENSIONS[1..], false, MAX_LINKS - 1)
  {
    hide Comps;
    CompsOfName(name);
    assert EXTENSIONS[..1] == [EXTENSIONS[0]];
    assert LinkBase(r, name) == r;
  }

  // ---- A link in the place of the state directory ----

  /** Both trees were exchanged, nothing is left where the path of the manifest led to, and nothing else has
      changed. */
  ghost predicate ExactlyExchanged(g: Tree, w: Tree, r: Path, led: Path, image: Tree) {
    && Subtree(w, DataAt(r)) == Subtree(image, DATA)
    && Subtree(w, ExtensionsAt(r)) == Subtree(image, STAGED_EXTENSIONS)
    && led !in w && ElsewhereKept(r, ExtensionsAt(r), led, g, w, None)
  }

  /** With such a link and an archive without a manifest, the restore succeeds as it should if and only if the
      path of the manifest, looked up with the archive installed, leads to nothing or to a place beside the
      targets that is not on the way to the root, and does not lead through what it names. */
  lemma LinkedManifestIff(t: Tree, g: Tree, w: Tree, root: string, archive: Archive, stage: Option<Path>,
                          result: RestoreResult)
    requires WithoutFailures(t, g, w, root, archive, stage, result) && Foreseen(g, root, archive)
    requires var r := LedTo(g, Comps(root));
             && Stageable(archive) && GIT_MANIFEST !in Contents(archive) && StateLinked(g, r)
             && GetsToManifest(Comps(root), r, WayIn(g, root, r).0, WayIn(g, root, r).1)
    ensures var r, image := LedTo(g, Comps(root)), Contents(archive);
            var (man, led, settled) := ManifestLead(g, root, r, image);
            result == Succeeded && ExactlyExchanged(g, w, r, led, image) <==>
              man.Led? && settled && !OnWay(Comps(root), led)
  {
    hide Told, Contents, RootLinked, WithoutFailures, LeadsToDir, LedTo, Comps, OnWay, WayIn, ManifestLead,
      ManifestInDanger, Untouched, Stranded, IsStage, Stageable, Holds, ElsewhereKept, RolledBack, Lost, StateLinked,
      ExactlyExchanged, PutInPlace;
    var r, image := LedTo(g, Comps(root)), Contents(archive);
    var (man, led, settled) := ManifestLead(g, root, r, image);
    WhatHappened(t, g, w, root, archive, stage, result);
    ToldIsNotLinked(g, root, r, image);
    OpenMeans(g, root, r);
    NotStraight(g, root, r, image);
    if man.Inside? {
      InsideIsMissing(g, w, root, r, stage.value, image);
    } else if man.Led? && OnWay(Comps(root), led) && settled {
      LedStageRemains(g, w, root, r, stage.value, image);
    } else if man.Led? && settled {
      LedExchanged(g, w, root, r, stage.value, image);
    }
  }

  lemma NotStraight(g: Tree, root: string, r: Path, image: Tree)
    requires StateLinked(g, r)
    ensures !ManifestLead(g, root, r, image).0.Straight?
  {
    hide Exchanged, OnWay, WayIn, Settled, Comps, StateLinked;
  }

  lemma OutsideStage(g: Tree, s: Path)
    requires WellFormed(g) && s !in g
    ensures forall p | s <= p :: p !in g
  {
    EmptySubtree(g, s);
  }

  /** Where a linked manifest is, if it is anywhere. */
  lemma WhereLed(g: Tree, root: string, r: Path, s: Path, image: Tree)
    requires WellFormed(g) && IsStage(r, s) && s !in g && StateLinked(g, r)
    requires GetsToManifest(Comps(root), r, WayIn(g, root, r).0, WayIn(g, root, r).1)
    ensures var (man, led, _) := ManifestLead(g, root, r, image);
            && (man.Led? ==> !(led <= s) && !(s <= led))
            && (man.Led? && led != ManifestAt(r) ==> !(led <= r + EXTENSIONS[..3]) && !(led <= r + GIT_MANIFEST[..1]))
            && (man.Inside? ==> led in Exchanged(g, r, image) && !(s <= led) &&
                                (DataAt(r) < led || ExtensionsAt(r) < led))
  {
    hide Exchanged, OnWay, WayIn, Settled, Comps, Found, SourceLoc, DATA, EXTENSIONS, GIT_MANIFEST, GetsToManifest;
    OutsideStage(g, s);
    PlacesApart(r, s);
    var x := Exchanged(g, r, image);
    if Found(x, ManifestPath(root)) {
      LedApart(g, root, r, image, s);
      if s <= SourceLoc(x, ManifestPath(root)) {
        ExchangedNotInStage(g, r, image, s, SourceLoc(x, ManifestPath(root)));
      }
    } else {
      NotInTargets(r);
    }
  }

  lemma NotInTargets(r: Path)
    ensures !(DataAt(r) <= ManifestAt(r)) && !(ExtensionsAt(r) <= ManifestAt(r)) && !(ManifestAt(r) <= r)
  {
    hide DATA, EXTENSIONS;
    DataApart(r);
  }

  /** A file of an installed tree that the path of the manifest led to is missing. */
  lemma InsideIsMissing(g: Tree, w: Tree, root: string, r: Path, s: Path, image: Tree)
    requires WellFormed(g) && IsStage(r, s) && s !in g && StateLinked(g, r)
    requires GetsToManifest(Comps(root), r, WayIn(g, root, r).0, WayIn(g, root, r).1)
    requires ManifestLead(g, root, r, image).0.Inside?
    ensures PutInPlace(g, w, root, r, s, image) ==>
              var led := ManifestLead(g, root, r, image).1;
              led !in w && !ExactlyExchanged(g, w, r, led, image)
  {
    hide Exchanged, OnWay, WayIn, Comps, DATA, EXTENSIONS, STAGED_EXTENSIONS, GIT_MANIFEST, GetsToManifest,
      ManifestLead, Subtree, ElsewhereKept, StateLinked;
    var led := ManifestLead(g, root, r, image).1;
    WhereLed(g, root, r, s, image);
    InTree(g, r, image, led);
    if PutInPlace(g, w, root, r, s, image) {
      assert At(w, led) == At(Without(Exchanged(g, r, image), led), led) && led <= led;
      if DataAt(r) < led {
        SubtreeAt(w, DataAt(r), led);
      } else {
        SubtreeAt(w, ExtensionsAt(r), led);
      }
    }
  }

  /** What the exchanged tree holds in a target, the archive holds. */
  lemma InTree(g: Tree, r: Path, image: Tree, k: Path)
    ensures DataAt(r) <= k ==> At(Exchanged(g, r, image), k) == At(Subtree(image, DATA), k[|DataAt(r)|..])
    ensures ExtensionsAt(r) <= k ==>
              At(Exchanged(g, r, image), k) == At(Subtree(image, STAGED_EXTENSIONS), k[|ExtensionsAt(r)|..])
  {
    hide DATA, EXTENSIONS, STAGED_EXTENSIONS, Subtree, Replaced;
    DataApart(r);
    StateDirectory(r);
    if DataAt(r) <= k && ExtensionsAt(r) <= k {
      PrefixesMeet(DataAt(r), ExtensionsAt(r), k);
    }
    ReplacedAt(g, DataAt(r), Subtree(image, DATA), ExtensionsAt(r), Subtree(image, STAGED_EXTENSIONS), k);
  }

  lemma LedStageRemains(g: Tree, w: Tree, root: string, r: Path, s: Path, image: Tree)
    requires WellFormed(g) && IsStage(r, s) && s !in g && StateLinked(g, r)
    requires GetsToManifest(Comps(root), r, WayIn(g, root, r).0, WayIn(g, root, r).1)
    requires ManifestLead(g, root, r, image).0.Led?
    ensures s in w ==> !ExactlyExchanged(g, w, r, ManifestLead(g, root, r, image).1, image)
  {
    hide Exchanged, OnWay, WayIn, Comps, DATA, EXTENSIONS, STAGED_EXTENSIONS, GIT_MANIFEST, GetsToManifest,
      ManifestLead, Subtree, StateLinked;
    WhereLed(g, root, r, s, image);
    StageElsewhere(r, s);
    assert s in w ==> At(w, s) != At(g, s) && !NewDir(r, g, w, s);
  }

  lemma LedExchanged(g: Tree, w: Tree, root: string, r: Path, s: Path, image: Tree)
    requires ManifestLead(g, root, r, image).0.Led? && GIT_MANIFEST !in image && WayIn(g, root, r).0.Open?
    requires PutInPlace(g, w, root, r, s, image)
    requires ElsewhereKept(r, WayIn(g, root, r).1, ManifestPlace(g, root, r, image), g, w, None)
    ensures ExactlyExchanged(g, w, r, ManifestLead(g, root, r, image).1, image)
  {
    hide Exchanged, OnWay, WayIn, Comps, DATA, EXTENSIONS, STAGED_EXTENSIONS, GIT_MANIFEST, ManifestLead, Subtree,
      ElsewhereKept;
    OpenMeans(g, root, r);
    RootInSubtree(w, ManifestLead(g, root, r, image).1);
    RootInSubtree(image, GIT_MANIFEST);
  }

  /** If it leads into a target, the restore succeeds, and a file that was in the archive is missing there. */
  lemma InstalledFileLost(t: Tree, g: Tree, w: Tree, root: string, archive: Archive, stage: Option<Path>,
                          result: RestoreResult)
    requires WithoutFailures(t, g, w, root, archive, stage, result) && Foreseen(g, root, archive)
    requires var r, image := LedTo(g, Comps(root)), Contents(archive);
             && Stageable(archive) && GIT_MANIFEST !in image && StateLinked(g, r)
             && GetsToManifest(Comps(root), r, WayIn(g, root, r).0, WayIn(g, root, r).1)
             && ManifestLead(g, root, r, image).0.Inside? && ManifestLead(g, root, r, image).2
    ensures var r, image := LedTo(g, Comps(root)), Contents(archive);
            var led := ManifestLead(g, root, r, image).1;
            && result == Succeeded && led !in w
            && if DataAt(r) <= led then led[|DataAt(r)|..] in Subtree(image, DATA)
               else ExtensionsAt(r) <= led && led[|ExtensionsAt(r)|..] in Subtree(image, STAGED_EXTENSIONS)
  {
    hide Told, Contents, RootLinked, WithoutFailures, LeadsToDir, LedTo, Comps, OnWay, WayIn, ManifestLead,
      ManifestInDanger, Untouched, Stranded, IsStage, Stageable, Holds, ElsewhereKept, RolledBack, Lost, StateLinked,
      RootInDanger,
      ExactlyExchanged, PutInPlace, OffTheWay, ManifestPlace, DATA, EXTENSIONS, STAGED_EXTENSIONS, Exchanged, Subtree;
    var r, image := LedTo(g, Comps(root)), Contents(archive);
    WhatHappened(t, g, w, root, archive, stage, result);
    ToldIsNotLinked(g, root, r, image);
    OpenMeans(g, root, r);
    InsideIsMissing(g, w, root, r, stage.value, image);
    WhereLed(g, root, r, stage.value, image);
    InTree(g, r, image, ManifestLead(g, root, r, image).1);
  }

  /** Such an input: the state directory is a link to the data, and the archive holds a file of the name of the
      manifest in its data. */
  lemma ManifestIntoData(g: Tree, root: string, r: Path, image: Tree)
    requires WellFormed(g) && RealWay(g, Comps(root)) && End(Comps(root)) == r
    requires At(g, r + GIT_MANIFEST[..1]) == Some(LinkE(DATA[0]))
    requires GetsToManifest(Comps(root), r, WayIn(g, root, r).0, WayIn(g, root, r).1)
    requires IsDir(image, DATA) && DATA + GIT_MANIFEST[1..] in image
    ensures ManifestLead(g, root, r, image) == (Inside, DataAt(r) + GIT_MANIFEST[1..], true)
  {
    hide Comps, Exchanged, RealWay, OnWay, Subtree, End, WayIn, Walk;
    var x, way, m := Exchanged(g, r, image), Comps(root), DataAt(r) + GIT_MANIFEST[1..];
    OpenMeans(g, root, r);
    WayInTree(g, way, r, image);
    StateInTree(g, r, image);
    DataInTree(g, r, image);
    IntoDataPlace(r);
    LedBeside(x, root, r, DATA[0]);
    NotOnWayBelow(way, DataAt(r), m);
    BesideSettled(x, root, r, DATA[0]);
  }

  lemma IntoDataPlace(r: Path)
    ensures !(DataAt(r) + GIT_MANIFEST[1..] <= r) && DataAt(r) <= DataAt(r) + GIT_MANIFEST[1..]
    ensures r + [DATA[0]] == DataAt(r) && SafeName(DATA[0])
  {
  }

  lemma DataInTree(g: Tree, r: Path, image: Tree)
    requires IsDir(image, DATA) && DATA + GIT_MANIFEST[1..] in image
    ensures IsDir(Exchanged(g, r, image), DataAt(r))
    ensures DataAt(r) + GIT_MANIFEST[1..] in Exchanged(g, r, image)
  {
    hide Exchanged, DATA;
    var q := GIT_MANIFEST[1..];
    InTree(g, r, image, DataAt(r));
    InTree(g, r, image, DataAt(r) + q);
    assert DataAt(r)[|DataAt(r)|..] == [] && (DataAt(r) + q)[|DataAt(r)|..] == q && DATA + [] == DATA;
    assert At(Subtree(image, DATA), []) == Some(DirE);
    assert q in Subtree(image, DATA);
  }

  /** The link is followed once. */
  lemma LedBeside(x: Tree, root: string, r: Path, name: string)
    requires RealWay(x, Comps(root)) && End(Comps(root)) == r && SafeName(name) && IsDir(x, r + [name])
    requires At(x, r + GIT_MANIFEST[..1]) == Some(LinkE(name))
    ensures Where(x, ManifestPath(root), false) == Spot(r + [name] + GIT_MANIFEST[1..])
  {
    hide Comps, RealWay, End;
    var way, state, file := Comps(root), GIT_MANIFEST[0], GIT_MANIFEST[1];
    FixedNamesSafe();
    RealPrefix(x, way, |way|);
    Whole(way);
    RealThrough(x, way, GIT_MANIFEST, false, MAX_LINKS);
    CompsOfName(name);
    assert GIT_MANIFEST == [state, file] && GIT_MANIFEST[..1] == [state] && GIT_MANIFEST[1..] == [file];
    assert [name] + [file] == [name, file] && LinkBase(r, name) == r;
    assert Walk(x, r, [state, file], false, MAX_LINKS) == Walk(x, r, [name, file], false, MAX_LINKS - 1);
    SafeStep(x, r, name, [file], MAX_LINKS - 1);
    SafeStep(x, r + [name], file, [], MAX_LINKS - 1);
    assert r + [name] + [file] == r + [name] + GIT_MANIFEST[1..];
  }

  /** One step of a walk to a node that is no link, or to the last name. */
  lemma SafeStep(u: Tree, at: Path, name: string, rest: seq<string>, hops: nat)
    requires IsDir(u, at) && SafeName(name) && (rest == [] || !IsLink(u, at + [name]))
    ensures Walk(u, at, [name] + rest, false, hops) == Walk(u, at + [name], rest, false, hops)
  {
    assert ([name] + rest)[1..] == rest;
  }

  lemma BesideSettled(x: Tree, root: string, r: Path, name: string)
    requires RealWay(x, Comps(root)) && End(Comps(root)) == r && SafeName(name) && IsDir(x, r + [name])
    requires At(x, r + GIT_MANIFEST[..1]) == Some(LinkE(name)) && r + [name] + GIT_MANIFEST[1..] in x
    requires !OnWay(Comps(root), r + [name] + GIT_MANIFEST[1..])
    ensures Settled(x, ManifestPath(root))
  {
    hide Comps, RealWay, End, Walk;
    var m := r + [name] + GIT_MANIFEST[1..];
    var e := Emptied(x, m);
    LedBeside(x, root, r, name);
    WayKept(x, e, Comps(root), m);
    assert |m| == |r| + 2;
    LedBeside(e, root, r, name);
  }

  lemma NotOnWayBelow(way: seq<string>, p: Path, q: Path)
    requires !OnWay(way, p) && p <= q
    ensures !OnWay(way, q)
  {
  }

  /** With such a link a restore of an archive with a manifest never succeeds. An error leaves everything as it
      was if and only if no target that is taken away before is on the way to the root or behind a link, and
      either a directory is in the place of the manifest in the archive, or the path of the manifest leads to
      nothing that was there: to nothing at all, or into the installed trees, which are taken back. */
  lemma LinkedErrorIff(t: Tree, g: Tree, w: Tree, root: string, archive: Archive, stage: Option<Path>,
                       result: RestoreResult)
    requires WithoutFailures(t, g, w, root, archive, stage, result) && Foreseen(g, root, archive)
    requires var r, image := LedTo(g, Comps(root)), Contents(archive);
             Stageable(archive) && StateLinked(g, r) && !ManifestLead(g, root, r, image).0.Above?
    ensures GIT_MANIFEST in Contents(archive) ==> result != Succeeded
    ensures var r, image := LedTo(g, Comps(root)), Contents(archive);
            var way, (ext, e), m := Comps(root), WayIn(g, root, r), ManifestPlace(g, root, r, image);
            result != Succeeded ==>
              (Untouched(r, g, w) <==>
                && !OnWay(way, DataAt(r)) && !OnWay(way, e) && !ext.Linked?
                && (IsDir(image, GIT_MANIFEST) || m !in g))
  {
    hide Told, Contents, RootLinked, WithoutFailures, LeadsToDir, LedTo, Comps, OnWay, WayIn, ManifestLead, Untouched,
      Stranded, IsStage, Stageable, Holds, ElsewhereKept, RolledBack, Lost, StateLinked, PutInPlace, ManifestPlace,
      OpenWay, SameBelow, WellFormed;
    var r, image := LedTo(g, Comps(root)), Contents(archive);
    WhatHappened(t, g, w, root, archive, stage, result);
    ToldIsNotLinked(g, root, r, image);
    StateNotOpen(g, r);
    NotStraight(g, root, r, image);
    if OnWay(Comps(root), DataAt(r)) || OnWay(Comps(root), WayIn(g, root, r).1) {
      StageRemains(g, w, root, r, stage.value, image);
    } else if WayIn(g, root, r).0.Linked? {
      ExtensionsMissing(g, w, root, r, stage.value);
    } else if result != Succeeded && ManifestPlace(g, root, r, image) !in g {
      OffAbsent(g, root, r, image);
      RolledBackUntouched(g, w, r, ManifestPlace(g, root, r, image), stage.value);
    } else if result != Succeeded && !IsDir(image, GIT_MANIFEST) {
      ManifestThere(g, root, r, image);
      ManifestMissing(g, w, root, r, stage.value, image);
    }
  }

  lemma OffAbsent(g: Tree, root: string, r: Path, image: Tree)
    requires WellFormed(g) && Told(g, root, r, image) && ManifestPlace(g, root, r, image) !in g
    requires !OnWay(Comps(root), DataAt(r)) && !OnWay(Comps(root), WayIn(g, root, r).1)
    ensures OffTheWay(g, root, r, image)
  {
    hide OnWay, WayIn, ManifestPlace, Comps, RealWay, ManifestAway, AwayFromStage;
    if OnWay(Comps(root), ManifestPlace(g, root, r, image)) {
      PassedIsThere(g, Comps(root), ManifestPlace(g, root, r, image));
    }
  }

  lemma RolledBackUntouched(g: Tree, w: Tree, r: Path, m: Path, s: Path)
    requires WellFormed(g) && WellFormed(w) && m !in g && s !in g && s !in w && RolledBack(r, m, g, w, Some(s))
    ensures Untouched(r, g, w)
  {
    EmptySubtree(g, m);
    EmptySubtree(g, s);
    EmptySubtree(w, s);
  }

  /** A linked manifest that is there was found through the link. */
  lemma ManifestThere(g: Tree, root: string, r: Path, image: Tree)
    requires WellFormed(g) && StateLinked(g, r) && ManifestPlace(g, root, r, image) in g
    ensures GetsToManifest(Comps(root), r, WayIn(g, root, r).0, WayIn(g, root, r).1)
    ensures ManifestLead(g, root, r, image).0.Led?
    ensures ManifestPlace(g, root, r, image) == ManifestLead(g, root, r, image).1
  {
    hide Exchanged, OnWay, WayIn, Settled, Comps, Found, SourceLoc, DATA, EXTENSIONS, GIT_MANIFEST, GetsToManifest;
    NoManifest(g, r, image);
  }

  /** Without it, or parts of it, not everything is as before. */
  lemma ManifestMissing(g: Tree, w: Tree, root: string, r: Path, s: Path, image: Tree)
    requires WellFormed(g) && IsStage(r, s) && s !in g && StateLinked(g, r)
    requires ManifestPlace(g, root, r, image) in g && !SameBelow(g, w, ManifestPlace(g, root, r, image))
    ensures !Untouched(r, g, w)
  {
    hide Exchanged, OnWay, WayIn, Comps, DATA, EXTENSIONS, GIT_MANIFEST, ManifestLead, ManifestPlace, GetsToManifest,
      StateLinked;
    var m := ManifestPlace(g, root, r, image);
    ManifestThere(g, root, r, image);
    WhereLed(g, root, r, s, image);
    NoManifest(g, r, image);
    if Untouched(r, g, w) {
      forall k | m <= k ensures At(w, k) == At(g, k) {
        NoNewDirBelow(r, g, w, m, k);
      }
    }
  }

  lemma NoNewDirBelow(r: Path, g: Tree, w: Tree, m: Path, k: Path)
    requires m <= k && !(m <= r + EXTENSIONS[..3]) && !(m <= r + GIT_MANIFEST[..1])
    ensures !NewDir(r, g, w, k)
  {
    hide EXTENSIONS, GIT_MANIFEST;
    FixedParents(r);
    StateDirectory(r);
    FixedDepths();
  }

  /** Such an input: the state directory is a link to another directory of the root in which there is a
      manifest that is not on the way to the root. */
  lemma ManifestBeside(g: Tree, root: string, r: Path, image: Tree, name: string)
    requires WellFormed(g) && RealWay(g, Comps(root)) && End(Comps(root)) == r
    requires SafeName(name) && name != DATA[0] && name != EXTENSIONS[0]
    requires At(g, r + GIT_MANIFEST[..1]) == Some(LinkE(name)) && r + [name] + GIT_MANIFEST[1..] in g
    requires !OnWay(Comps(root), r + [name] + GIT_MANIFEST[1..])
    requires GetsToManifest(Comps(root), r, WayIn(g, root, r).0, WayIn(g, root, r).1)
    ensures ManifestLead(g, root, r, image) == (Led, r + [name] + GIT_MANIFEST[1..], true)
    ensures ManifestPlace(g, root, r, image) == r + [name] + GIT_MANIFEST[1..]
  {
    hide Comps, Exchanged, RealWay, OnWay, Subtree, End, WayIn, Walk;
    var x, way, m := Exchanged(g, r, image), Comps(root), r + [name] + GIT_MANIFEST[1..];
    OpenMeans(g, root, r);
    WayInTree(g, way, r, image);
    StateInTree(g, r, image);
    DirectoryBeside(g, r, image, name);
    LedBeside(x, root, r, name);
    BesideSettled(x, root, r, name);
  }

  lemma DirectoryBeside(g: Tree, r: Path, image: Tree, name: string)
    requires WellFormed(g) && r + [name] + GIT_MANIFEST[1..] in g && name != DATA[0] && name != EXTENSIONS[0]
    ensures var x, m := Exchanged(g, r, image), r + [name] + GIT_MANIFEST[1..];
            && IsDir(x, r + [name]) && m in x
            && !(m <= r) && !(DataAt(r) <= m) && !(ExtensionsAt(r) <= m)
  {
    hide Exchanged;
    var d, m := r + [name], r + [name] + GIT_MANIFEST[1..];
    assert Parent(m) == d && |GIT_MANIFEST| == 2;
    assert m[|r|] == name && d[|r|] == name && DataAt(r)[|r|] == DATA[0] && ExtensionsAt(r)[|r|] == EXTENSIONS[0];
    ExchangedElsewhere(g, r, image, d);
    ExchangedElsewhere(g, r, image, m);
  }

  /** If the archive holds a manifest, the restore fails; both trees are as before (SteadyResult), but a
      manifest that the path leads to is gone. */
  lemma LinkedManifestLost(t: Tree, g: Tree, w: Tree, root: string, archive: Archive, stage: Option<Path>,
                           result: RestoreResult)
    requires WithoutFailures(t, g, w, root, archive, stage, result) && Foreseen(g, root, archive)
    requires var r, image := LedTo(g, Comps(root)), Contents(archive);
             && Stageable(archive) && GIT_MANIFEST in image && !IsDir(image, GIT_MANIFEST) && StateLinked(g, r)
             && ManifestPlace(g, root, r, image) in g && ManifestLead(g, root, r, image).2
    ensures result == RestoreFailed
    ensures ManifestPlace(g, root, LedTo(g, Comps(root)), Contents(archive)) !in w
  {
    hide Told, Contents, RootLinked, WithoutFailures, LeadsToDir, LedTo, Comps, OnWay, WayIn, ManifestLead, Untouched,
      Stranded, IsStage, Stageable, Holds, ElsewhereKept, RolledBack, Lost, StateLinked, RootInDanger, PutInPlace,
      OffTheWay, ManifestPlace, OpenWay, WellFormed;
    var r, image := LedTo(g, Comps(root)), Contents(archive);
    WhatHappened(t, g, w, root, archive, stage, result);
    ToldIsNotLinked(g, root, r, image);
    ManifestThere(g, root, r, image);
    StateNotOpen(g, r);
  }

  lemma StateNotOpen(g: Tree, r: Path)
    requires StateLinked(g, r)
    ensures !OpenWay(g, r + GIT_MANIFEST[..1])
  {
    hide GIT_MANIFEST;
    FixedDepths();
    assert r + GIT_MANIFEST[..1] <= r + GIT_MANIFEST[..1];
  }
}
