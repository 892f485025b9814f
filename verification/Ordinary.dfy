/** Restores and pulls to roots without links and dots, told node by node. */
module OrdinaryRestore {
  import opened Bytes
  import opened Paths
  import opened FileTree
  import opened PathWalk
  import opened Ways
  import opened FileSystem
  import opened PathSafety
  import opened FsOps
  import opened Extraction
  import opened RestorePlaces
  import opened RestoreState
  import opened RestoreRoots
  import opened RestoreStage
  import opened RestoreOutcome
  import opened RestoreBackup
  import opened RestoreResults

  /** The path spells the directory r name by name. */
  predicate Plain(t: Tree, path: string, r: Path) {
    path != "" && Comps(path) == r && NoDots(r) && IsDir(t, r)
  }

  lemma PlainEnd(r: Path)
    requires NoDots(r)
    ensures End(r) == r
  {
    EndDown([], r);
    assert [] + r == r;
  }

  lemma PlainIsReal(t: Tree, path: string, r: Path)
    requires WellFormed(t) && Plain(t, path, r)
    ensures RealWay(t, r) && End(r) == r && forall i | 0 <= i <= |r| :: End(r[..i]) == r[..i]
  {
    hide End, Comps;
    forall i | 0 <= i <= |r| ensures End(r[..i]) == r[..i] && IsDir(t, r[..i]) {
      PlainEnd(r[..i]);
      if i < |r| {
        AncestorIsDir(t, r[..i], r);
      } else {
        assert r[..i] == r;
      }
    }
    assert r[..|r|] == r;
  }

  lemma PlainWay(t: Tree, path: string, r: Path)
    requires WellFormed(t) && Plain(t, path, r)
    ensures LeadsToDir(t, r) && LedTo(t, r) == r && NamesDir(t, path)
    ensures Where(t, path, true) == Spot(r) && Where(t, path, false) == Spot(r)
  {
    hide Walk, Comps;
    assert [] + r == r;
    if r != [] {
      AncestorIsDir(t, Parent(r), r);
    }
    WalkDown(t, [], r, true, MAX_LINKS);
    WalkDown(t, [], r, false, MAX_LINKS);
  }

  /** A root without links below it in the way of a restore, and without stages that were left behind. */
  ghost predicate OrdinaryRoot(t: Tree, root: string, r: Path) {
    && Plain(t, root, r)
    && (forall k | k in t && k <= r + ["public", "scripts", "extensions"] :: t[k].DirE?)
    && !IsLink(t, r + [".stmanager"])
    && (forall name | r + [name] in t :: !(".stmanager-restore-stage" <= name))
  }

  lemma LastLetter()
    ensures '9' in LETTERS
  {
    assert LETTERS[61] == '9';
  }

  lemma {:induction false} SomeSuffix(n: nat) returns (s: string)
    ensures s in Suffixes(n)
  {
    LastLetter();
    hide LETTERS;
    if n == 0 {
      s := "";
    } else {
      var rest := SomeSuffix(n - 1);
      s := ['9'] + rest;
    }
  }

  lemma StageNames(name: string)
    requires STAGE_PREFIX <= name
    ensures ".stmanager-restore-stage" <= name
  {
  }

  lemma OrdinaryRoom(t: Tree, root: string, r: Path)
    requires OrdinaryRoot(t, root, r)
    ensures RoomFor(t, r, STAGE_PREFIX)
  {
    hide Suffixes, STAGE_PREFIX, Plain;
    var s := SomeSuffix(6);
    var name := STAGE_PREFIX + "-" + s;
    StageNames(name);
    assert r + [name] !in t;
  }

  lemma FixedPlaces(r: Path)
    ensures DataAt(r) == r + ["data"] && ExtensionsAt(r) == r + ["public", "scripts", "extensions", "third-party"]
    ensures ManifestAt(r) == r + [".stmanager", "extensions_git_manifest.json"]
    ensures r + EXTENSIONS[..3] == r + ["public", "scripts", "extensions"]
    ensures r + GIT_MANIFEST[..1] == r + [".stmanager"]
  {
  }

  /** Nothing below the root is on the way to it. */
  lemma NotOnTheWay(r: Path, p: Path)
    requires NoDots(r) && r < p
    ensures !OnWay(r, p)
  {
    hide End;
    forall i | 0 <= i <= |r| ensures !(p <= End(r[..i])) {
      PlainEnd(r[..i]);
    }
  }

  /** A restore does not disturb such a root, and all its places are the ones below it. */
  lemma OrdinarySteady(t: Tree, root: string, r: Path, image: Tree)
    requires WellFormed(t) && OrdinaryRoot(t, root, r)
    ensures Steady(t, root, r, image) && Told(t, root, r, image)
    ensures WayIn(t, root, r) == (Open, r + ["public", "scripts", "extensions", "third-party"])
    ensures ManifestPlace(t, root, r, image) == r + [".stmanager", "extensions_git_manifest.json"]
    ensures ManifestLead(t, root, r, image).2
  {
    hide Comps, Walk, End, DATA, EXTENSIONS, GIT_MANIFEST, Exchanged, Settled;
    FixedPlaces(r);
    PlainIsReal(t, root, r);
    NotOnTheWay(r, DataAt(r));
    NotOnTheWay(r, ExtensionsAt(r));
    NotOnTheWay(r, ManifestAt(r));
  }

  // ---- What a restore leaves ----

  /** The trees and the manifest are those of the image. */
  ghost predicate Restored(w: Tree, r: Path, image: Tree) {
    forall k: Path {:trigger r + ["data"] + k} ::
      && At(w, r + ["data"] + k) == At(image, ["data"] + k)
      && At(w, r + ["public", "scripts", "extensions", "third-party"] + k) == At(image, ["extensions"] + k)
      && At(w, r + [".stmanager", "extensions_git_manifest.json"] + k) ==
         At(image, [".stmanager", "extensions_git_manifest.json"] + k)
  }

  /** A place above, at or below which a restore works. */
  predicate Managed(r: Path, k: Path) {
    || r + ["data"] <= k || r + ["public", "scripts", "extensions", "third-party"] <= k
    || r + [".stmanager", "extensions_git_manifest.json"] <= k
  }

  predicate AboveManaged(r: Path, k: Path) {
    k < r + ["public", "scripts", "extensions", "third-party"] || k < r + [".stmanager", "extensions_git_manifest.json"]
  }

  /** As before, or a new directory above one of the targets. */
  ghost predicate KeptAt(g: Tree, w: Tree, r: Path, k: Path) {
    At(w, k) == At(g, k) || (k !in g && At(w, k) == Some(DirE) && AboveManaged(r, k))
  }

  ghost predicate OthersAsBefore(g: Tree, w: Tree, r: Path) {
    forall k | !Managed(r, k) :: KeptAt(g, w, r, k)
  }

  lemma NodeIn(t: Tree, p: Path, k: Path)
    ensures At(Subtree(t, p), k) == At(t, p + k)
  {
  }

  lemma SubtreeNodes(t: Tree, p: Path, u: Tree, q: Path, k: Path)
    requires Subtree(t, p) == Subtree(u, q)
    ensures At(t, p + k) == At(u, q + k)
  {
    NodeIn(t, p, k);
    NodeIn(u, q, k);
    hide Subtree;
  }

  lemma HoldsMeaning(w: Tree, r: Path, image: Tree)
    requires Holds(r, r + [".stmanager", "extensions_git_manifest.json"], w, image)
    ensures Restored(w, r, image)
  {
    hide Subtree;
    FixedPlaces(r);
    forall k: Path
      ensures At(w, r + ["data"] + k) == At(image, ["data"] + k)
      ensures At(w, r + ["public", "scripts", "extensions", "third-party"] + k) == At(image, ["extensions"] + k)
      ensures At(w, r + [".stmanager", "extensions_git_manifest.json"] + k) ==
              At(image, [".stmanager", "extensions_git_manifest.json"] + k)
    {
      SubtreeNodes(w, DataAt(r), image, DATA, k);
      SubtreeNodes(w, ExtensionsAt(r), image, STAGED_EXTENSIONS, k);
      SubtreeNodes(w, ManifestAt(r), image, GIT_MANIFEST, k);
    }
  }

  lemma RootAsItWas(t: Tree, g: Tree, w: Tree, root: string, r: Path, archive: Archive, stage: Option<Path>,
                    unpacked: bool, result: RestoreResult, sameDevice: bool, reliable: bool)
    requires Restoration(t, g, w, root, archive, stage, unpacked, result, sameDevice, reliable)
    requires WellFormed(t) && Plain(t, root, r)
    ensures g == t && LeadsToDir(g, Comps(root)) && LedTo(g, Comps(root)) == r
  {
    PlainWay(t, root, r);
    hide HasRoom, Cleaned, OnlyStage, Image, LeadsToDir, LedTo, FollowAimed, FollowEnd;
  }

  lemma KeptMeaning(t: Tree, w: Tree, r: Path, stage: Option<Path>)
    ensures var e := r + ["public", "scripts", "extensions", "third-party"];
            var m := r + [".stmanager", "extensions_git_manifest.json"];
            && (ElsewhereKept(r, e, m, t, w, None) ==> OthersAsBefore(t, w, r))
            && (RolledBack(r, m, t, w, stage) ==>
                  forall k | !InStage(stage, k) :: KeptAt(t, w, r, k) || (m <= k && k !in w))
  {
    FixedPlaces(r);
    hide DATA, EXTENSIONS, GIT_MANIFEST;
  }

  /** After a success the targets are those of the archive and all else is as before. After an error on one
      device everything is as before, but for what may be missing of a manifest, and for the stage. */
  lemma OrdinaryResult(t: Tree, g: Tree, w: Tree, root: string, r: Path, archive: Archive, stage: Option<Path>,
                       unpacked: bool, result: RestoreResult, sameDevice: bool, reliable: bool)
    requires Restoration(t, g, w, root, archive, stage, unpacked, result, sameDevice, reliable)
    requires WellFormed(t) && OrdinaryRoot(t, root, r)
    ensures result == Succeeded ==>
              && archive.readable && Image(archive).Some?
              && Restored(w, r, Image(archive).value) && OthersAsBefore(t, w, r)
    ensures result == RestoreFailed && sameDevice ==>
              forall k | !InStage(stage, k) ::
                KeptAt(t, w, r, k) || (r + [".stmanager", "extensions_git_manifest.json"] <= k && k !in w)
  {
    RootAsItWas(t, g, w, root, r, archive, stage, unpacked, result, sameDevice, reliable);
    OrdinarySteady(t, root, r, Contents(archive));
    KeptMeaning(t, w, r, stage);
    hide OrdinaryRoot, Restoration, Steady, Told, WayIn, ManifestLead, Holds, ElsewhereKept, RolledBack, Restored,
      Image, OthersAsBefore, KeptAt, Comps, ManifestPlace, LeadsToDir, LedTo, InStage;
    SteadyResult(t, g, w, root, archive, stage, unpacked, result, sameDevice, reliable);
    if result == Succeeded {
      StageableMeans(archive);
      HoldsMeaning(w, r, Image(archive).value);
    }
  }

  /** What is needed for a success. */
  ghost predicate OrdinaryArchive(t: Tree, r: Path, archive: Archive) {
    && archive.readable && archive.intact && Image(archive).Some?
    && var image := Image(archive).value;
    && At(image, ["data"]) == Some(DirE) && At(image, ["extensions"]) == Some(DirE)
    && [".stmanager-restore-old-data"] !in image && [".stmanager-restore-old-extensions"] !in image
    && !IsDir(image, [".stmanager", "extensions_git_manifest.json"])
    && ([".stmanager", "extensions_git_manifest.json"] in image && r + [".stmanager"] in t ==>
          IsDir(t, r + [".stmanager"]))
  }

  lemma OrdinaryHasRoom(t: Tree, root: string, r: Path)
    requires WellFormed(t) && OrdinaryRoot(t, root, r)
    ensures HasRoom(t, t, root)
  {
    PlainWay(t, root, r);
    OrdinaryRoom(t, root, r);
    hide RoomFor, LeadsToDir, LedTo, Comps;
  }

  lemma WasUnpacked(t: Tree, g: Tree, w: Tree, root: string, archive: Archive, stage: Option<Path>, unpacked: bool,
                    result: RestoreResult)
    requires Restoration(t, g, w, root, archive, stage, unpacked, result, true, true)
    requires HasRoom(t, g, root) && archive.readable && archive.intact
    ensures unpacked == Image(archive).Some?
  {
    hide HasRoom, Cleaned, OnlyStage, Image, LeadsToDir, LedTo, RootMade, IsStage;
  }

  lemma FixedNames()
    ensures DATA == ["data"] && STAGED_EXTENSIONS == ["extensions"]
    ensures OLD_DATA == [".stmanager-restore-old-data"] && OLD_EXTENSIONS == [".stmanager-restore-old-extensions"]
    ensures GIT_MANIFEST == [".stmanager", "extensions_git_manifest.json"]
  {
  }

  lemma OrdinaryStageable(t: Tree, r: Path, archive: Archive)
    requires OrdinaryArchive(t, r, archive)
    ensures Stageable(archive) && Certain(archive)
  {
    FixedNames();
    hide DATA, STAGED_EXTENSIONS, OLD_DATA, OLD_EXTENSIONS, GIT_MANIFEST, Image;
  }

  lemma OrdinaryOpen(t: Tree, root: string, r: Path, k: Path)
    requires OrdinaryRoot(t, root, r)
    ensures OpenWay(t, r + EXTENSIONS[..3])
    ensures k <= r + [".stmanager"] && k in t ==> k == r + [".stmanager"] || IsDir(t, k)
  {
    FixedPlaces(r);
    hide EXTENSIONS, Comps;
    if k <= r + [".stmanager"] && k != r + [".stmanager"] {
      assert k <= r;
      assert k <= r + ["public", "scripts", "extensions"];
    }
  }

  lemma OrdinaryManifest(t: Tree, root: string, r: Path, archive: Archive)
    requires WellFormed(t) && OrdinaryRoot(t, root, r) && OrdinaryArchive(t, r, archive)
    ensures ManifestCanFollow(t, root, r, Contents(archive))
  {
    FixedPlaces(r);
    FixedNames();
    OrdinarySteady(t, root, r, Contents(archive));
    var image := Contents(archive);
    assert image == Image(archive).value;
    NotOnTheWay(r, ManifestAt(r));
    hide Told, OffTheWay, WayIn, ManifestLead, ManifestPlace, Comps, Image, DATA, EXTENSIONS, OnWay;
    if GIT_MANIFEST in image {
      forall k | k <= r + GIT_MANIFEST[..1] && k in t ensures IsDir(t, k) {
        OrdinaryOpen(t, root, r, k);
      }
    }
  }

  /** If nothing fails the restore succeeds. */
  lemma OrdinarySuccess(t: Tree, g: Tree, w: Tree, root: string, r: Path, archive: Archive, stage: Option<Path>,
                        unpacked: bool, result: RestoreResult)
    requires Restoration(t, g, w, root, archive, stage, unpacked, result, true, true)
    requires WellFormed(t) && OrdinaryRoot(t, root, r) && OrdinaryArchive(t, r, archive)
    ensures result == Succeeded
  {
    RootAsItWas(t, g, w, root, r, archive, stage, unpacked, result, true, true);
    OrdinarySteady(t, root, r, Contents(archive));
    OrdinaryHasRoom(t, root, r);
    OrdinaryStageable(t, r, archive);
    OrdinaryManifest(t, root, r, archive);
    OrdinaryOpen(t, root, r, r);
    WasUnpacked(t, g, w, root, archive, stage, unpacked, result);
    ToldIsNotLinked(t, root, r, Contents(archive));
    NotOnTheWay(r, DataAt(r));
    NotOnTheWay(r, ExtensionsAt(r));
    hide OrdinaryRoot, OrdinaryArchive, Restoration, Steady, Told, WayIn, ManifestLead, Comps, ManifestPlace,
      LeadsToDir, LedTo, OnWay, Stageable, Certain, ManifestCanFollow, HasRoom, OpenWay, RootLinked, Image;
    SucceedsIff(t, g, w, root, archive, stage, result);
  }
}

/** Pulls between ordinary devices. */
module OrdinaryPull {
  import opened Bytes
  import opened Paths
  import opened FileTree
  import opened PathWalk
  import opened FileSystem
  import opened PathSafety
  import opened FsOps
  import opened Backup
  import opened RestorePlaces
  import opened RestoreRoots
  import opened RestoreOutcome
  import opened WriteBackup
  import opened SyncServer
  import opened SyncClient
  import opened EndToEnd
  import opened OrdinaryRestore

  /** The path spells a directory name by name, and there is no link below it. */
  ghost predicate PlainSource(t: Tree, path: string, p: Path) {
    Plain(t, path, p) && forall k | k in t && p <= k :: !t[k].LinkE?
  }

  lemma PlainFound(t: Tree, path: string, p: Path)
    requires WellFormed(t) && PlainSource(t, path, p)
    ensures Found(t, path) && SourceLoc(t, path) == p && IsDir(t, p) && Archivable(t, p)
  {
    PlainWay(t, path, p);
    hide Comps;
  }

  /** Two plain directories can be served, if their backup is not empty and can be sent. */
  lemma OrdinaryServes(t: Tree, source: Source, d: Path, e: Path)
    requires WellFormed(t) && PlainSource(t, source.data, d) && PlainSource(t, source.ext, e)
    ensures Writable(t, source.data, source.ext, {})
    ensures Found(t, source.data) && SourceLoc(t, source.data) == d
    ensures Found(t, source.ext) && SourceLoc(t, source.ext) == e
    ensures 0 < |BackupBytes(t, source)| < MAX_STREAM ==> Serves(t, source)
  {
    PlainFound(t, source.data, d);
    PlainFound(t, source.ext, e);
    hide PlainSource, BackupBytes;
    ArchivableDirectory(t, e);
  }

  /** An ordinary root can take any backup. */
  lemma OrdinaryTakes(t: Tree, root: string, r: Path, server: Tree, source: Source)
    requires WellFormed(t) && OrdinaryRoot(t, root, r)
    ensures CanInstall(t, root, WholeBackup(server, source))
  {
    PlainWay(t, root, r);
    OrdinaryRoom(t, root, r);
    OrdinarySteady(t, root, r, Contents(WholeBackup(server, source)));
    hide Plain, RoomFor, Steady, Told, WayIn, ManifestLead, ManifestPlace, Comps, Contents, WholeBackup;
  }

  lemma MirroredBelow(server: Tree, source: Source, root: string, r: Path, m: Path, t: Tree, w: Tree)
    requires Mirrored(server, source, root, t, w) && LeadsToDir(t, Comps(root)) && LedTo(t, Comps(root)) == r
    requires ManifestPlace(t, root, r, Contents(WholeBackup(server, source))) == m
    ensures Subtree(w, DataAt(r)) == Subtree(server, SourceLoc(server, source.data))
    ensures Subtree(w, ExtensionsAt(r)) == Subtree(server, SourceLoc(server, source.ext))
    ensures Subtree(w, m) == map[] && ElsewhereKept(r, ExtensionsAt(r), m, t, w, None)
  {
    hide Comps, Contents, WholeBackup, ElsewhereKept, ManifestPlace, SourceLoc, LeadsToDir, LedTo, DATA, EXTENSIONS,
      Subtree;
  }

  lemma NothingIn(w: Tree, m: Path)
    requires Subtree(w, m) == map[]
    ensures forall k: Path :: m + k !in w
  {
    forall k: Path ensures m + k !in w {
      NodeIn(w, m, k);
    }
  }

  lemma MirroredAt(server: Tree, source: Source, root: string, r: Path, t: Tree, w: Tree)
    requires WellFormed(t) && OrdinaryRoot(t, root, r) && Mirrored(server, source, root, t, w)
    ensures Subtree(w, DataAt(r)) == Subtree(server, SourceLoc(server, source.data))
    ensures Subtree(w, ExtensionsAt(r)) == Subtree(server, SourceLoc(server, source.ext))
    ensures forall k: Path :: ManifestAt(r) + k !in w
    ensures OthersAsBefore(t, w, r)
  {
    PlainWay(t, root, r);
    assert Comps(root) == r;
    OrdinarySteady(t, root, r, Contents(WholeBackup(server, source)));
    KeptMeaning(t, w, r, None);
    FixedPlaces(r);
    hide *;
    MirroredBelow(server, source, root, r, ManifestAt(r), t, w);
    NothingIn(w, ManifestAt(r));
  }

  /** After a pull the client's trees are, node by node, those of the server, there is no manifest, and all
      else is as before. */
  lemma OrdinaryMirror(server: Tree, source: Source, d: Path, e: Path, t: Tree, root: string, r: Path, w: Tree)
    requires WellFormed(server) && PlainSource(server, source.data, d) && PlainSource(server, source.ext, e)
    requires WellFormed(t) && OrdinaryRoot(t, root, r) && Mirrored(server, source, root, t, w)
    ensures forall k: Path {:trigger r + ["data"] + k} ::
              && At(w, r + ["data"] + k) == At(server, d + k)
              && At(w, r + ["public", "scripts", "extensions", "third-party"] + k) == At(server, e + k)
              && r + [".stmanager", "extensions_git_manifest.json"] + k !in w
    ensures OthersAsBefore(t, w, r)
  {
    PlainFound(server, source.data, d);
    PlainFound(server, source.ext, e);
    MirroredAt(server, source, root, r, t, w);
    FixedPlaces(r);
    hide *;
    forall k: Path
      ensures At(w, r + ["data"] + k) == At(server, d + k)
      ensures At(w, r + ["public", "scripts", "extensions", "third-party"] + k) == At(server, e + k)
      ensures r + [".stmanager", "extensions_git_manifest.json"] + k !in w
    {
      SubtreeNodes(w, DataAt(r), server, d, k);
      SubtreeNodes(w, ExtensionsAt(r), server, e, k);
      assert ManifestAt(r) + k !in w;
    }
  }
}

/** Package installations in ordinary places. */
module OrdinaryUpdate {
  import opened Bytes
  import opened Paths
  import opened FileTree
  import opened PathWalk
  import opened FileSystem
  import opened PathSafety
  import opened FsOps
  import opened Extraction
  import opened Sha256Standard
  import opened Files
  import opened HexText
  import opened RazeUpdate
  import opened OrdinaryRestore

  /** Plain directories for the downloads and for the root, with the download outside the root and no link or
      directory in its place. */
  ghost predicate OrdinarySetting(t: Tree, s: Setting, u: Update, c: Path, r: Path) {
    && Plain(t, s.cacheDir, c) && Plain(t, s.root, r) && SafeName(u.file)
    && (c + [u.file] in t ==> t[c + [u.file]].FileE?) && !(r <= c + [u.file])
  }

  lemma DownloadPlace(t: Tree, s: Setting, u: Update, c: Path, r: Path)
    requires WellFormed(t) && OrdinarySetting(t, s, u, c, r)
    ensures var path := JoinPath(s.cacheDir, u.file);
            CanDownload(t, path) && Where(t, path, true) == Spot(c + [u.file])
  {
    var path := JoinPath(s.cacheDir, u.file);
    CompsOfName(u.file);
    PlainWay(t, s.cacheDir, c);
    assert Parent(c + [u.file]) == c;
    WhereBelow(t, s.cacheDir, c, path, [u.file], true);
    assert NoTrailingSlash(u.file);
    ParentWay(path);
    hide Walk, Comps, JoinPath;
    if LastSlash(path) > 0 {
      assert Plain(t, path[..LastSlash(path)], c);
      PlainWay(t, path[..LastSlash(path)], c);
    }
  }

  lemma RootBesideDownload(t: Tree, s: Setting, u: Update, c: Path, r: Path, bytes: seq<byte>)
    requires WellFormed(t) && OrdinarySetting(t, s, u, c, r)
    ensures var v := t[c + [u.file] := FileE(bytes)];
            NamesDir(v, s.root) && Where(v, s.root, true) == Spot(r) && Subtree(v, r) == Subtree(t, r)
  {
    var p := c + [u.file];
    var v := t[p := FileE(bytes)];
    hide Walk, Comps;
    assert Parent(p) == c && p != r;
    PutWellFormed(t, p, FileE(bytes));
    PlainWay(v, s.root, r);
    forall k ensures At(Subtree(v, r), k) == At(Subtree(t, r), k) {
      NodeIn(v, r, k);
      NodeIn(t, r, k);
    }
    SameTree(Subtree(v, r), Subtree(t, r));
  }

  lemma SmallName(name: string)
    requires name == "sha256"
    ensures Lower(name) == name
  {
  }

  /** A package that the network delivers with the digest of the manifest, and whose entries suit the tree below
      the root, can be installed. */
  lemma OrdinaryInstall(t: Tree, s: Setting, algorithm: string, u: Update, c: Path, r: Path, bytes: seq<byte>)
    requires WellFormed(t) && OrdinarySetting(t, s, u, c, r)
    requires u.downloadUrl != "" && s.network(u.downloadUrl) == Some(bytes)
    requires SameText(algorithm, "sha256") && SameText(Hex(Digest(bytes)), u.remoteHash)
    requires s.open(bytes).readable && s.open(bytes).intact
    requires Extractable(Subtree(t, r), Normalized(s.open(bytes).entries))
    ensures CanInstall(t, s, algorithm, u)
  {
    DownloadPlace(t, s, u, c, r);
    RootBesideDownload(t, s, u, c, r, bytes);
    SmallName("sha256");
    LowerMeaning(algorithm, "sha256");
    LowerMeaning(Hex(Digest(bytes)), u.remoteHash);
    hide Walk, Comps, JoinPath, Subtree, Lower, Hex, Digest, Extractable, Normalized;
  }
}
