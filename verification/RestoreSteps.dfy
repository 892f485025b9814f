/** The moves of a restore and their rollback (src/archive_stream.cpp). */
module RestoreSteps {
  import opened Paths
  import opened FileTree
  import opened PathWalk
  import opened Ways
  import opened FileSystem
  import opened PathSafety
  import opened FsOps
  import opened RestorePlaces
  import opened RestoreState

  /** The path strings of the places. */
  datatype RestorePaths = RestorePaths(data: string, extensions: string, manifest: string, stagedData: string,
                                       stagedExtensions: string, stagedManifest: string, oldData: string,
                                       oldExtensions: string)

  function Text(paths: RestorePaths, x: PlaceId): string {
    match x
    case Data => paths.data
    case Extensions => paths.extensions
    case Manifest => paths.manifest
    case StagedData => paths.stagedData
    case StagedExtensions => paths.stagedExtensions
    case StagedManifest => paths.stagedManifest
    case OldData => paths.oldData
    case OldExtensions => paths.oldExtensions
  }

  function ResolvePaths(root: string, stage: string): RestorePaths {
    FixedNamesSafe();
    RestorePaths(Place(root, DATA), Place(root, EXTENSIONS), Place(root, GIT_MANIFEST), Place(stage, DATA),
                 Place(stage, STAGED_EXTENSIONS), Place(stage, GIT_MANIFEST), Place(stage, OLD_DATA),
                 Place(stage, OLD_EXTENSIONS))
  }

  /** The path consists of the names that lead to the root r and of those from there to p. */
  ghost predicate Spells(path: string, way: seq<string>, r: Path, p: Path) {
    && NoTrailingSlash(path) && way <= Comps(path)
    && var rel := Comps(path)[|way|..]; rel != [] && NoDots(rel) && p == r + rel
  }

  ghost predicate Match(paths: RestorePaths, pl: Places) {
    forall x {:trigger Text(paths, x)} :: Spells(Text(paths, x), pl.way, pl.r, Target(pl, x))
  }

  lemma PlaceNames(root: string, way: seq<string>, r: Path, inner: Path, rel: Path)
    requires Comps(root) == way + inner && NoDots(inner) && rel != [] && SafeNames(rel)
    ensures Spells(Place(root, rel), way, r, r + inner + rel)
  {
    hide Comps, Place, NoDots;
    var path := Place(root, rel);
    NamesWithoutDots(inner, rel);
    assert Comps(path) == way + (inner + rel);
    assert Comps(path)[|way|..] == inner + rel;
    assert r + inner + rel == r + (inner + rel);
  }

  lemma NamesWithoutDots(inner: Path, rel: Path)
    requires NoDots(inner) && SafeNames(rel)
    ensures NoDots(inner + rel)
  {
    forall i | 0 <= i < |inner + rel| ensures !IsDots((inner + rel)[i]) {
      assert i >= |inner| ==> SafeName(rel[i - |inner|]);
    }
  }

  lemma ResolvedText(root: string, stage: string, pl: Places, name: string, x: PlaceId)
    requires Comps(root) == pl.way && Comps(stage) == pl.way + [name] && name != "." && name != ".."
    requires Formed(pl, pl.r + [name])
    ensures Spells(Text(ResolvePaths(root, stage), x), pl.way, pl.r, Target(pl, x))
  {
    hide Spells, Comps;
    FixedNamesSafe();
    assert pl.way + [] == pl.way && pl.r + [] == pl.r;
    match x
    case Data => PlaceNames(root, pl.way, pl.r, [], DATA);
    case Extensions => PlaceNames(root, pl.way, pl.r, [], EXTENSIONS);
    case Manifest => PlaceNames(root, pl.way, pl.r, [], GIT_MANIFEST);
    case StagedData => PlaceNames(stage, pl.way, pl.r, [name], DATA);
    case StagedExtensions => PlaceNames(stage, pl.way, pl.r, [name], STAGED_EXTENSIONS);
    case StagedManifest => PlaceNames(stage, pl.way, pl.r, [name], GIT_MANIFEST);
    case OldData => PlaceNames(stage, pl.way, pl.r, [name], OLD_DATA);
    case OldExtensions => PlaceNames(stage, pl.way, pl.r, [name], OLD_EXTENSIONS);
  }

  lemma ResolvedMatch(root: string, stage: string, pl: Places, name: string)
    requires Comps(root) == pl.way && Comps(stage) == pl.way + [name] && name != "." && name != ".."
    requires Formed(pl, pl.r + [name])
    ensures Match(ResolvePaths(root, stage), pl)
  {
    hide Spells, Comps;
    forall x ensures Spells(Text(ResolvePaths(root, stage), x), pl.way, pl.r, Target(pl, x)) {
      ResolvedText(root, stage, pl, name, x);
    }
  }

  // ---- What the paths name in a tree in which the root is reached ----

  /** Below a root that is reached in whatever way, without links from there on. */
  lemma Lookup(u: Tree, path: string, way: seq<string>, r: Path, p: Path)
    requires WellFormed(u) && Walk(u, [], way, true, MAX_LINKS) == Spot(r) && IsDir(u, r)
    requires Spells(path, way, r, p) && Direct(u, p)
    ensures Found(u, path) <==> p in u
    ensures Found(u, path) ==> SourceLoc(u, path) == p
  {
    var rel := Comps(path)[|way|..];
    assert Comps(path) == way + rel;
    var left := WalkThrough(u, [], way, rel, false, MAX_LINKS);
    WalkDirect(u, r, rel, false, left);
  }

  /** As a destination; the root is reached without links. */
  lemma Aim(u: Tree, path: string, way: seq<string>, r: Path, p: Path)
    requires WellFormed(u) && RealWay(u, way) && End(way) == r && Spells(path, way, r, p)
    ensures Goal(path) == p && p != [] && (p !in u ==> FreeAim(u, path))
    ensures !OpenWay(u, Parent(p)) ==> Crossed(u, Comps(DirectoryOf(path)))
  {
    hide Comps, RealWay, End, Step, Aimed;
    var rel := Comps(path)[|way|..];
    assert Comps(path) == way + rel;
    RealIsAimed(u, way);
    AimedDown(u, way, rel);
    ParentWay(path);
    var above := Parent(rel);
    assert Parent(Comps(path)) == way + above && Parent(p) == r + above;
    assert NoDots(above);
    AimedDown(u, way, above);
    if !Crossed(u, way + above) {
      forall k | k <= Parent(p) && k in u ensures IsDir(u, k) {
        OpenUnlessCrossed(u, way + above, k);
      }
    }
  }

  /** Where the path of the extensions leads once the data is away. */
  ghost predicate ExtensionsLead(path: string, pl: Places, t: Tree) {
    var v := Without(t, pl.data);
    && (pl.ext.Linked? ==> Found(v, path) && SourceLoc(v, path) == pl.extensions)
    && (pl.ext.Stuck? ==> Found(v, path) ==> SourceLoc(v, path) <= pl.r)
  }

  /** Where the path of the manifest leads once the staged trees are installed. */
  ghost predicate ManifestLeads(path: string, pl: Places, x: Tree) {
    && (Where(x, path, false).Blocked? || Where(x, path, false).loc != pl.stage)
    && (pl.settled <==> (Found(x, path) ==> Settled(x, path)))
    && match pl.man
       case Straight => NamesPlace(x, path, pl.manifest)
       case Led => NamesPlace(x, path, pl.manifest)
       case Inside => Found(x, path) && SourceLoc(x, path) == pl.led && (pl.data < pl.led || pl.extensions < pl.led)
       case Above => Found(x, path) && SourceLoc(x, path) == pl.led && pl.led <= pl.r
  }

  /** Nothing that lies before the manifest step keeps it from being reached. */
  ghost predicate CanReach(pl: Places) {
    pl.ext.Open? && !Passes(pl, Data) && !Passes(pl, Extensions)
  }

  /** Where the path of the manifest leads, and whether through what it names, depends on the trees installed. */
  ghost predicate NeedsTree(pl: Places) {
    !pl.man.Straight? || Passes(pl, Manifest)
  }

  ghost predicate Leads(paths: RestorePaths, pl: Places, t: Tree) {
    && pl.fixed != [] && ExtensionsLead(paths.extensions, pl, t)
    && (!NeedsTree(pl) ==> pl.settled)
    && (NeedsTree(pl) && CanReach(pl) ==> ManifestLeads(paths.manifest, pl, InstalledTree(pl, t)))
  }

  /** The standing assumptions of every step of a transaction over these places that began in t: with a
      plain root the places are sound, until one of them that is on the way to the root is taken away and
      the root with it; with a root behind a link nothing happens. */
  ghost predicate Running(fs: FileSystem, paths: RestorePaths, pl: Places, t: Tree)
    reads fs
  {
    && fs.Valid() && WellFormed(t) && Match(paths, pl)
    && (pl.mode.Plain? ==>
          && Layout(pl) && Rooted(pl, t) && Leads(paths, pl, t) && Sound(pl, t, fs.tree)
          && (RealWay(fs.tree, pl.way) || Gap(fs.tree, pl.way)))
    && (pl.mode.Barred? ==> fs.tree == t && Crossed(t, pl.way))
  }

  /** The path names this place, if anything. */
  ghost predicate NamesPlace(u: Tree, path: string, p: Path) {
    && (Found(u, path) <==> p in u)
    && (Found(u, path) ==> SourceLoc(u, path) == p)
  }

  /** The path names nothing that could be moved to b. */
  ghost predicate Immovable(u: Tree, path: string, b: Path) {
    Found(u, path) ==> SourceLoc(u, path) <= b
  }

  /** The places that are reached without a link. */
  lemma PlaceNamed(paths: RestorePaths, pl: Places, t: Tree, u: Tree, x: PlaceId)
    requires Layout(pl) && Rooted(pl, t) && Sound(pl, t, u) && RealWay(u, pl.way) && Match(paths, pl)
    requires StraightTo(pl, x)
    ensures NamesPlace(u, Text(paths, x), Loc(pl, x))
  {
    hide Spells, RealWay, Match;
    EndOfWay(pl, t);
    RootKept(pl, u);
    TextSpells(paths, pl, x);
    PlaceDirect(pl, t, u, x);
    Lookup(u, Text(paths, x), pl.way, pl.r, Target(pl, x));
  }

  /** No link is on the way from the root to the place. */
  predicate StraightTo(pl: Places, x: PlaceId) {
    (x.Extensions? ==> pl.ext.Open?) && (x.Manifest? ==> pl.man.Straight?)
  }

  /** Where there is no way to the root, nothing is found. */
  lemma AdriftNothing(paths: RestorePaths, pl: Places, u: Tree, x: PlaceId)
    requires Match(paths, pl) && WellFormed(u) && Gap(u, pl.way)
    ensures !Found(u, Text(paths, x)) && StatOf(u, Text(paths, x), false) == NoEntry
  {
    hide Gap;
    TextSpells(paths, pl, x);
    var path := Text(paths, x);
    var rel := Comps(path)[|pl.way|..];
    assert Comps(path) == pl.way + rel;
    GapIsMissing(u, pl.way, rel, false);
  }

  lemma TextSpells(paths: RestorePaths, pl: Places, x: PlaceId)
    requires Match(paths, pl)
    ensures Spells(Text(paths, x), pl.way, pl.r, Target(pl, x))
  {
  }

  lemma PlaceDirect(pl: Places, t: Tree, u: Tree, x: PlaceId)
    requires Layout(pl) && Rooted(pl, t) && Sound(pl, t, u) && RealWay(u, pl.way) && StraightTo(pl, x)
    ensures Direct(u, Target(pl, x))
  {
    RootKept(pl, u);
    match x
    case Extensions => ReceiverOpen(pl, t, u, x); OpenIsDirect(u, pl.fixed);
    case Manifest => ManifestDirect(pl, t, u);
    case StagedManifest =>
    case Data => DirectBelowDir(u, pl.data);
    case StagedData => DirectBelowDir(u, pl.stagedData);
    case StagedExtensions => DirectBelowDir(u, pl.stagedExtensions);
    case OldData => DirectBelowDir(u, pl.oldData);
    case OldExtensions => DirectBelowDir(u, pl.oldExtensions);
  }

  lemma OpenIsDirect(u: Tree, p: Path)
    requires p != [] && OpenWay(u, Parent(p))
    ensures Direct(u, p)
  {
    forall i | 0 <= i < |p| ensures !IsLink(u, p[..i]) {
      assert p[..i] <= Parent(p);
    }
  }

  lemma ManifestDirect(pl: Places, t: Tree, u: Tree)
    requires Layout(pl) && Rooted(pl, t) && Sound(pl, t, u) && IsDir(u, pl.r) && pl.man.Straight?
    ensures Direct(u, pl.manifest)
  {
    hide Layout, Rooted, Sound;
    StraightState(pl, t, u);
    var state := Parent(pl.manifest);
    DirectBelowDir(u, state);
    forall i | 0 <= i < |pl.manifest| ensures !IsLink(u, pl.manifest[..i]) {
      assert i < |state| ==> pl.manifest[..i] == state[..i];
      assert pl.manifest[..|pl.manifest| - 1] == state;
    }
  }

  /** The state directory below a root that is reached. */
  lemma StraightState(pl: Places, t: Tree, u: Tree)
    requires Layout(pl) && Rooted(pl, t) && Sound(pl, t, u) && IsDir(u, pl.r) && pl.man.Straight?
    ensures WellFormed(u) && pl.manifest != [] && Parent(pl.manifest) != []
    ensures Parent(Parent(pl.manifest)) == pl.r && !IsLink(u, Parent(pl.manifest))
  {
    hide RealWay, OnWay;
    var state := Parent(pl.manifest);
    TargetAncestorNotInPlay(pl, Manifest, state);
    assert At(u, state) == At(t, state) || At(u, state) == Some(DirE);
  }

  /** What a destination is to a move. */
  lemma MoveContext(paths: RestorePaths, pl: Places, t: Tree, u: Tree, y: PlaceId)
    requires Layout(pl) && Rooted(pl, t) && Sound(pl, t, u) && WellFormed(t) && RealWay(u, pl.way) && Match(paths, pl)
    requires Receives(y)
    ensures Closed(pl, t, y) ==> Crossed(u, Comps(DirectoryOf(Text(paths, y))))
    ensures !Closed(pl, t, y) ==>
              var b := Loc(pl, y);
              && Target(pl, y) == b && b != [] && OpenWay(u, Parent(b)) && (b in u ==> Exists(u, Text(paths, y)))
              && Goal(Text(paths, y)) == b && (b !in u ==> FreeAim(u, Text(paths, y)))
  {
    hide Spells, RealWay, Match, Crossed, Aimed, End;
    RootKept(pl, u);
    TextSpells(paths, pl, y);
    EndOfWay(pl, t);
    Aim(u, Text(paths, y), pl.way, pl.r, Target(pl, y));
    if Closed(pl, t, y) {
      ClosedStays(pl, t, u, y);
    } else {
      ReceiverOpen(pl, t, u, y);
      OpenIsStraight(pl, t, y);
      PlaceNamed(paths, pl, t, u, y);
    }
  }

  lemma OpenIsStraight(pl: Places, t: Tree, y: PlaceId)
    requires Layout(pl) && Rooted(pl, t) && !Closed(pl, t, y)
    ensures StraightTo(pl, y) && Target(pl, y) == Loc(pl, y)
  {
    assert pl.fixedManifest != [] && Parent(pl.fixedManifest) <= Parent(pl.fixedManifest);
  }

  lemma EndOfWay(pl: Places, t: Tree)
    requires Rooted(pl, t)
    ensures End(pl.way) == pl.r
  {
  }

  /** With its directory there, nothing is added above a place. */
  lemma GrownAtDir(u: Tree, v: Tree, p: Path)
    requires WellFormed(u) && IsDir(u, p) && Grown(u, v, p)
    ensures v == u
  {
    forall k ensures At(v, k) == At(u, k) {
      if k <= p && k != p {
        AncestorIsDir(u, k, p);
      }
    }
    SameTree(v, u);
  }

  /** A move between two places; what is taken is named by its path, or cannot be moved to that place. */
  method MovePlace(fs: FileSystem, paths: RestorePaths, x: PlaceId, y: PlaceId, ghost pl: Places, ghost t: Tree)
    returns (ok: bool)
    requires Running(fs, paths, pl, t) && Receives(y) && x != y
    requires Reached(pl, fs.tree) ==>
               NamesPlace(fs.tree, Text(paths, x), Loc(pl, x)) ||
               (y.OldExtensions? && Immovable(fs.tree, Text(paths, x), Loc(pl, y)))
    modifies fs
    ensures Running(fs, paths, pl, t)
    ensures pl.mode.Barred? || Adrift(pl, old(fs.tree)) ==> !ok && fs.tree == old(fs.tree)
    ensures Crossed(old(fs.tree), Comps(DirectoryOf(Text(paths, y)))) ==> !ok && fs.tree == old(fs.tree)
    ensures Reached(pl, old(fs.tree)) ==>
              var u, a, b := old(fs.tree), Loc(pl, x), Loc(pl, y);
              && SamePlaces(pl, u, fs.tree, x, y)
              && (Closed(pl, t, y) || (y.OldExtensions? && Immovable(u, Text(paths, x), b)) ==> !ok && fs.tree == u)
              && (ok ==> a in u && MovedTo(u, fs.tree, a, b) && a !in fs.tree && b in fs.tree)
              && (!ok && fs.sameDevice ==> SameAt(u, fs.tree, a) && SameAt(u, fs.tree, b))
              && (!Passes(pl, x) || (!ok && fs.sameDevice) ==> Reached(pl, fs.tree))
              && (ok && Passes(pl, x) ==> Adrift(pl, fs.tree))
              && ((fs.reliable && fs.sameDevice && NamesPlace(u, Text(paths, x), a) && a in u && b !in u &&
                   !Closed(pl, t, y)) ==> ok)
  {
    hide Spells, RealWay, Match, Crossed, Aimed, End, Rooted, Sound, NamesPlace, Closed, SamePlaces, SameAt, Layout,
      Leads;
    hide MovedTo, OnlyAt, OpenWay, Comps, FreeAim, Walk, Grown, OnlyDirsAdded, StatOf, DirectoryOf, WellFormed, Gap;
    hide OnWay, Less, Losable;
    ghost var a, b, u := Loc(pl, x), Loc(pl, y), fs.tree;
    if pl.mode.Plain? {
      NotBoth(pl, u);
    }
    if Reached(pl, u) {
      MoveContext(paths, pl, t, u, y);
      PlacesDiffer(pl, x, y);
      NamesFound(u, Text(paths, x), a);
    } else if pl.mode.Plain? {
      AdriftNothing(paths, pl, u, x);
    } else if pl.mode.Barred? {
      BarredBelow(paths, pl, t, y);
    }
    ok := MoveOrCopyPath(fs, Text(paths, x), Text(paths, y));
    if Reached(pl, u) {
      PlaceMoved(paths, pl, t, u, fs.tree, x, y, ok, fs.sameDevice);
    }
  }

  /** A root is not reached and lost at once. */
  lemma NotBoth(pl: Places, u: Tree)
    ensures !(Reached(pl, u) && Adrift(pl, u))
  {
  }

  lemma NamesFound(u: Tree, path: string, p: Path)
    ensures NamesPlace(u, path, p) && p in u ==> Found(u, path) && SourceLoc(u, path) == p
  {
  }

  lemma PlacesDiffer(pl: Places, x: PlaceId, y: PlaceId)
    requires Layout(pl) && x != y
    ensures Apart(Loc(pl, x), Loc(pl, y))
  {
  }

  lemma BarredBelow(paths: RestorePaths, pl: Places, t: Tree, y: PlaceId)
    requires Match(paths, pl) && Crossed(t, pl.way)
    ensures Crossed(t, Comps(DirectoryOf(Text(paths, y))))
  {
    hide Crossed;
    TextSpells(paths, pl, y);
    var path := Text(paths, y);
    var rel := Comps(path)[|pl.way|..];
    ParentWay(path);
    assert Comps(path) == pl.way + rel;
    assert Parent(Comps(path)) == pl.way + Parent(rel);
    CrossedFurther(t, pl.way, Parent(rel));
  }

  /** What the contract of a move means for the places. */
  lemma PlaceMoved(paths: RestorePaths, pl: Places, t: Tree, u: Tree, v: Tree, x: PlaceId, y: PlaceId, ok: bool,
                   sameDevice: bool)
    requires Layout(pl) && Sound(pl, t, u) && WellFormed(v) && Receives(y) && x != y && Reached(pl, u)
    requires NamesPlace(u, Text(paths, x), Loc(pl, x)) ||
             (y.OldExtensions? && Immovable(u, Text(paths, x), Loc(pl, y)))
    requires Closed(pl, t, y) || !Found(u, Text(paths, x)) || Exists(u, Text(paths, y)) ==> !ok && v == u
    requires !Closed(pl, t, y) ==>
               Target(pl, y) == Loc(pl, y) && Loc(pl, y) != [] && (Loc(pl, y) in u ==> Exists(u, Text(paths, y)))
    requires !Closed(pl, t, y) && Loc(pl, y) !in u ==>
               var a, b := SourceLoc(u, Text(paths, x)), Loc(pl, y);
               && (ok ==> MovedTo(u, v, a, b)) && (!ok ==> OnlyAt(u, v, a, b))
               && (!ok && (sameDevice || a <= b) ==> Grown(u, v, Parent(b)))
               && (!ok && !(a <= b) ==> Less(u, v, a))
    ensures Sound(pl, t, v) && SamePlaces(pl, u, v, x, y)
    ensures y.OldExtensions? && Immovable(u, Text(paths, x), Loc(pl, y)) ==> !ok && v == u
    ensures ok ==> Loc(pl, x) in u && MovedTo(u, v, Loc(pl, x), Loc(pl, y)) && Loc(pl, x) !in v && Loc(pl, y) in v
    ensures !ok && sameDevice ==> SameAt(u, v, Loc(pl, x)) && SameAt(u, v, Loc(pl, y))
    ensures Reached(pl, v) || Adrift(pl, v)
    ensures !Passes(pl, x) || (!ok && sameDevice) ==> Reached(pl, v)
    ensures ok && Passes(pl, x) ==> Adrift(pl, v)
  {
    hide Closed, SamePlaces, SameAt, Less, RealWay, Gap, OnWay, MovedTo, OnlyAt, Grown, Layout, Sound, Found, SourceLoc;
    var a, b := Loc(pl, x), Loc(pl, y);
    if v == u {
      NothingMoved(pl, u, x, y);
      MoveChanges(u, SourceLoc(u, Text(paths, x)), b);
    } else if NamesPlace(u, Text(paths, x), a) {
      PlacesDiffer(pl, x, y);
      PlaceChanged(pl, t, u, v, x, y, ok, sameDevice);
    } else {
      NotMovedInside(pl, t, u, v, SourceLoc(u, Text(paths, x)), y, ok);
    }
  }

  lemma MoveChanges(u: Tree, a: Path, b: Path)
    ensures !MovedTo(u, u, a, b)
  {
    if MovedTo(u, u, a, b) {
      MovedOnlyAt(u, u, a, b);
    }
  }

  /** What cannot be moved into itself stays, and no directory has to be made for it. */
  lemma NotMovedInside(pl: Places, t: Tree, u: Tree, v: Tree, a: Path, y: PlaceId, ok: bool)
    requires Layout(pl) && Sound(pl, t, u) && y.OldExtensions? && Loc(pl, y) != [] && a <= Loc(pl, y)
    requires if ok then MovedTo(u, v, a, Loc(pl, y)) else Grown(u, v, Parent(Loc(pl, y)))
    ensures v == u
  {
    if !ok {
      GrownAtDir(u, v, Parent(Loc(pl, y)));
    }
  }

  lemma PlaceChanged(pl: Places, t: Tree, u: Tree, v: Tree, x: PlaceId, y: PlaceId, ok: bool, sameDevice: bool)
    requires Layout(pl) && Sound(pl, t, u) && WellFormed(v) && Receives(y) && x != y && Reached(pl, u)
    requires Target(pl, y) == Loc(pl, y) && Loc(pl, y) !in u
    requires var a, b := Loc(pl, x), Loc(pl, y);
             && b != [] && (ok ==> MovedTo(u, v, a, b)) && (!ok ==> OnlyAt(u, v, a, b) && Less(u, v, a))
             && (!ok && sameDevice ==> Grown(u, v, Parent(b)))
    ensures Sound(pl, t, v) && SamePlaces(pl, u, v, x, y)
    ensures ok ==> Loc(pl, x) in u && Loc(pl, x) !in v && Loc(pl, y) in v
    ensures !ok && sameDevice ==> SameAt(u, v, Loc(pl, x)) && SameAt(u, v, Loc(pl, y))
    ensures Reached(pl, v) || Adrift(pl, v)
    ensures !Passes(pl, x) || (!ok && sameDevice) ==> Reached(pl, v)
    ensures ok && Passes(pl, x) ==> Adrift(pl, v)
  {
    hide SamePlaces, SameAt, RealWay, Gap, OnWay;
    if ok {
      MovedOnlyAt(u, v, Loc(pl, x), Loc(pl, y));
      MovedIsLess(u, v, Loc(pl, x), Loc(pl, y));
    } else if sameDevice {
      GrownSamePlaces(pl, u, v, y);
    }
    SoundAfter(pl, t, u, v, x, y);
    OthersAside(pl, u, v, x, y);
    ReachedAfter(pl, u, v, x, y);
  }

  lemma MovedIsLess(u: Tree, v: Tree, a: Path, b: Path)
    requires MovedTo(u, v, a, b)
    ensures Less(u, v, a)
  {
    forall k | a <= k ensures k !in v {
      assert At(v, k) == None;
    }
  }

  lemma NothingMoved(pl: Places, u: Tree, x: PlaceId, y: PlaceId)
    ensures SamePlaces(pl, u, u, x, y) && SameAt(u, u, Loc(pl, x)) && SameAt(u, u, Loc(pl, y))
  {
  }

  lemma StraightTarget(pl: Places, x: PlaceId)
    requires Layout(pl) && StraightTo(pl, x)
    ensures Target(pl, x) == Loc(pl, x)
  {
  }

  /** A target can be removed if nothing fails: none of its own nodes is on the way to it. */
  lemma TargetSettled(paths: RestorePaths, pl: Places, t: Tree, u: Tree, x: PlaceId)
    requires Layout(pl) && Rooted(pl, t) && Sound(pl, t, u) && RealWay(u, pl.way) && Match(paths, pl) && IsTarget(x)
    requires StraightTo(pl, x) && !Passes(pl, x) && Loc(pl, x) in u
    ensures Settled(u, Text(paths, x)) && SourceLoc(u, Text(paths, x)) == Loc(pl, x)
  {
    hide Spells, Match, OnWay, RealWay, Sound, Rooted, Layout, Comps, Walk;
    SoundTree(pl, t, u);
    StraightTarget(pl, x);
    var p := Loc(pl, x);
    var e := Emptied(u, p);
    EmptiedWellFormed(u, p);
    WayKept(u, e, pl.way, p);
    EndOfWay(pl, t);
    RootKept(pl, u);
    RootKept(pl, e);
    PlaceDirect(pl, t, u, x);
    TextSpells(paths, pl, x);
    Lookup(u, Text(paths, x), pl.way, pl.r, p);
    Lookup(e, Text(paths, x), pl.way, pl.r, p);
  }

  method RemoveTarget(fs: FileSystem, paths: RestorePaths, x: PlaceId, ghost pl: Places, ghost t: Tree)
    returns (ok: bool)
    requires Running(fs, paths, pl, t) && (x.Data? || x.Extensions?) && !pl.mode.Barred?
    requires pl.mode.Plain? ==> StraightTo(pl, x) && !Passes(pl, x)
    modifies fs
    ensures Running(fs, paths, pl, t)
    ensures Adrift(pl, old(fs.tree)) ==> ok && fs.tree == old(fs.tree)
    ensures Reached(pl, old(fs.tree)) ==>
              && SamePlaces(pl, old(fs.tree), fs.tree, x, x) && RemovedBelow(old(fs.tree), fs.tree, Loc(pl, x))
              && (ok ==> Loc(pl, x) !in fs.tree) && Reached(pl, fs.tree)
              && (fs.reliable && Loc(pl, x) in old(fs.tree) ==> ok)
  {
    hide Spells, Match, Rooted, Sound, Settled, RealWay, Gap, Passes, Leads;
    ghost var p, u := Loc(pl, x), fs.tree;
    if pl.mode.Plain? {
      NotBoth(pl, u);
    }
    if Reached(pl, u) {
      PlaceNamed(paths, pl, t, u, x);
      if p in u {
        TargetSettled(paths, pl, t, u, x);
      }
    } else if pl.mode.Plain? {
      AdriftNothing(paths, pl, u, x);
    }
    ok := RemovePathRecursive(fs, Text(paths, x));
    if Reached(pl, u) {
      TargetRemoved(pl, t, u, fs.tree, x);
      assert ok ==> p <= p;
    }
  }

  lemma TargetRemoved(pl: Places, t: Tree, u: Tree, v: Tree, x: PlaceId)
    requires Layout(pl) && Sound(pl, t, u) && WellFormed(v) && IsTarget(x)
    requires RemovedBelow(u, v, Loc(pl, x)) && Reached(pl, u)
    ensures Sound(pl, t, v) && SamePlaces(pl, u, v, x, x)
    ensures Reached(pl, v) || Adrift(pl, v)
    ensures !Passes(pl, x) ==> Reached(pl, v)
    ensures Passes(pl, x) && Loc(pl, x) !in v ==> Adrift(pl, v)
  {
    hide RealWay, Gap, OnWay, SamePlaces, Sound;
    SoundRemoved(pl, t, u, v, Loc(pl, x));
    RemovedOnlyAt(u, v, Loc(pl, x));
    OthersAside(pl, u, v, x, x);
    ReachedWithout(pl, u, v, Loc(pl, x));
  }

  lemma NamedHere(fs: FileSystem, paths: RestorePaths, pl: Places, t: Tree, x: PlaceId)
    requires Running(fs, paths, pl, t) && Reached(pl, fs.tree) && StraightTo(pl, x)
    ensures Found(fs.tree, Text(paths, x)) <==> Loc(pl, x) in fs.tree
    ensures Found(fs.tree, Text(paths, x)) ==> SourceLoc(fs.tree, Text(paths, x)) == Loc(pl, x)
  {
    PlaceNamed(paths, pl, t, fs.tree, x);
  }

  lemma StatFound(t: Tree, path: string)
    ensures StatOf(t, path, false).Stat? <==> Found(t, path)
    ensures Found(t, path) ==> SourceLoc(t, path) in t && StatOf(t, path, false) == Stat(t[SourceLoc(t, path)])
  {
  }

  method PathExists(fs: FileSystem, paths: RestorePaths, x: PlaceId, ghost pl: Places, ghost t: Tree)
    returns (present: bool)
    requires Running(fs, paths, pl, t)
    ensures present == Found(fs.tree, Text(paths, x))
    ensures Reached(pl, fs.tree) && StraightTo(pl, x) ==> present == (Loc(pl, x) in fs.tree)
    ensures Adrift(pl, fs.tree) ==> !present
  {
    hide *;
    if Reached(pl, fs.tree) && StraightTo(pl, x) {
      NamedHere(fs, paths, pl, t, x);
    }
    if Adrift(pl, fs.tree) {
      NothingHere(fs, paths, pl, t, x);
    }
    StatFound(fs.tree, Text(paths, x));
    var status := fs.Lstat(Text(paths, x));
    present := status.Stat?;
  }

  lemma NothingHere(fs: FileSystem, paths: RestorePaths, pl: Places, t: Tree, x: PlaceId)
    requires Running(fs, paths, pl, t) && Adrift(pl, fs.tree)
    ensures !Found(fs.tree, Text(paths, x))
  {
    AdriftNothing(paths, pl, fs.tree, x);
  }

  method PathIsDirectory(fs: FileSystem, paths: RestorePaths, x: PlaceId, ghost pl: Places, ghost t: Tree)
    returns (isDirectory: bool)
    requires Running(fs, paths, pl, t)
    ensures isDirectory == (Found(fs.tree, Text(paths, x)) && IsDir(fs.tree, SourceLoc(fs.tree, Text(paths, x))))
    ensures Reached(pl, fs.tree) && StraightTo(pl, x) ==> isDirectory == IsDir(fs.tree, Loc(pl, x))
  {
    hide Running, Found, SourceLoc, StatOf, Reached;
    if Reached(pl, fs.tree) && StraightTo(pl, x) {
      NamedHere(fs, paths, pl, t, x);
    }
    StatFound(fs.tree, Text(paths, x));
    var status := fs.Lstat(Text(paths, x));
    isDirectory := status == Stat(DirE);
  }

  // ---- Undoing ----

  /** The original tree of a target is safe in its backup place, or there was none. */
  ghost predicate Away(t: Tree, u: Tree, target: Path, backup: Path, had: bool) {
    if had then backup in u && Same(t, target, u, backup) else target !in t
  }

  /** What a rollback can undo: the original is away, or it never left, or (stuck) there is no such place. */
  ghost predicate Undoable(t: Tree, u: Tree, target: Path, backup: Path, had: bool, installed: bool, stuck: bool) {
    || (Away(t, u, target, backup, had) && (installed || target !in u))
    || (had && !installed && target in u && Same(t, target, u, target))
    || (stuck && !installed && target !in t && target !in u)
  }

  function BackupOf(x: PlaceId): PlaceId {
    if x.Data? then OldData else OldExtensions
  }

  ghost predicate UndoableAt(pl: Places, t: Tree, u: Tree, x: PlaceId, had: bool, installed: bool) {
    Undoable(t, u, Loc(pl, x), Loc(pl, BackupOf(x)), had, installed, x.Extensions? && pl.ext.Stuck?)
  }

  lemma NothingThere(u: Tree, t: Tree, p: Path)
    requires WellFormed(t) && WellFormed(u) && p !in t && p !in u
    ensures Same(t, p, u, p)
  {
    EmptySubtree(t, p);
    EmptySubtree(u, p);
  }

  /** Nothing but a failing call stops the rollback of a target: what was installed is there, and
      otherwise a backup can go to its place. */
  ghost predicate Reversible(pl: Places, t: Tree, u: Tree, x: PlaceId, had: bool, installed: bool) {
    if installed then Loc(pl, x) in u
    else had && Loc(pl, BackupOf(x)) in u ==> Loc(pl, x) !in u && !Closed(pl, t, x)
  }

  /** Last step of the rollback of one target: put the backup in its place. */
  method PutBack(fs: FileSystem, paths: RestorePaths, x: PlaceId, had: bool, ghost pl: Places, ghost t: Tree)
    returns (ok: bool)
    requires Running(fs, paths, pl, t) && (x.Data? || x.Extensions?)
    modifies fs
    ensures Running(fs, paths, pl, t)
    ensures !Found(old(fs.tree), Text(paths, BackupOf(x))) ==> ok && fs.tree == old(fs.tree)
    ensures Adrift(pl, old(fs.tree)) ==> ok && fs.tree == old(fs.tree)
    ensures Reached(pl, old(fs.tree)) ==>
              var u, b := old(fs.tree), Loc(pl, x);
              && SamePlaces(pl, u, fs.tree, BackupOf(x), x) && Reached(pl, fs.tree)
              && (ok && UndoableAt(pl, t, u, x, had, false) ==> Same(t, b, fs.tree, b))
              && (Closed(pl, t, x) ==> fs.tree == u && (had && Loc(pl, BackupOf(x)) in u ==> !ok))
              && (fs.reliable && fs.sameDevice && Reversible(pl, t, u, x, had, false) ==> ok)
  {
    hide Sound, Match, Rooted, Leads, Layout, Closed, Subtree, Found, SourceLoc, Crossed, SameAt, RealWay, Gap, Passes;
    ghost var b, u := Loc(pl, x), fs.tree;
    var backedUp := PathExists(fs, paths, BackupOf(x), pl, t);
    NothingMoved(pl, u, BackupOf(x), x);
    if Reached(pl, u) {
      NamesHere(fs, paths, pl, t, BackupOf(x));
      StuckIsClosed(pl, t);
      StageNotPassed(pl, t, BackupOf(x));
    }
    if !had || !backedUp {
      if Reached(pl, u) && b !in u && b !in t {
        NothingThere(u, t, b);
      }
      return true;
    }
    ok := MovePlace(fs, paths, BackupOf(x), x, pl, t);
  }

  lemma NamesHere(fs: FileSystem, paths: RestorePaths, pl: Places, t: Tree, x: PlaceId)
    requires Running(fs, paths, pl, t) && Reached(pl, fs.tree) && StraightTo(pl, x)
    ensures NamesPlace(fs.tree, Text(paths, x), Loc(pl, x))
  {
    PlaceNamed(paths, pl, t, fs.tree, x);
  }

  lemma StuckIsClosed(pl: Places, t: Tree)
    ensures !pl.ext.Open? <==> Closed(pl, t, Extensions)
    ensures !Closed(pl, t, Data) && !Closed(pl, t, OldData) && !Closed(pl, t, OldExtensions)
  {
  }

  /** First step of the rollback of one target: remove what was installed. */
  method RemoveIf(fs: FileSystem, paths: RestorePaths, installed: bool, x: PlaceId, ghost had: bool,
                  ghost pl: Places, ghost t: Tree)
    returns (ok: bool)
    requires Running(fs, paths, pl, t) && (x.Data? || x.Extensions?) && (installed ==> CanRemove(pl, x))
    modifies fs
    ensures Running(fs, paths, pl, t)
    ensures !installed || Adrift(pl, old(fs.tree)) ==> ok && fs.tree == old(fs.tree)
    ensures Reached(pl, old(fs.tree)) ==>
              var u := old(fs.tree);
              && SamePlaces(pl, u, fs.tree, x, x) && Reached(pl, fs.tree)
              && (ok && UndoableAt(pl, t, u, x, had, installed) ==> UndoableAt(pl, t, fs.tree, x, had, false))
              && (fs.reliable && Reversible(pl, t, u, x, had, installed) ==>
                    ok && Reversible(pl, t, fs.tree, x, had, false))
  {
    hide Sound, Match, Rooted, Leads, Layout, Subtree, RealWay, Gap;
    ok := true;
    NothingMoved(pl, fs.tree, x, x);
    StuckIsClosed(pl, t);
    if installed {
      ok := RemoveTarget(fs, paths, x, pl, t);
    }
  }

  /** What was installed in this place can be removed without losing the root. */
  ghost predicate CanRemove(pl: Places, x: PlaceId) {
    !pl.mode.Barred? && (pl.mode.Plain? ==> StraightTo(pl, x) && !Passes(pl, x))
  }

  ghost predicate BothUndoable(pl: Places, t: Tree, u: Tree, hadData: bool, hadExtensions: bool,
                               installedData: bool, installedExtensions: bool) {
    && UndoableAt(pl, t, u, Data, hadData, installedData)
    && UndoableAt(pl, t, u, Extensions, hadExtensions, installedExtensions)
  }

  ghost predicate BothReversible(pl: Places, t: Tree, u: Tree, hadData: bool, hadExtensions: bool,
                                 installedData: bool, installedExtensions: bool) {
    && Reversible(pl, t, u, Data, hadData, installedData)
    && Reversible(pl, t, u, Extensions, hadExtensions, installedExtensions)
  }

  /** Data and extensions are what they were when the transaction began. */
  ghost predicate TargetsKept(pl: Places, t: Tree, u: Tree) {
    Same(t, pl.data, u, pl.data) && Same(t, pl.extensions, u, pl.extensions)
  }

  /** The extensions are away, and their place cannot be reached without a link. */
  ghost predicate CutOff(pl: Places, u: Tree) {
    pl.ext.Linked? && pl.extensions !in u && pl.oldExtensions in u
  }

  /** No backup is there, whatever way the root is reached. */
  ghost predicate NoBackups(u: Tree, paths: RestorePaths) {
    !Found(u, Text(paths, OldData)) && !Found(u, Text(paths, OldExtensions))
  }

  lemma SamePresence(u: Tree, v: Tree, p: Path)
    requires SameAt(u, v, p)
    ensures p in u <==> p in v
    ensures Same(u, p, v, p) && Same(v, p, u, p)
  {
    hide Subtree;
  }

  lemma UndoableSame(t: Tree, u: Tree, v: Tree, target: Path, backup: Path, had: bool, installed: bool, stuck: bool)
    requires (target in u <==> target in v) && (backup in u <==> backup in v)
    requires Same(u, target, v, target) && Same(u, backup, v, backup)
    ensures Undoable(t, u, target, backup, had, installed, stuck) <==>
            Undoable(t, v, target, backup, had, installed, stuck)
  {
    hide Subtree;
  }

  lemma PlaceSame(pl: Places, u: Tree, v: Tree, p: PlaceId, q: PlaceId, z: PlaceId)
    requires SamePlaces(pl, u, v, p, q) && z != p && z != q
    ensures SameAt(u, v, Loc(pl, z))
    ensures Loc(pl, z) in u <==> Loc(pl, z) in v
    ensures Same(u, Loc(pl, z), v, Loc(pl, z)) && Same(v, Loc(pl, z), u, Loc(pl, z))
  {
    hide Subtree, Loc;
    SamePresence(u, v, Loc(pl, z));
  }

  /** What happens to one target does not matter for undoing the other. */
  lemma OtherUndoable(pl: Places, t: Tree, u: Tree, v: Tree, x: PlaceId, had: bool, installed: bool,
                      p: PlaceId, q: PlaceId)
    requires SamePlaces(pl, u, v, p, q) && p != x && q != x && p != BackupOf(x) && q != BackupOf(x)
    ensures UndoableAt(pl, t, u, x, had, installed) <==> UndoableAt(pl, t, v, x, had, installed)
    ensures Reversible(pl, t, u, x, had, installed) <==> Reversible(pl, t, v, x, had, installed)
  {
    hide *;
    PlaceSame(pl, u, v, p, q, x);
    PlaceSame(pl, u, v, p, q, BackupOf(x));
    StillUndoable(pl, t, u, v, x, had, installed);
    StillReversible(pl, t, u, v, x, had, installed);
  }

  lemma StillUndoable(pl: Places, t: Tree, u: Tree, v: Tree, x: PlaceId, had: bool, installed: bool)
    requires Loc(pl, x) in u <==> Loc(pl, x) in v
    requires Loc(pl, BackupOf(x)) in u <==> Loc(pl, BackupOf(x)) in v
    requires Same(u, Loc(pl, x), v, Loc(pl, x)) && Same(u, Loc(pl, BackupOf(x)), v, Loc(pl, BackupOf(x)))
    ensures UndoableAt(pl, t, u, x, had, installed) <==> UndoableAt(pl, t, v, x, had, installed)
  {
    hide Subtree, Loc, BackupOf, Undoable;
    UndoableSame(t, u, v, Loc(pl, x), Loc(pl, BackupOf(x)), had, installed, x.Extensions? && pl.ext.Stuck?);
  }

  lemma StillReversible(pl: Places, t: Tree, u: Tree, v: Tree, x: PlaceId, had: bool, installed: bool)
    requires Loc(pl, x) in u <==> Loc(pl, x) in v
    requires Loc(pl, BackupOf(x)) in u <==> Loc(pl, BackupOf(x)) in v
    ensures Reversible(pl, t, u, x, had, installed) <==> Reversible(pl, t, v, x, had, installed)
  {
    hide Closed, Loc, BackupOf;
  }

  lemma CutOffKept(pl: Places, u: Tree, v: Tree, p: PlaceId, q: PlaceId)
    requires SamePlaces(pl, u, v, p, q)
    requires p != Extensions && q != Extensions && p != OldExtensions && q != OldExtensions
    ensures CutOff(pl, u) <==> CutOff(pl, v)
  {
    hide SamePlaces;
    PlacePresent(pl, u, v, p, q, Extensions);
    PlacePresent(pl, u, v, p, q, OldExtensions);
  }

  lemma PlacePresent(pl: Places, u: Tree, v: Tree, p: PlaceId, q: PlaceId, z: PlaceId)
    requires SamePlaces(pl, u, v, p, q) && z != p && z != q
    ensures Loc(pl, z) in u <==> Loc(pl, z) in v
  {
    hide *;
    PlaceSame(pl, u, v, p, q, z);
  }

  /** Every step is tried even when an earlier one failed; ok means that none did. */
  method RollbackRestoreTargets(fs: FileSystem, paths: RestorePaths, hadData: bool, hadExtensions: bool,
                                installedData: bool, installedExtensions: bool, ghost pl: Places, ghost t: Tree)
    returns (ok: bool)
    requires Running(fs, paths, pl, t)
    requires (installedData ==> CanRemove(pl, Data)) && (installedExtensions ==> CanRemove(pl, Extensions))
    modifies fs
    ensures Running(fs, paths, pl, t)
    ensures pl.mode.Barred? && NoBackups(t, paths) ==> ok
    ensures Adrift(pl, old(fs.tree)) ==> ok && fs.tree == old(fs.tree)
    ensures Reached(pl, old(fs.tree)) ==>
              var u := old(fs.tree);
              && SameAt(u, fs.tree, Loc(pl, Manifest)) && Reached(pl, fs.tree)
              && (ok && BothUndoable(pl, t, u, hadData, hadExtensions, installedData, installedExtensions) ==>
                    TargetsKept(pl, t, fs.tree))
              && (CutOff(pl, u) && hadExtensions ==> !ok && CutOff(pl, fs.tree))
              && ((fs.reliable && fs.sameDevice &&
                   BothReversible(pl, t, u, hadData, hadExtensions, installedData, installedExtensions)) ==> ok)
  {
    hide Sound, Match, Rooted, Leads, Layout, Found, SourceLoc, Closed, UndoableAt, Reversible, RealWay, Gap;
    hide SamePlaces, Passes, Crossed, WellFormed, Same, SameAt, CutOff, TargetsKept;
    StuckIsClosed(pl, t);
    ghost var u0 := fs.tree;
    if pl.mode.Plain? {
      NotBoth(pl, u0);
    }
    ok := RemoveIf(fs, paths, installedData, Data, hadData, pl, t);
    ghost var u1 := fs.tree;
    var next := RemoveIf(fs, paths, installedExtensions, Extensions, hadExtensions, pl, t);
    ghost var u2 := fs.tree;
    if Reached(pl, u0) {
      CutOffKept(pl, u0, u1, Data, Data);
      OtherUndoable(pl, t, u0, u1, Extensions, hadExtensions, installedExtensions, Data, Data);
      OtherUndoable(pl, t, u1, u2, Data, hadData, false, Extensions, Extensions);
    }
    ok := ok && next;
    next := PutBack(fs, paths, Data, hadData, pl, t);
    ghost var u3 := fs.tree;
    if Reached(pl, u0) {
      CutOffKept(pl, u2, u3, OldData, Data);
      OtherUndoable(pl, t, u2, u3, Extensions, hadExtensions, false, OldData, Data);
    }
    ok := ok && next;
    next := PutBack(fs, paths, Extensions, hadExtensions, pl, t);
    ok := ok && next;
    if Reached(pl, u0) {
      RolledBackTargets(pl, t, u0, u1, u2, u3, fs.tree);
      StillCutOff(pl, t, u1, u2, u3, fs.tree, installedExtensions, hadExtensions, next);
    }
  }

  /** What a rollback leaves alone. */
  lemma RolledBackTargets(pl: Places, t: Tree, u0: Tree, u1: Tree, u2: Tree, u3: Tree, u4: Tree)
    requires SamePlaces(pl, u0, u1, Data, Data) && SamePlaces(pl, u1, u2, Extensions, Extensions)
    requires SamePlaces(pl, u2, u3, OldData, Data) && SamePlaces(pl, u3, u4, OldExtensions, Extensions)
    ensures SameAt(u0, u4, Loc(pl, Manifest))
    ensures Same(t, Loc(pl, Data), u3, Loc(pl, Data)) && Same(t, Loc(pl, Extensions), u4, Loc(pl, Extensions)) ==>
              TargetsKept(pl, t, u4)
  {
    hide SamePlaces, SameAt, Same;
    PlaceSame(pl, u0, u1, Data, Data, Manifest);
    PlaceSame(pl, u1, u2, Extensions, Extensions, Manifest);
    PlaceSame(pl, u2, u3, OldData, Data, Manifest);
    PlaceSame(pl, u3, u4, OldExtensions, Extensions, Manifest);
    SameTwice(u0, u1, u2, Loc(pl, Manifest));
    SameTwice(u0, u2, u3, Loc(pl, Manifest));
    SameTwice(u0, u3, u4, Loc(pl, Manifest));
    PlaceSame(pl, u3, u4, OldExtensions, Extensions, Data);
    SameThen(t, u3, u4, pl.data, pl.data, pl.data);
  }

  /** Extensions that are cut off cannot be put back. */
  lemma StillCutOff(pl: Places, t: Tree, u1: Tree, u2: Tree, u3: Tree, u4: Tree, installed: bool, had: bool, ok: bool)
    requires installed ==> pl.ext.Open?
    requires (!installed ==> u2 == u1) && (CutOff(pl, u2) <==> CutOff(pl, u3))
    requires !pl.ext.Open? ==> u4 == u3 && (had && Loc(pl, OldExtensions) in u3 ==> !ok)
    ensures CutOff(pl, u1) && had ==> !ok && CutOff(pl, u4)
  {
  }

  lemma MovedSame(u: Tree, v: Tree, a: Path, b: Path)
    requires MovedTo(u, v, a, b)
    ensures Same(u, a, v, b)
  {
  }

  lemma SameThen(t: Tree, u: Tree, v: Tree, a: Path, b: Path, c: Path)
    ensures Same(t, a, u, b) && Same(u, b, v, c) ==> Same(t, a, v, c)
  {
    hide Subtree;
  }

  lemma SameTwice(t: Tree, u: Tree, v: Tree, p: Path)
    requires SameAt(t, u, p) && SameAt(u, v, p)
    ensures SameAt(t, v, p)
  {
  }

  lemma LessThen(u: Tree, v: Tree, w: Tree, p: Path)
    requires (Less(u, v, p) && SameAt(v, w, p)) || (SameAt(u, v, p) && Less(v, w, p))
    ensures Less(u, w, p)
  {
    forall k | p <= k ensures At(w, k) == At(u, k) || k !in w {
      var q := k[|p|..];
      assert p + q == k;
      assert q in Subtree(u, p) <==> k in u;
      assert q in Subtree(v, p) <==> k in v;
      assert q in Subtree(w, p) <==> k in w;
      assert At(v, k) == At(u, k) || k !in v;
    }
  }
}
