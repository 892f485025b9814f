/** The bookkeeping of the restore transaction, on trees. */
module RestoreState {
  import opened Paths
  import opened FileTree
  import opened PathWalk
  import opened Ways
  import opened FileSystem
  import opened PathSafety
  import opened FsOps
  import opened RestorePlaces

  datatype PlaceId =
    | Data | Extensions | Manifest                        // the targets
    | StagedData | StagedExtensions | StagedManifest      // what was extracted
    | OldData | OldExtensions                             // where the targets are set aside

  /** How the path of the extensions leads to them. */
  datatype ExtensionsWay =
    | Open      // nothing but directories is in the way
    | Linked    // through a link, to extensions that can be moved away
    | Stuck     // a link or a file is in the way, and there is nothing to move

  /** How the path of the manifest leads on once the archive is installed. */
  datatype ManifestWay =
    | Straight  // the state directory is no link
    | Led       // through a link, to a place apart from all others or to nothing
    | Inside    // through a link, into the data or the extensions
    | Above     // through a link, to something that the root is in

  /** How the root is reached. */
  datatype Mode =
    | Plain     // without a link
    | Barred    // through a link
    | Unsteady  // anything else

  /** The root r with the names that lead to it, and the places below it. The path of the extensions leads to
      extensions, and that of the manifest to led, which is a place of its own (manifest) unless it is inside
      or above others; settled means that it does not lead through what it names. */
  datatype Places = Places(way: seq<string>, r: Path, mode: Mode, ext: ExtensionsWay, man: ManifestWay, led: Path,
                           settled: bool, data: Path, extensions: Path, manifest: Path, stagedData: Path,
                           stagedExtensions: Path, stagedManifest: Path, oldData: Path, oldExtensions: Path,
                           stage: Path, fixed: Path, fixedManifest: Path)

  /** Where something is taken from. */
  function Loc(pl: Places, x: PlaceId): Path {
    match x
    case Data => pl.data
    case Extensions => pl.extensions
    case Manifest => pl.manifest
    case StagedData => pl.stagedData
    case StagedExtensions => pl.stagedExtensions
    case StagedManifest => pl.stagedManifest
    case OldData => pl.oldData
    case OldExtensions => pl.oldExtensions
  }

  /** Where something is put. */
  function Target(pl: Places, x: PlaceId): Path {
    if x.Extensions? then pl.fixed else if x.Manifest? then pl.fixedManifest else Loc(pl, x)
  }

  function PlacesOf(way: seq<string>, r: Path, s: Path, mode: Mode, ext: ExtensionsWay, e: Path, man: ManifestWay,
                    led: Path, settled: bool): Places {
    var m := if man.Straight? || man.Led? then led else r + GIT_MANIFEST;
    Places(way, r, mode, ext, man, led, settled, r + DATA, e, m, s + DATA, s + STAGED_EXTENSIONS, s + GIT_MANIFEST,
           s + OLD_DATA, s + OLD_EXTENSIONS, s, r + EXTENSIONS, r + GIT_MANIFEST)
  }

  predicate IsTarget(x: PlaceId) {
    x.Data? || x.Extensions? || x.Manifest?
  }

  /** Places that something is moved to; a move may add directories above the targets only. */
  predicate Receives(x: PlaceId) {
    IsTarget(x) || x.OldData? || x.OldExtensions?
  }

  /** Where the places lie, seen from the root and the stage. */
  ghost predicate Located(pl: Places) {
    && pl.stage != [] && pl.data != [] && pl.oldData != [] && pl.oldExtensions != [] && pl.stagedData != []
    && pl.stagedExtensions != [] && pl.manifest != [] && pl.fixed != [] && pl.fixedManifest != []
    && Parent(pl.data) == pl.r && Parent(pl.stage) == pl.r && pl.r < Parent(pl.fixedManifest) && pl.r < Parent(pl.fixed)
    && Parent(pl.fixedManifest) != [] && Parent(Parent(pl.fixedManifest)) == pl.r
    && Parent(pl.oldData) == pl.stage && Parent(pl.oldExtensions) == pl.stage
    && Parent(pl.stagedData) == pl.stage && Parent(pl.stagedExtensions) == pl.stage
    && Apart(pl.fixed, pl.data) && Apart(pl.fixed, pl.fixedManifest) && Apart(pl.fixed, pl.stage)
    && Apart(pl.fixedManifest, pl.data) && Apart(pl.fixedManifest, pl.stage)
    && (if pl.ext.Linked? then !(pl.extensions <= Parent(pl.fixed)) && pl.manifest == pl.fixedManifest
        else pl.extensions == pl.fixed)
    && (if pl.man.Led? then !(pl.manifest <= Parent(pl.fixed)) && !(pl.manifest <= Parent(pl.fixedManifest))
        else pl.manifest == pl.fixedManifest)
  }

  ghost predicate Layout(pl: Places) {
    && (forall x, y {:trigger Loc(pl, x), Loc(pl, y)} | x != y :: Apart(Loc(pl, x), Loc(pl, y)))
    && (forall x {:trigger Loc(pl, x)} ::
          Loc(pl, x) != [] && if IsTarget(x) then Apart(Loc(pl, x), pl.stage) else pl.stage < Loc(pl, x))
    && Located(pl)
  }

  lemma FixedDepths()
    ensures |DATA| == 1 && |STAGED_EXTENSIONS| == 1 && |OLD_DATA| == 1 && |OLD_EXTENSIONS| == 1
    ensures |EXTENSIONS| == 4 && |GIT_MANIFEST| == 2
  {
  }

  predicate Formed(pl: Places, s: Path) {
    pl == PlacesOf(pl.way, pl.r, s, pl.mode, pl.ext, pl.extensions, pl.man, pl.led, pl.settled)
  }

  lemma PlacesApartEach(pl: Places, s: Path, x: PlaceId, y: PlaceId)
    requires IsStage(pl.r, s) && Formed(pl, s) && x != y
    requires Apart(pl.extensions, pl.data) && Apart(pl.extensions, pl.manifest) && Apart(pl.extensions, s)
    requires Apart(pl.manifest, pl.data) && Apart(pl.manifest, s)
    ensures Apart(Loc(pl, x), Loc(pl, y))
  {
    hide DATA, EXTENSIONS, GIT_MANIFEST, STAGED_EXTENSIONS, OLD_DATA, OLD_EXTENSIONS, IsStage;
    if IsTarget(x) && !IsTarget(y) {
      TargetAndStaged(pl, s, x, y);
    } else if IsTarget(y) && !IsTarget(x) {
      TargetAndStaged(pl, s, y, x);
    } else if !IsTarget(x) {
      StagedPlacesApart(s);
    }
  }

  lemma TargetAndStaged(pl: Places, s: Path, x: PlaceId, y: PlaceId)
    requires IsStage(pl.r, s) && Formed(pl, s) && IsTarget(x) && !IsTarget(y)
    requires Apart(pl.extensions, s) && Apart(pl.manifest, s)
    ensures Apart(Loc(pl, x), Loc(pl, y)) && Apart(Loc(pl, y), Loc(pl, x))
  {
    hide DATA, EXTENSIONS, GIT_MANIFEST, STAGED_EXTENSIONS, OLD_DATA, OLD_EXTENSIONS, IsStage;
    PlacesApart(pl.r, s);
    ApartBelow(Loc(pl, x), s, Loc(pl, y));
  }

  /** Places below the root, apart from where linked extensions and a linked manifest are. */
  lemma PlacesLayout(pl: Places, s: Path)
    requires IsStage(pl.r, s) && Formed(pl, s)
    requires if pl.ext.Linked?
             then Apart(pl.extensions, pl.data) && Apart(pl.extensions, pl.manifest) && Apart(pl.extensions, s) &&
                  !(pl.extensions <= Parent(pl.fixed)) && pl.manifest == pl.fixedManifest
             else pl.extensions == pl.fixed
    requires if pl.man.Led?
             then Apart(pl.manifest, pl.data) && Apart(pl.manifest, pl.extensions) && Apart(pl.manifest, s) &&
                  !(pl.manifest <= Parent(pl.fixed)) && !(pl.manifest <= Parent(pl.fixedManifest))
             else pl.manifest == pl.fixedManifest
    ensures Layout(pl)
  {
    hide DATA, EXTENSIONS, GIT_MANIFEST, STAGED_EXTENSIONS, OLD_DATA, OLD_EXTENSIONS, IsStage, Located;
    PlacesApart(pl.r, s);
    FixedDepths();
    PlacesLocated(pl, s);
    forall x, y | x != y ensures Apart(Loc(pl, x), Loc(pl, y)) {
      PlacesApartEach(pl, s, x, y);
    }
  }

  lemma PlacesLocated(pl: Places, s: Path)
    requires IsStage(pl.r, s) && Formed(pl, s)
    requires if pl.ext.Linked? then !(pl.extensions <= Parent(pl.fixed)) && pl.manifest == pl.fixedManifest
             else pl.extensions == pl.fixed
    requires if pl.man.Led? then !(pl.manifest <= Parent(pl.fixed)) && !(pl.manifest <= Parent(pl.fixedManifest))
             else pl.manifest == pl.fixedManifest
    requires pl.manifest != []
    ensures Located(pl)
  {
    hide DATA, EXTENSIONS, GIT_MANIFEST, STAGED_EXTENSIONS, OLD_DATA, OLD_EXTENSIONS;
    PlacesApart(pl.r, s);
    FixedDepths();
  }

  /** At or below one of the places the transaction works on. */
  predicate InPlay(pl: Places, k: Path) {
    pl.data <= k || pl.extensions <= k || pl.manifest <= k || pl.stage <= k
  }

  /** A directory that may be made for a target. */
  predicate AboveTarget(pl: Places, k: Path) {
    k < pl.fixed || k < pl.fixedManifest
  }

  /** Everything else is as it was, apart from new directories above the targets. */
  ghost predicate Outside(pl: Places, t: Tree, u: Tree) {
    forall k {:trigger At(u, k)} {:trigger At(t, k)} | !InPlay(pl, k) ::
      At(u, k) == At(t, k) || (k !in t && At(u, k) == Some(DirE) && AboveTarget(pl, k))
  }

  /** In the tree t a plain root: no link leads to it. */
  ghost predicate Rooted(pl: Places, t: Tree) {
    && RealWay(t, pl.way) && End(pl.way) == pl.r && !OnWay(pl.way, pl.stage)
    && pl.fixed != [] && (pl.ext.Open? <==> OpenWay(t, Parent(pl.fixed)))
    && pl.fixedManifest != [] && (pl.man.Straight? <==> !IsLink(t, Parent(pl.fixedManifest)))
  }

  /** The place, or something in it, is on the way to the root. */
  ghost predicate Passes(pl: Places, x: PlaceId) {
    OnWay(pl.way, Loc(pl, x))
  }

  /** In the tree u a plain root is reached. */
  ghost predicate Reached(pl: Places, u: Tree) {
    pl.mode.Plain? && RealWay(u, pl.way)
  }

  /** In the tree u there is nothing any more on the way to a plain root. */
  ghost predicate Adrift(pl: Places, u: Tree) {
    pl.mode.Plain? && Gap(u, pl.way)
  }

  /** The state u of a transaction that began in t. */
  ghost predicate Sound(pl: Places, t: Tree, u: Tree) {
    WellFormed(u) && IsDir(u, pl.stage) && Direct(u, pl.stagedManifest) && Outside(pl, t, u)
  }

  lemma SoundRemoved(pl: Places, t: Tree, u: Tree, v: Tree, p: Path)
    requires Sound(pl, t, u) && WellFormed(v) && RemovedBelow(u, v, p) && Apart(p, pl.stage)
    requires forall k | p <= k :: InPlay(pl, k)
    ensures Sound(pl, t, v)
  {
    assert At(v, pl.stage) == At(u, pl.stage);
    forall i | 0 <= i < |pl.stagedManifest| ensures !IsLink(v, pl.stagedManifest[..i]) {
      assert At(v, pl.stagedManifest[..i]) == At(u, pl.stagedManifest[..i]) || pl.stagedManifest[..i] !in v;
    }
    forall k | !InPlay(pl, k)
      ensures At(v, k) == At(t, k) || (k !in t && At(v, k) == Some(DirE) && AboveTarget(pl, k))
    {
      assert At(v, k) == At(u, k);
    }
  }

  lemma DirectAfter(u: Tree, v: Tree, a: Path, b: Path, p: Path)
    requires OnlyAt(u, v, a, b) && Direct(u, p)
    requires (p == a || Apart(p, a)) && (p == b || Apart(p, b))
    ensures Direct(v, p)
  {
    forall i | 0 <= i < |p| ensures !IsLink(v, p[..i]) {
      var k := p[..i];
      assert k < p && !IsLink(u, k);
      assert !(a <= k) && !(b <= k);
      assert At(v, k) == At(u, k) || At(v, k) == Some(DirE);
    }
  }

  /** What is moved away or removed on the way to a root can make it unreachable. */
  lemma ReachedAfter(pl: Places, u: Tree, v: Tree, x: PlaceId, y: PlaceId)
    requires WellFormed(u) && WellFormed(v) && RealWay(u, pl.way)
    requires OnlyAt(u, v, Loc(pl, x), Loc(pl, y)) && Less(u, v, Loc(pl, x)) && Loc(pl, y) !in u
    ensures RealWay(v, pl.way) || Gap(v, pl.way)
    ensures !Passes(pl, x) || SameAt(u, v, Loc(pl, x)) ==> RealWay(v, pl.way)
    ensures Passes(pl, x) && Loc(pl, x) !in v ==> !RealWay(v, pl.way)
  {
    hide RealWay, OnWay, Gap, Subtree, End;
    var a, b := Loc(pl, x), Loc(pl, y);
    EmptySubtree(u, b);
    forall k | IsDir(u, k) ensures k in v ==> IsDir(v, k)
                           ensures !(a <= k) ==> IsDir(v, k) {
      assert At(v, k) == At(u, k) || k !in v;
      assert !(a <= k) ==> At(v, k) == At(u, k);
    }
    WayLost(u, v, pl.way);
    if !Passes(pl, x) {
      WayKept(u, v, pl.way, a);
    } else if SameAt(u, v, a) {
      SameWay(pl, u, v, a);
    }
    if Passes(pl, x) && a !in v {
      WayGone(v, pl.way, a);
    }
  }

  /** The same for what is only removed. */
  lemma ReachedWithout(pl: Places, u: Tree, v: Tree, p: Path)
    requires WellFormed(v) && RealWay(u, pl.way) && RemovedBelow(u, v, p)
    ensures RealWay(v, pl.way) || Gap(v, pl.way)
    ensures !OnWay(pl.way, p) ==> RealWay(v, pl.way)
    ensures OnWay(pl.way, p) && p !in v ==> !RealWay(v, pl.way)
  {
    hide RealWay, OnWay, Gap, End;
    forall k | IsDir(u, k) ensures k in v ==> IsDir(v, k)
                           ensures !(p <= k) ==> IsDir(v, k) {
      assert At(v, k) == At(u, k) || (p <= k && k !in v);
    }
    WayLost(u, v, pl.way);
    if !OnWay(pl.way, p) {
      WayKept(u, v, pl.way, p);
    } else if p !in v {
      WayGone(v, pl.way, p);
    }
  }

  /** What is on the way to a root that is reached is there. */
  lemma PassedIsThere(u: Tree, way: seq<string>, p: Path)
    requires WellFormed(u) && RealWay(u, way) && OnWay(way, p)
    ensures p in u
  {
    if p !in u {
      WayGone(u, way, p);
    }
  }

  /** The stage is not on the way. */
  lemma StageNotPassed(pl: Places, t: Tree, x: PlaceId)
    requires Layout(pl) && Rooted(pl, t) && !IsTarget(x)
    ensures !Passes(pl, x)
  {
    assert pl.stage < Loc(pl, x);
  }

  lemma SameWay(pl: Places, u: Tree, v: Tree, a: Path)
    requires RealWay(u, pl.way) && SameAt(u, v, a) && forall k | IsDir(u, k) && !(a <= k) :: IsDir(v, k)
    ensures RealWay(v, pl.way)
  {
    forall i | 0 <= i <= |pl.way| ensures IsDir(v, End(pl.way[..i])) {
      var k := End(pl.way[..i]);
      assert IsDir(u, k);
      if a <= k {
        SameNodes(u, v, a, k);
      }
    }
  }

  lemma SameNodes(u: Tree, v: Tree, p: Path, k: Path)
    requires Subtree(v, p) == Subtree(u, p) && p <= k
    ensures At(v, k) == At(u, k)
  {
    var q := k[|p|..];
    assert p + q == k;
    assert q in Subtree(u, p) <==> k in u;
    assert q in Subtree(v, p) <==> k in v;
  }

  lemma SoundAfter(pl: Places, t: Tree, u: Tree, v: Tree, x: PlaceId, y: PlaceId)
    requires Layout(pl) && Sound(pl, t, u) && WellFormed(v)
    requires OnlyAt(u, v, Loc(pl, x), Loc(pl, y)) && Receives(y)
    requires Loc(pl, y) == Target(pl, y)
    ensures Sound(pl, t, v)
  {
    var a, b := Loc(pl, x), Loc(pl, y);
    assert pl.stagedManifest == Loc(pl, StagedManifest);
    DirectAfter(u, v, a, b, pl.stagedManifest);
    assert At(v, pl.stage) == At(u, pl.stage);
    forall k | !InPlay(pl, k)
      ensures At(v, k) == At(t, k) || (k !in t && At(v, k) == Some(DirE) && AboveTarget(pl, k))
    {
      if a <= k { PlaceInPlay(pl, x, k); }
      if b <= k { PlaceInPlay(pl, y, k); }
      assert At(u, k) == At(t, k) || (k !in t && At(u, k) == Some(DirE) && AboveTarget(pl, k));
      if k < b && k !in u {
        AboveReceiver(pl, u, y, k);
      }
    }
  }

  lemma PlaceInPlay(pl: Places, x: PlaceId, k: Path)
    requires Layout(pl) && Loc(pl, x) <= k
    ensures InPlay(pl, k)
  {
    assert !IsTarget(x) ==> pl.stage <= k;
  }

  lemma AboveReceiver(pl: Places, u: Tree, y: PlaceId, k: Path)
    requires Layout(pl) && WellFormed(u) && IsDir(u, pl.stage) && Receives(y) && k < Loc(pl, y) && k !in u
    requires Loc(pl, y) == Target(pl, y)
    ensures AboveTarget(pl, k)
  {
    if !y.Extensions? && !y.Manifest? {
      assert k <= Parent(Loc(pl, y));
      if y.Data? {
        assert k <= Parent(pl.stage) && k < pl.stage;
      } else {
        assert k <= pl.stage && k != pl.stage && k < pl.stage;
      }
      AncestorIsDir(u, k, pl.stage);
    }
  }

  /** The tree at q in u is the one at p in t. */
  ghost predicate Same(t: Tree, p: Path, u: Tree, q: Path) {
    Subtree(u, q) == Subtree(t, p)
  }

  /** The trees at p are the same in u and v. */
  ghost predicate SameAt(u: Tree, v: Tree, p: Path) {
    Same(u, p, v, p) && At(v, p) == At(u, p)
  }

  /** The trees at all places but x and y are the same in u and v. */
  ghost predicate SamePlaces(pl: Places, u: Tree, v: Tree, x: PlaceId, y: PlaceId) {
    forall z {:trigger Loc(pl, z)} | z != x && z != y :: SameAt(u, v, Loc(pl, z))
  }

  /** A change at a and b leaves the tree at another place alone. */
  lemma OtherAside(u: Tree, v: Tree, a: Path, b: Path, p: Path)
    requires OnlyAt(u, v, a, b) && Apart(p, a) && Apart(p, b)
    ensures SameAt(u, v, p)
  {
    forall k | p <= k ensures At(v, k) == At(u, k) {
      if a <= k { PrefixesMeet(p, a, k); }
      if b <= k { PrefixesMeet(p, b, k); }
    }
    SameSubtree(v, u, p);
  }

  lemma OthersAside(pl: Places, u: Tree, v: Tree, x: PlaceId, y: PlaceId)
    requires Layout(pl) && OnlyAt(u, v, Loc(pl, x), Loc(pl, y))
    ensures SamePlaces(pl, u, v, x, y)
  {
    forall z | z != x && z != y ensures SameAt(u, v, Loc(pl, z)) {
      OtherAside(u, v, Loc(pl, x), Loc(pl, y), Loc(pl, z));
    }
  }

  lemma SamePlacesTwice(pl: Places, u: Tree, v: Tree, w: Tree, x: PlaceId, y: PlaceId)
    requires SamePlaces(pl, u, v, y, y) && SamePlaces(pl, v, w, x, y)
    ensures SamePlaces(pl, u, w, x, y)
  {
  }

  lemma MovedOnlyAt(u: Tree, v: Tree, a: Path, b: Path)
    requires MovedTo(u, v, a, b)
    ensures OnlyAt(u, v, a, b) && a !in v && b in v
  {
    assert a <= a && At(v, a) == None;
    assert b + [] == b && a + [] == a;
    assert [] in Subtree(u, a);
    assert [] in Subtree(v, b);
  }

  lemma RemovedOnlyAt(u: Tree, v: Tree, p: Path)
    requires RemovedBelow(u, v, p)
    ensures OnlyAt(u, v, p, p)
  {
  }

  /** A link or a file is in the way of putting something there. */
  ghost predicate Closed(pl: Places, t: Tree, y: PlaceId) {
    || (y.Extensions? && !pl.ext.Open?)
    || (y.Manifest? && pl.fixedManifest != [] && !OpenWay(t, Parent(pl.fixedManifest)))
  }

  lemma TargetAncestorNotInPlay(pl: Places, y: PlaceId, k: Path)
    requires Layout(pl) && IsTarget(y) && k < Target(pl, y)
    ensures pl.r <= k ==> !InPlay(pl, k)
    ensures !pl.ext.Linked? ==> !InPlay(pl, k)
  {
    hide Layout;
    NotBelowFixed(pl, y, k);
    NotBelowManifest(pl, y, k);
    if pl.r <= k || !pl.ext.Linked? {
      NotBelowExtensions(pl, y, k);
    }
  }

  lemma NotBelowFixed(pl: Places, y: PlaceId, k: Path)
    requires Layout(pl) && IsTarget(y) && k < Target(pl, y)
    ensures !(pl.data <= k) && !(pl.stage <= k)
  {
    PrefixOfTarget(Target(pl, y), k, Loc(pl, Data));
    PrefixOfTarget(Target(pl, y), k, pl.stage);
  }

  lemma NotBelowManifest(pl: Places, y: PlaceId, k: Path)
    requires Layout(pl) && IsTarget(y) && k < Target(pl, y)
    ensures !(pl.manifest <= k)
  {
    if pl.man.Led? {
      assert Apart(Loc(pl, Manifest), Loc(pl, Data));
      assert k <= Parent(Target(pl, y));
    } else {
      PrefixOfTarget(Target(pl, y), k, pl.manifest);
    }
  }

  lemma NotBelowExtensions(pl: Places, y: PlaceId, k: Path)
    requires Layout(pl) && IsTarget(y) && k < Target(pl, y) && (pl.r <= k || !pl.ext.Linked?)
    ensures !(pl.extensions <= k)
  {
    if pl.ext.Linked? {
      assert Apart(Loc(pl, Extensions), Loc(pl, Data)) && Apart(Loc(pl, Extensions), Loc(pl, Manifest));
      assert k <= Parent(Target(pl, y));
    } else {
      PrefixOfTarget(Target(pl, y), k, Loc(pl, Extensions));
    }
  }

  lemma PrefixOfTarget(b: Path, k: Path, p: Path)
    requires k < b && (p == b || Apart(p, b) || Apart(b, p))
    ensures !(p <= k)
  {
    assert p <= k ==> p <= b && |p| < |b|;
  }

  lemma GrownSamePlaces(pl: Places, u: Tree, v: Tree, y: PlaceId)
    requires Layout(pl) && Loc(pl, y) != [] && Grown(u, v, Parent(Loc(pl, y)))
    ensures forall z {:trigger Loc(pl, z)} :: SameAt(u, v, Loc(pl, z))
  {
    var b := Loc(pl, y);
    forall z ensures SameAt(u, v, Loc(pl, z)) {
      var p := Loc(pl, z);
      forall k | p <= k ensures At(v, k) == At(u, k) {
        assert p == b || Apart(p, b);
        assert k <= Parent(b) ==> k <= b && p <= b && |p| < |b|;
      }
      SameSubtree(v, u, p);
    }
  }

  /** The root that is reached. */
  lemma RootKept(pl: Places, u: Tree)
    requires RealWay(u, pl.way) && End(pl.way) == pl.r
    ensures IsDir(u, pl.r) && Walk(u, [], pl.way, true, MAX_LINKS) == Spot(pl.r)
  {
    Whole(pl.way);
    assert IsDir(u, End(pl.way[..|pl.way|]));
    RealWalk(u, pl.way, true, MAX_LINKS);
  }

  lemma SoundTree(pl: Places, t: Tree, u: Tree)
    requires Sound(pl, t, u)
    ensures WellFormed(u) && IsDir(u, pl.stage)
  {
  }

  lemma RootEnd(pl: Places, t: Tree)
    requires Rooted(pl, t)
    ensures End(pl.way) == pl.r
  {
  }

  lemma DirUnlessNew(pl: Places, t: Tree, u: Tree, k: Path)
    requires Sound(pl, t, u) && !InPlay(pl, k) && k in u
    requires k in t ==> IsDir(t, k)
    ensures IsDir(u, k)
  {
    assert At(u, k) == At(t, k) || At(u, k) == Some(DirE);
  }

  lemma OpenAbove(pl: Places, t: Tree, y: PlaceId, k: Path)
    requires Layout(pl) && Rooted(pl, t) && (y.Extensions? || y.Manifest?) && !Closed(pl, t, y)
    requires Target(pl, y) != [] && k <= Parent(Target(pl, y)) && k in t
    ensures IsDir(t, k)
  {
  }

  /** Nothing but directories lies above a place that is not closed. */
  lemma ReceiverOpen(pl: Places, t: Tree, u: Tree, y: PlaceId)
    requires Layout(pl) && Rooted(pl, t) && Sound(pl, t, u) && RealWay(u, pl.way) && Receives(y) && !Closed(pl, t, y)
    ensures Target(pl, y) != [] && OpenWay(u, Parent(Target(pl, y)))
  {
    hide Sound, RealWay, OnWay, Rooted;
    var b := Target(pl, y);
    SoundTree(pl, t, u);
    RootEnd(pl, t);
    RootKept(pl, u);
    if y.Extensions? || y.Manifest? {
      forall k | k <= Parent(b) && k in u ensures IsDir(u, k) {
        if pl.r <= k {
          TargetAncestorNotInPlay(pl, y, k);
          if k in t {
            OpenAbove(pl, t, y, k);
          }
          DirUnlessNew(pl, t, u, k);
        } else {
          assert k < pl.r;
          AncestorIsDir(u, k, pl.r);
        }
      }
    } else {
      DirIsOpen(u, Parent(b));
    }
  }

  /** What closes a way keeps it closed. */
  lemma ClosedStays(pl: Places, t: Tree, u: Tree, y: PlaceId)
    requires Layout(pl) && Rooted(pl, t) && Sound(pl, t, u) && WellFormed(t) && Closed(pl, t, y)
    ensures !OpenWay(u, Parent(Target(pl, y)))
  {
    var b := Target(pl, y);
    var k: Path :| k <= Parent(b) && k in t && !IsDir(t, k);
    assert IsDir(t, pl.r) by {
      Whole(pl.way);
      assert IsDir(t, End(pl.way[..|pl.way|]));
    }
    if k < pl.r {
      AncestorIsDir(t, k, pl.r);
    }
    TargetAncestorNotInPlay(pl, y, k);
    assert At(u, k) == At(t, k);
  }

  // ---- The tree once the staged trees are installed ----

  function InstalledTree(pl: Places, t: Tree): Tree
    requires pl.fixed != []
  {
    Replaced(Without(t, pl.stage), pl.data, Subtree(t, pl.stagedData), pl.fixed, Subtree(t, pl.stagedExtensions))
  }

  /** With the staged trees in place, everything beside the stage is determined. */
  lemma InstalledBeside(pl: Places, t: Tree, u: Tree)
    requires Layout(pl) && WellFormed(t) && Sound(pl, t, u) && pl.ext.Open? && Parent(pl.fixedManifest) in t
    requires Same(t, pl.stagedData, u, pl.data) && Same(t, pl.stagedExtensions, u, pl.extensions)
    requires pl.stagedExtensions in t && SameAt(t, u, Loc(pl, Manifest))
    ensures BesideStage(pl.stage, InstalledTree(pl, t), u)
  {
    hide Sound, Subtree, Replaced;
    assert pl.extensions == pl.fixed;
    SameSubtreePresent(t, u, pl.stagedExtensions, pl.fixed);
    forall k | !(pl.stage <= k) ensures At(u, k) == At(InstalledTree(pl, t), k) {
      ReplacedAt(Without(t, pl.stage), pl.data, Subtree(t, pl.stagedData), pl.fixed,
                 Subtree(t, pl.stagedExtensions), k);
      if pl.data <= k {
        SubtreeAt(u, pl.data, k);
        assert Subtree(u, pl.data) == Subtree(t, pl.stagedData);
      } else if pl.fixed <= k {
        SubtreeAt(u, pl.fixed, k);
        assert Subtree(u, pl.fixed) == Subtree(t, pl.stagedExtensions);
      } else {
        BesideTargets(pl, t, u, k);
      }
    }
  }

  lemma SubtreeAt(t: Tree, p: Path, k: Path)
    requires p <= k
    ensures At(Subtree(t, p), k[|p|..]) == At(t, k)
  {
    assert p + k[|p|..] == k;
  }

  lemma BesideTargets(pl: Places, t: Tree, u: Tree, k: Path)
    requires Layout(pl) && WellFormed(t) && Sound(pl, t, u) && pl.ext.Open? && Parent(pl.fixedManifest) in t
    requires pl.fixed in u && SameAt(t, u, Loc(pl, Manifest))
    requires !(pl.stage <= k) && !(pl.data <= k) && !(pl.fixed <= k)
    ensures At(u, k) == if k in t then Some(t[k]) else if k < pl.fixed then Some(DirE) else None
  {
    if pl.manifest <= k {
      SameNodes(t, u, pl.manifest, k);
    }
    assert At(u, k) == At(t, k) || (k !in t && At(u, k) == Some(DirE) && AboveTarget(pl, k));
    if k !in t && k < pl.fixedManifest {
      assert k <= Parent(pl.fixedManifest);
      assert k != Parent(pl.fixedManifest) ==> k < Parent(pl.fixedManifest);
      AncestorIsDir(t, k, Parent(pl.fixedManifest));
    }
    if k !in t && k < pl.fixed {
      AncestorIsDir(u, k, pl.fixed);
    }
  }

  lemma SameSubtreePresent(t: Tree, u: Tree, a: Path, b: Path)
    requires Same(t, a, u, b)
    ensures a in t <==> b in u
  {
    RootInSubtree(t, a);
    RootInSubtree(u, b);
  }

  lemma RootInSubtree(t: Tree, p: Path)
    ensures [] in Subtree(t, p) <==> p in t
  {
    assert p + [] == p;
  }

  /** A walk that does not stop at the stage is not affected by it. */
  lemma LookupBeside(s: Path, x: Tree, u: Tree, path: string)
    requires BesideStage(s, x, u) && s !in x && s != [] && !IsLink(u, s)
    requires Where(x, path, false).Blocked? || Where(x, path, false).loc != s
    ensures Where(u, path, false) == Where(x, path, false)
    ensures Found(u, path) <==> Found(x, path)
    ensures SourceLoc(u, path) == SourceLoc(x, path)
  {
    WalkBeside(x, u, s, [], Comps(path), false, MAX_LINKS);
    if Where(x, path, false).Spot? {
      assert At(u, Where(x, path, false).loc) == At(x, Where(x, path, false).loc);
    }
  }

  /** It is the same for the question whether the path leads through what it names. */
  lemma SettledBeside(s: Path, x: Tree, u: Tree, path: string)
    requires BesideStage(s, x, u) && (forall k | s <= k :: k !in x)
    requires Found(x, path) && Found(u, path) && SourceLoc(u, path) == SourceLoc(x, path)
    ensures Settled(u, path) <==> Settled(x, path)
  {
    var m := SourceLoc(x, path);
    forall k | k in x ensures k in u && u[k] == x[k] {
      assert At(u, k) == At(x, k);
    }
    if Settled(x, path) {
      FoundStays(Emptied(x, m), Emptied(u, m), path);
    }
    if Settled(u, path) {
      FoundSame(Emptied(u, m), u, path);
      WalkMeet(x, Emptied(u, m), Emptied(x, m), [], Comps(path), false, MAX_LINKS);
    }
  }
}
