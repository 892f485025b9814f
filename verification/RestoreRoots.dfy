/** The places of a restore, from its root and its stage. */
module RestoreRoots {
  import opened Paths
  import opened FileTree
  import opened PathWalk
  import opened Ways
  import opened FileSystem
  import opened PathSafety
  import opened FsOps
  import opened RestorePlaces
  import opened RestoreState
  import opened RestoreSteps

  /** How the extensions path of a root at r leads on, and where the extensions are, in a tree t. */
  ghost function WayIn(t: Tree, root: string, r: Path): (ExtensionsWay, Path) {
    var v := Without(t, r + DATA);
    if OpenWay(t, r + EXTENSIONS[..3]) then (Open, r + EXTENSIONS)
    else if Found(v, ExtensionsPath(root)) && !(SourceLoc(v, ExtensionsPath(root)) <= r)
    then (Linked, SourceLoc(v, ExtensionsPath(root)))
    else (Stuck, r + EXTENSIONS)
  }

  /** How the manifest path of a root at r leads on in the tree x in which the archive is installed, to what
      place (its own if to none), and whether not through what is there. It matters only if the restore gets to
      the manifest, and the state directory is a link or the manifest is on the way to the root (passed). */
  ghost function ManifestWayIn(x: Tree, root: string, r: Path, linked: bool, passed: bool, reached: bool)
    : (ManifestWay, Path, bool)
  {
    if !linked then (Straight, ManifestAt(r), passed && reached ==> Settled(x, ManifestPath(root)))
    else if !reached || !Found(x, ManifestPath(root)) then (Led, ManifestAt(r), true)
    else
      var m := SourceLoc(x, ManifestPath(root));
      (if m <= r then Above else if DataAt(r) <= m || ExtensionsAt(r) <= m then Inside else Led, m,
       Settled(x, ManifestPath(root)))
  }

  /** In the tree x, the manifest path does not end at the stage. */
  ghost predicate AwayFrom(x: Tree, root: string, s: Path) {
    var w := Where(x, ManifestPath(root), false);
    w.Blocked? || w.loc != s
  }

  ghost predicate StateLinked(t: Tree, r: Path) {
    IsLink(t, r + GIT_MANIFEST[..1])
  }

  /** Data and extensions are not on the way to the root, and no link is on the way to the extensions. */
  ghost predicate GetsToManifest(way: seq<string>, r: Path, ext: ExtensionsWay, e: Path) {
    ext.Open? && !OnWay(way, DataAt(r)) && !OnWay(way, e)
  }

  /** The places of a root at r with a stage at s; the mode comes from how the root is reached. */
  ghost function PlacesFor(t: Tree, root: string, r: Path, s: Path): Places {
    var way, (ext, e), x := Comps(root), WayIn(t, root, r), Exchanged(Without(t, s), r, Subtree(t, s));
    var reached := GetsToManifest(way, r, ext, e);
    var (man, led, settled) := ManifestWayIn(x, root, r, StateLinked(t, r), OnWay(way, ManifestAt(r)), reached);
    var pl := PlacesOf(way, r, s, Plain, ext, e, man, led, settled);
    var told := && Rooted(pl, t) && Apart(e, s) && (ext.Linked? ==> Apart(e, ManifestAt(r)))
                && (StateLinked(t, r) && reached ==> AwayFrom(x, root, s));
    pl.(mode := if Crossed(t, way) then Barred else if told then Plain else Unsteady)
  }

  lemma ThirdPartyLast(t: Tree, root: string, r: Path)
    requires Found(t, ExtensionsPath(root)) && !(SourceLoc(t, ExtensionsPath(root)) <= r)
    ensures !(SourceLoc(t, ExtensionsPath(root)) <= r + EXTENSIONS[..3])
  {
    var e := SourceLoc(t, ExtensionsPath(root));
    LastName(root);
    WalkLast(t, [], Comps(ExtensionsPath(root)), MAX_LINKS);
    if e <= r + EXTENSIONS[..3] {
      NameAt(r, e);
    }
  }

  lemma LastName(root: string)
    ensures var c := Comps(ExtensionsPath(root)); c != [] && c[|c| - 1] == "third-party"
  {
    hide Comps;
  }

  /** The names above third-party are others. */
  lemma NameAt(r: Path, e: Path)
    requires e <= r + EXTENSIONS[..3] && !(e <= r)
    ensures e != [] && e[|e| - 1] != "third-party"
  {
    var i := |e| - |r|;
    ShortPrefix(e, r, EXTENSIONS[..3]);
    assert e[|e| - 1] == EXTENSIONS[i - 1] && i <= 3;
    OtherNames(EXTENSIONS[i - 1]);
  }

  lemma ShortPrefix(e: Path, r: Path, rest: Path)
    requires e <= r + rest
    ensures |e| <= |r| ==> e <= r
  {
    assert |e| <= |r| ==> (r + rest)[..|e|] == r[..|e|];
  }

  lemma OtherNames(name: string)
    requires name == EXTENSIONS[0] || name == EXTENSIONS[1] || name == EXTENSIONS[2]
    ensures name != "third-party"
  {
    assert |"third-party"| == 11 && |EXTENSIONS[0]| == 6 && |EXTENSIONS[1]| == 7 && |EXTENSIONS[2]| == 10;
  }

  lemma FixedParents(r: Path)
    ensures |EXTENSIONS| == 4 && Parent(r + EXTENSIONS) == r + EXTENSIONS[..3]
    ensures r + DATA != [] && Parent(r + DATA) == r
  {
  }

  /** Where the extensions are found, they are apart from the data. */
  lemma FoundApart(t: Tree, root: string, r: Path)
    requires WellFormed(t) && WayIn(t, root, r).0.Linked?
    ensures Apart(WayIn(t, root, r).1, r + DATA) && WayIn(t, root, r).1 in Without(t, r + DATA)
  {
    PrefixOfNext(WayIn(t, root, r).1, r, "data");
  }

  lemma ManifestLast(x: Tree, root: string)
    requires Found(x, ManifestPath(root))
    ensures var m := SourceLoc(x, ManifestPath(root)); m != [] && m[|m| - 1] == GIT_MANIFEST[1]
  {
    hide Comps;
    var c := Comps(ManifestPath(root));
    assert c[|c| - 1] == GIT_MANIFEST[1];
    WalkLast(x, [], c, MAX_LINKS);
  }

  /** None of the other names is that of the manifest. */
  lemma ManifestNameDiffers(s: Path, r: Path)
    requires IsStage(r, s)
    ensures |GIT_MANIFEST| == 2 && GIT_MANIFEST[0] != GIT_MANIFEST[1] && DATA[0] != GIT_MANIFEST[1]
    ensures forall i | 0 <= i < |EXTENSIONS| :: EXTENSIONS[i] != GIT_MANIFEST[1]
    ensures s[|r|] != GIT_MANIFEST[1]
  {
    assert s[|r|][0] == '.' && GIT_MANIFEST[1][0] == 'e' && GIT_MANIFEST[0][0] == '.';
    assert DATA[0][0] == 'd' && EXTENSIONS[0][0] == 'p' && EXTENSIONS[1][0] == 's' && EXTENSIONS[3][0] == 't';
    assert |EXTENSIONS[2]| == 10;
  }

  /** A place with another last name is not on the way down from r. */
  lemma NotBetween(m: Path, r: Path, rel: Path)
    requires m != [] && !(m <= r) && forall i | 0 <= i < |rel| :: rel[i] != m[|m| - 1]
    ensures !(m <= r + rel)
  {
    if m <= r + rel {
      ShortPrefix(m, r, rel);
      LastBetween(m, r, rel);
    }
  }

  lemma LastBetween(m: Path, r: Path, rel: Path)
    requires m <= r + rel && |m| > |r|
    ensures m[|m| - 1] == rel[|m| - 1 - |r|]
  {
  }

  lemma ExchangedNotInStage(g: Tree, r: Path, image: Tree, s: Path, k: Path)
    requires IsStage(r, s) && (forall p | s <= p :: p !in g) && s <= k
    ensures k !in Exchanged(g, r, image)
  {
    hide Replaced, DATA, EXTENSIONS, STAGED_EXTENSIONS, Subtree;
    PlacesApart(r, s);
    FixedParents(r);
    if DataAt(r) <= k { PrefixesMeet(DataAt(r), s, k); }
    if ExtensionsAt(r) <= k { PrefixesMeet(ExtensionsAt(r), s, k); }
    ReplacedAt(g, DataAt(r), Subtree(image, DATA), ExtensionsAt(r), Subtree(image, STAGED_EXTENSIONS), k);
  }

  /** A manifest that is found through a link, and not above the root or in a target, is apart from everything. */
  lemma LedApart(g: Tree, root: string, r: Path, image: Tree, s: Path)
    requires IsStage(r, s) && (forall p | s <= p :: p !in g) && Found(Exchanged(g, r, image), ManifestPath(root))
    ensures var m := SourceLoc(Exchanged(g, r, image), ManifestPath(root));
            && !(m == DataAt(r)) && !(m == ExtensionsAt(r)) && m in Exchanged(g, r, image)
            && (!(m <= r) && !(DataAt(r) <= m) && !(ExtensionsAt(r) <= m) ==>
                  && Apart(m, DataAt(r)) && Apart(m, ExtensionsAt(r)) && Apart(m, s)
                  && !(m <= r + EXTENSIONS[..3]) && !(m <= r + GIT_MANIFEST[..1]))
  {
    hide Exchanged, Found, SourceLoc, Subtree, Comps, DATA, EXTENSIONS, GIT_MANIFEST;
    var x := Exchanged(g, r, image);
    var m := SourceLoc(x, ManifestPath(root));
    ManifestLast(x, root);
    FoundIsThere(x, ManifestPath(root));
    if s <= m {
      ExchangedNotInStage(g, r, image, s, m);
    }
    NamedApart(m, r, s);
  }

  /** The same for any location of the manifest's name. */
  lemma NamedApart(m: Path, r: Path, s: Path)
    requires IsStage(r, s) && !(s <= m) && m != [] && m[|m| - 1] == GIT_MANIFEST[1]
    ensures !(m == DataAt(r)) && !(m == ExtensionsAt(r))
    ensures !(m <= r) && !(DataAt(r) <= m) && !(ExtensionsAt(r) <= m) ==>
              && Apart(m, DataAt(r)) && Apart(m, ExtensionsAt(r)) && Apart(m, s)
              && !(m <= r + EXTENSIONS[..3]) && !(m <= r + GIT_MANIFEST[..1])
  {
    hide DATA, EXTENSIONS, GIT_MANIFEST;
    FixedDepths();
    ManifestNameDiffers(s, r);
    if !(m <= r) {
      assert s == r + [s[|r|]];
      NotBetween(m, r, DATA);
      NotBetween(m, r, EXTENSIONS);
      NotBetween(m, r, EXTENSIONS[..3]);
      NotBetween(m, r, [s[|r|]]);
      NotBetween(m, r, GIT_MANIFEST[..1]);
    }
    assert DataAt(r)[|DataAt(r)| - 1] == DATA[0] && ExtensionsAt(r)[|ExtensionsAt(r)| - 1] == EXTENSIONS[3];
  }

  lemma FoundIsThere(x: Tree, path: string)
    requires Found(x, path)
    ensures SourceLoc(x, path) in x
  {
  }

  lemma PlacesForLayout(t: Tree, root: string, r: Path, s: Path)
    requires WellFormed(t) && IsStage(r, s) && PlacesFor(t, root, r, s).mode.Plain?
    ensures Layout(PlacesFor(t, root, r, s))
  {
    hide Comps, Rooted, Crossed, Exchanged, Found, SourceLoc, OnWay, Settled, EXTENSIONS, GIT_MANIFEST, DATA, Subtree;
    var pl := PlacesFor(t, root, r, s);
    FixedParents(r);
    StateDirectory(r);
    PlacesApart(r, s);
    if pl.ext.Linked? {
      LinkedExtensions(t, root, r);
    }
    if pl.man.Led? && pl.led != ManifestAt(r) {
      LedApart(Without(t, s), root, r, Subtree(t, s), s);
    }
    PlacesLayout(pl, s);
  }

  lemma LinkedExtensions(t: Tree, root: string, r: Path)
    requires WellFormed(t) && WayIn(t, root, r).0.Linked?
    ensures Apart(WayIn(t, root, r).1, DataAt(r)) && !(WayIn(t, root, r).1 <= r + EXTENSIONS[..3])
  {
    FoundApart(t, root, r);
    ThirdPartyLast(Without(t, r + DATA), root, r);
  }

  lemma StateDirectory(r: Path)
    ensures ManifestAt(r) != [] && Parent(ManifestAt(r)) == r + GIT_MANIFEST[..1]
    ensures ExtensionsAt(r) != []
  {
  }

  lemma {:induction false} NoLinksDirect(t: Tree, s: Path, p: Path)
    requires WellFormed(t) && IsDir(t, s) && NoLinksAt(t, s) && s <= p
    ensures Direct(t, p)
  {
    DirectInTree(t, s);
    forall i | 0 <= i < |p| ensures !IsLink(t, p[..i]) {
      if i < |s| {
        assert p[..i] == s[..i];
      } else {
        assert s <= p[..i];
      }
    }
  }

  /** What the places say about the manifest is so. */
  lemma ManifestLeadsThere(t: Tree, root: string, r: Path, s: Path)
    requires WellFormed(t) && IsStage(r, s) && PlacesFor(t, root, r, s).mode.Plain?
    requires NeedsTree(PlacesFor(t, root, r, s)) && CanReach(PlacesFor(t, root, r, s))
    ensures var pl := PlacesFor(t, root, r, s);
            pl.fixed != [] && ManifestLeads(ManifestPath(root), pl, InstalledTree(pl, t))
  {
    hide PlacesFor, Comps, Exchanged, Rooted, OnWay, ManifestLeads, InstalledTree, Subtree, CanReach, GetsToManifest;
    var pl := PlacesFor(t, root, r, s);
    PlacesAre(t, root, r, s);
    SamePassages(t, root, r, s);
    InstalledIsExchanged(pl, t, s);
    if pl.man.Straight? {
      StraightThere(t, root, r, s);
    } else {
      LinkedThere(t, root, r, s);
    }
  }

  lemma StraightThere(t: Tree, root: string, r: Path, s: Path)
    requires WellFormed(t) && IsStage(r, s) && PlacesFor(t, root, r, s).mode.Plain?
    requires NeedsTree(PlacesFor(t, root, r, s)) && CanReach(PlacesFor(t, root, r, s))
    requires PlacesFor(t, root, r, s).man.Straight?
    ensures ManifestLeads(ManifestPath(root), PlacesFor(t, root, r, s), Exchanged(Without(t, s), r, Subtree(t, s)))
  {
    hide Comps, Rooted, Crossed, Exchanged, OnWay, Settled, EXTENSIONS, GIT_MANIFEST, DATA, Subtree, AwayFrom, WayIn;
    PlacesAre(t, root, r, s);
    SamePassages(t, root, r, s);
    StageOffWay(PlacesFor(t, root, r, s), t);
    OpenMeans(t, root, r);
    PassedInTree(t, root, r, s);
  }

  lemma OpenMeans(t: Tree, root: string, r: Path)
    ensures WayIn(t, root, r).0.Open? ==> WayIn(t, root, r).1 == ExtensionsAt(r)
  {
  }

  lemma StageOffWay(pl: Places, t: Tree)
    requires Rooted(pl, t)
    ensures !OnWay(pl.way, pl.stage) && RealWay(t, pl.way) && End(pl.way) == pl.r
    ensures pl.ext.Open? ==> pl.fixed != []
  {
  }

  lemma LinkedThere(t: Tree, root: string, r: Path, s: Path)
    requires WellFormed(t) && IsStage(r, s) && PlacesFor(t, root, r, s).mode.Plain?
    requires CanReach(PlacesFor(t, root, r, s)) && !PlacesFor(t, root, r, s).man.Straight?
    ensures ManifestLeads(ManifestPath(root), PlacesFor(t, root, r, s), Exchanged(Without(t, s), r, Subtree(t, s)))
  {
    hide Comps, Rooted, Crossed, Exchanged, Found, SourceLoc, OnWay, Settled, EXTENSIONS, GIT_MANIFEST, DATA, Subtree;
    var x := Exchanged(Without(t, s), r, Subtree(t, s));
    StateDirectory(r);
    SamePassages(t, root, r, s);
    if Found(x, ManifestPath(root)) {
      LedApart(Without(t, s), root, r, Subtree(t, s), s);
      FoundIsThere(x, ManifestPath(root));
    } else {
      WithoutLinked(t, r, s);
      NoManifest(Without(t, s), r, Subtree(t, s));
    }
  }

  lemma SamePassages(t: Tree, root: string, r: Path, s: Path)
    ensures var pl := PlacesFor(t, root, r, s);
            && CanReach(pl) == GetsToManifest(Comps(root), r, WayIn(t, root, r).0, WayIn(t, root, r).1)
            && (pl.man.Straight? <==> !StateLinked(t, r)) && Formed(pl, s)
            && (pl.man.Straight? && NeedsTree(pl) ==> OnWay(Comps(root), ManifestAt(r)))
  {
    hide Comps, Rooted, Crossed, Exchanged, Found, SourceLoc, OnWay, Settled, EXTENSIONS, GIT_MANIFEST, DATA, Subtree;
  }

  lemma InstalledIsExchanged(pl: Places, t: Tree, s: Path)
    requires Formed(pl, s) && pl.fixed != []
    ensures InstalledTree(pl, t) == Exchanged(Without(t, s), pl.r, Subtree(t, s))
  {
    hide Replaced, DATA, EXTENSIONS, STAGED_EXTENSIONS, Subtree;
    SubtreeOfSubtree(t, s, DATA);
    SubtreeOfSubtree(t, s, STAGED_EXTENSIONS);
  }

  /** Behind a link there is nothing in the place of the manifest. */
  lemma NoManifest(g: Tree, r: Path, image: Tree)
    requires WellFormed(g) && StateLinked(g, r)
    ensures ManifestAt(r) !in Exchanged(g, r, image) && ManifestAt(r) !in g
  {
    hide Replaced, DATA, EXTENSIONS, STAGED_EXTENSIONS, Subtree, GIT_MANIFEST;
    DataApart(r);
    StateDirectory(r);
    ReplacedAt(g, DataAt(r), Subtree(image, DATA), ExtensionsAt(r), Subtree(image, STAGED_EXTENSIONS), ManifestAt(r));
  }

  lemma WithoutLinked(t: Tree, r: Path, s: Path)
    requires WellFormed(t) && IsStage(r, s) && StateLinked(t, r)
    ensures WellFormed(Without(t, s)) && StateLinked(Without(t, s), r)
  {
    hide GIT_MANIFEST, DATA, EXTENSIONS;
    FixedDepths();
    PlacesApart(r, s);
    StateDirectory(r);
    assert r + GIT_MANIFEST[..1] <= ManifestAt(r);
    WithoutWellFormed(t, s);
  }

  lemma PlacesAre(t: Tree, root: string, r: Path, s: Path)
    ensures var pl := PlacesFor(t, root, r, s);
            && Formed(pl, s) && pl.way == Comps(root) && pl.r == r && pl.fixed != []
            && (pl.mode.Barred? <==> Crossed(t, Comps(root))) && (pl.mode.Plain? ==> Rooted(pl, t))
            && ExtensionsLead(ExtensionsPath(root), pl, t) && (!NeedsTree(pl) ==> pl.settled)
  {
    hide Comps, Crossed, Rooted, Found, SourceLoc, Exchanged, OnWay, Settled, AwayFrom, StateLinked;
    StateDirectory(r);
    var pl := PlacesFor(t, root, r, s);
    RootedAnyMode(pl, t);
  }

  /** A manifest that is on the way to the root, which is reached without links. */
  lemma PassedInTree(t: Tree, root: string, r: Path, s: Path)
    requires WellFormed(t) && IsStage(r, s) && !StateLinked(t, r)
    requires RealWay(t, Comps(root)) && End(Comps(root)) == r && !OnWay(Comps(root), s)
    requires !OnWay(Comps(root), DataAt(r)) && !OnWay(Comps(root), ExtensionsAt(r))
    requires OnWay(Comps(root), ManifestAt(r))
    ensures var x := Exchanged(Without(t, s), r, Subtree(t, s));
            Where(x, ManifestPath(root), false) == Spot(ManifestAt(r)) && ManifestAt(r) in x && ManifestAt(r) != s
  {
    hide Comps, Exchanged, RealWay, OnWay, Subtree, DATA, EXTENSIONS, Walk;
    var x, way := Exchanged(Without(t, s), r, Subtree(t, s)), Comps(root);
    PlacesApart(r, s);
    StateDirectory(r);
    var g, image := Without(t, s), Subtree(t, s);
    PassedIsThere(t, way, ManifestAt(r));
    WayKept(t, g, way, s);
    StateIsThere(t, r, s);
    WayInTree(g, way, r, image);
    DataApart(r);
    ExchangedElsewhere(g, r, image, ManifestAt(r));
    StateInTree(g, r, image);
    ManifestNames();
    RealThrough(x, way, GIT_MANIFEST, false, MAX_LINKS);
    RealPrefix(x, way, |way|);
    Whole(way);
    TwoSteps(x, r);
  }

  lemma StateIsThere(t: Tree, r: Path, s: Path)
    requires WellFormed(t) && IsStage(r, s) && ManifestAt(r) in t
    ensures IsDir(Without(t, s), r + GIT_MANIFEST[..1]) && At(Without(t, s), ManifestAt(r)) == At(t, ManifestAt(r))
  {
    hide GIT_MANIFEST, DATA, EXTENSIONS;
    PlacesApart(r, s);
    StateDirectory(r);
    FixedDepths();
    assert IsDir(t, Parent(ManifestAt(r))) && Parent(ManifestAt(r)) <= ManifestAt(r);
  }

  lemma ManifestNames()
    ensures GIT_MANIFEST != [] && NoDots(GIT_MANIFEST)
  {
  }

  lemma TwoSteps(x: Tree, r: Path)
    requires IsDir(x, r) && IsDir(x, r + GIT_MANIFEST[..1])
    ensures Walk(x, r, GIT_MANIFEST, false, MAX_LINKS) == Spot(ManifestAt(r))
  {
    var state, name := GIT_MANIFEST[0], GIT_MANIFEST[1];
    assert GIT_MANIFEST[..1] == [state] && GIT_MANIFEST[1..] == [name] && [name][1..] == [];
    assert r + [state] + [name] == ManifestAt(r);
    assert Walk(x, r, GIT_MANIFEST, false, MAX_LINKS) == Walk(x, r + [state], [name], false, MAX_LINKS);
  }

  /** What is beside the targets is in the exchanged tree. */
  lemma ExchangedElsewhere(g: Tree, r: Path, image: Tree, k: Path)
    requires k in g && !(DataAt(r) <= k) && !(ExtensionsAt(r) <= k)
    ensures At(Exchanged(g, r, image), k) == At(g, k)
  {
    hide Replaced, DATA, EXTENSIONS, STAGED_EXTENSIONS, Subtree;
    DataApart(r);
    StateDirectory(r);
    ReplacedAt(g, DataAt(r), Subtree(image, DATA), ExtensionsAt(r), Subtree(image, STAGED_EXTENSIONS), k);
  }

  lemma DataApart(r: Path)
    ensures Apart(DataAt(r), ExtensionsAt(r)) && Apart(DataAt(r), ManifestAt(r))
    ensures Apart(ExtensionsAt(r), ManifestAt(r))
  {
    ForkApart(r, DATA, EXTENSIONS);
    ForkApart(r, DATA, GIT_MANIFEST);
    ForkApart(r, EXTENSIONS, GIT_MANIFEST);
  }

  lemma StateInTree(g: Tree, r: Path, image: Tree)
    requires r + GIT_MANIFEST[..1] in g
    ensures At(Exchanged(g, r, image), r + GIT_MANIFEST[..1]) == At(g, r + GIT_MANIFEST[..1])
  {
    hide Exchanged, DATA, EXTENSIONS, GIT_MANIFEST;
    FixedDepths();
    DataApart(r);
    StateDirectory(r);
    assert r + GIT_MANIFEST[..1] <= ManifestAt(r);
    ExchangedElsewhere(g, r, image, r + GIT_MANIFEST[..1]);
  }

  lemma WayInTree(g: Tree, way: seq<string>, r: Path, image: Tree)
    requires RealWay(g, way) && !OnWay(way, DataAt(r)) && !OnWay(way, ExtensionsAt(r))
    ensures RealWay(Exchanged(g, r, image), way)
  {
    hide Exchanged, DATA, EXTENSIONS;
    forall i | 0 <= i <= |way| ensures IsDir(Exchanged(g, r, image), End(way[..i])) {
      assert IsDir(g, End(way[..i]));
      ExchangedElsewhere(g, r, image, End(way[..i]));
    }
  }

  /** The standing assumptions at the beginning. */
  lemma SetUp(t: Tree, root: string, stage: string, r: Path, s: Path)
    requires WellFormed(t) && IsStage(r, s) && Comps(stage) == Comps(root) + [s[|r|]]
    requires IsDir(t, s) && NoLinksAt(t, s)
    ensures var pl, paths := PlacesFor(t, root, r, s), ResolvePaths(root, stage);
            && Match(paths, pl) && paths.extensions == ExtensionsPath(root) && paths.manifest == ManifestPath(root)
            && (pl.mode.Plain? ==> Layout(pl) && Rooted(pl, t) && Leads(paths, pl, t) && Sound(pl, t, t))
            && (pl.mode.Barred? ==> Crossed(t, pl.way))
  {
    hide Comps, Crossed, Rooted, Layout, PlacesFor, ExtensionsLead, ManifestLeads, InstalledTree, CanReach, Match;
    var pl := PlacesFor(t, root, r, s);
    assert s == r + [s[|r|]];
    PlacesAre(t, root, r, s);
    ResolvedMatch(root, stage, pl, s[|r|]);
    if pl.mode.Plain? {
      PlacesForLayout(t, root, r, s);
      StagedIsDirect(pl, t, s);
      if NeedsTree(pl) && CanReach(pl) {
        ManifestLeadsThere(t, root, r, s);
      }
    }
  }

  lemma StagedIsDirect(pl: Places, t: Tree, s: Path)
    requires WellFormed(t) && IsDir(t, s) && NoLinksAt(t, s) && Formed(pl, s)
    ensures Direct(t, pl.stagedManifest) && pl.stage == s
  {
    NoLinksDirect(t, s, pl.stagedManifest);
  }

  lemma RootedAnyMode(pl: Places, t: Tree)
    ensures Rooted(pl.(mode := Plain), t) ==> Rooted(pl, t)
  {
    hide RealWay, End, OpenWay;
  }

  /** A place in the stage, whatever way the root is reached. */
  lemma StagedNames(t: Tree, root: string, stage: string, r: Path, s: Path, x: PlaceId)
    requires WellFormed(t) && IsStage(r, s) && Comps(stage) == Comps(root) + [s[|r|]]
    requires IsDir(t, s) && NoLinksAt(t, s) && IsDir(t, r) && Where(t, root, true) == Spot(r)
    requires x.StagedData? || x.StagedExtensions? || x.OldData? || x.OldExtensions?
    ensures NamesPlace(t, Text(ResolvePaths(root, stage), x), Loc(PlacesFor(t, root, r, s), x))
  {
    hide Comps, Crossed, Rooted, Found, SourceLoc, Spells, PlacesFor, Match, Layout, Leads, Sound, ResolvePaths, Walk;
    SetUp(t, root, stage, r, s);
    var pl, paths := PlacesFor(t, root, r, s), ResolvePaths(root, stage);
    PlacesAre(t, root, r, s);
    TextSpells(paths, pl, x);
    NoLinksDirect(t, s, Loc(pl, x));
    Lookup(t, Text(paths, x), pl.way, r, Loc(pl, x));
  }
}
