/** Creating directories without being led astray by symbolic links (src/path_safety.cpp). */
module PathSafety {
  import opened Paths
  import opened FileTree
  import opened PathWalk
  import opened Ways
  import opened FileSystem

  /** Every node that exists on the way to p, and p itself, is a directory. */
  ghost predicate OpenWay(t: Tree, p: Path) {
    forall k | k <= p && k in t :: IsDir(t, k)
  }

  lemma GrownOpenWay(t: Tree, u: Tree, p: Path)
    requires WellFormed(u) && Grown(t, u, p) && IsDir(u, p)
    ensures OpenWay(t, p) && OpenWay(u, p)
  {
    forall k | k <= p ensures IsDir(u, k) {
      if |k| < |p| {
        AncestorIsDir(u, k, p);
      } else {
        assert k == p;
      }
    }
    forall k | k <= p && k in t ensures IsDir(t, k) {
      assert IsDir(u, k) && At(u, k) == At(t, k);
    }
  }

  lemma GrownTwice(t: Tree, u: Tree, v: Tree, a: Path, b: Path)
    requires Grown(t, u, a) && Grown(u, v, b) && a <= b
    ensures Grown(t, v, b)
  {
    forall k ensures At(v, k) == At(t, k) || (k !in t && k <= b && At(v, k) == Some(DirE)) {
      assert At(u, k) == At(t, k) || (k !in t && k <= a && At(u, k) == Some(DirE));
      assert At(v, k) == At(u, k) || (k !in u && k <= b && At(v, k) == Some(DirE));
    }
  }

  lemma OpenWayGrown(t: Tree, u: Tree, a: Path, b: Path)
    requires Grown(t, u, a) && OpenWay(t, b)
    ensures OpenWay(u, b)
  {
    forall k | k <= b && k in u ensures IsDir(u, k) {
      assert At(u, k) == At(t, k) || At(u, k) == Some(DirE);
    }
  }

  lemma OpenWayPrefix(t: Tree, a: Path, b: Path)
    requires OpenWay(t, b) && a <= b
    ensures OpenWay(t, a)
  {
    forall k | k <= a && k in t ensures IsDir(t, k) {
      assert k <= b;
    }
  }

  /** The next non-empty part extends the current path by one name. */
  lemma NextPart(current: string, parts: seq<string>, i: nat, whole: Path)
    requires i < |parts| && '/' !in parts[i]
    requires Comps(current) + NonEmpty(parts[i..]) == whole
    ensures parts[i] == "" ==> Comps(current) + NonEmpty(parts[i + 1..]) == whole
    ensures parts[i] != "" ==>
              var p := Comps(current) + [parts[i]];
              && Comps(JoinPath(current, parts[i])) == p && p + NonEmpty(parts[i + 1..]) == whole
              && p <= whole && Parent(p) == Comps(current)
  {
    hide Comps, JoinPath;
    assert parts[i..][0] == parts[i] && parts[i..][1..] == parts[i + 1..];
    if parts[i] != "" {
      CompsOfName(parts[i]);
      assert Comps(current) + ([parts[i]] + NonEmpty(parts[i + 1..])) ==
             Comps(current) + [parts[i]] + NonEmpty(parts[i + 1..]);
    }
  }

  /** One component: create it if nothing is there, refuse a link or a file. */
  method EnsureComponent(fs: FileSystem, path: string, ghost p: Path) returns (ok: bool)
    requires fs.Valid() && Where(fs.tree, path, false) == Spot(p)
    modifies fs
    ensures fs.Valid() && Grown(old(fs.tree), fs.tree, p)
    ensures ok ==> IsDir(fs.tree, p)
    ensures p in old(fs.tree) ==> fs.tree == old(fs.tree)
    ensures IsDir(old(fs.tree), p) ==> ok
    ensures fs.reliable && (p in old(fs.tree) ==> IsDir(old(fs.tree), p)) ==> ok
  {
    var status := fs.Lstat(path);
    if !status.Stat? {
      ok := fs.Mkdir(path);
      return;
    }
    ok := status.entry.DirE?;
  }

  /** Nothing changed, except that directories may have been added in free places. */
  ghost predicate OnlyDirsAdded(t: Tree, u: Tree) {
    forall k {:trigger At(u, k)} {:trigger At(t, k)} :: At(u, k) == At(t, k) || (k !in t && At(u, k) == Some(DirE))
  }

  lemma DirsAddedExtends(t: Tree, u: Tree)
    requires OnlyDirsAdded(t, u)
    ensures Extends(t, u)
  {
    forall k | k in t ensures k in u && u[k] == t[k] {
      assert At(u, k) == At(t, k);
    }
  }

  lemma GrownDirsAdded(t: Tree, u: Tree, p: Path)
    requires Grown(t, u, p)
    ensures OnlyDirsAdded(t, u)
  {
  }

  lemma OnlyDirsAddedTwice(t: Tree, u: Tree, v: Tree)
    requires OnlyDirsAdded(t, u) && OnlyDirsAdded(u, v)
    ensures OnlyDirsAdded(t, v)
  {
  }

  /** What making the directories of a path without following links does to the tree t, however far
      it comes: nothing unless the first thing missing is a directory; a link or a file is refused. */
  ghost predicate Ensured(t: Tree, u: Tree, names: seq<string>, ok: bool) {
    && OnlyDirsAdded(t, u)
    && (u == t || Gap(t, names))
    && (Aimed(t, names) ==> Grown(t, u, End(names)))
    && if ok then RealWay(u, names) && !Crossed(t, names) else Gap(t, names) || Crossed(t, names)
  }

  lemma EnsuredNothing(t: Tree)
    requires WellFormed(t)
    ensures Ensured(t, t, [], true)
  {
    assert !Crossed(t, []);
  }

  /** From one part to the next. */
  lemma EnsuredNext(t: Tree, u: Tree, v: Tree, names: seq<string>, part: string, ok: bool)
    requires WellFormed(t) && Ensured(t, u, names, true)
    requires var p := Step(End(names), part);
             && Grown(u, v, p) && (ok ==> IsDir(v, p)) && (p in u ==> v == u) && (IsDir(u, p) ==> ok)
    ensures Ensured(t, v, names + [part], ok)
  {
    hide Gap, Crossed, Aimed, RealWay, End, Step;
    var p, next := Step(End(names), part), names + [part];
    GrownDirsAdded(u, v, p);
    OnlyDirsAddedTwice(t, u, v);
    DirsAddedExtends(u, v);
    DirsAddedExtends(t, v);
    RealStays(u, v, names);
    RealNext(v, names, part);
    EnsuredGap(t, u, v, names, part);
    EnsuredGrown(t, u, v, names, part);
    if !ok && p in u {
      assert At(u, p) == At(t, p);
      EnsuredFile(t, u, names, part);
    } else if !ok {
      EnsuredFree(t, u, names, part);
    } else if Crossed(t, next) {
      CrossedStays(t, v, next);
      CrossedIsNoGap(v, next);
    }
  }

  lemma EnsuredFree(t: Tree, u: Tree, names: seq<string>, part: string)
    requires Ensured(t, u, names, true) && Step(End(names), part) !in u
    ensures Gap(t, names + [part])
  {
    var next := names + [part];
    EndNext(names, part);
    if u != t {
      GapFurther(t, names, [part]);
    } else {
      assert next[..|names|] == names && next[..|names| + 1] == next;
    }
  }

  lemma EnsuredGrown(t: Tree, u: Tree, v: Tree, names: seq<string>, part: string)
    requires WellFormed(t) && Ensured(t, u, names, true)
    requires var p := Step(End(names), part); Grown(u, v, p) && (p in u ==> v == u)
    ensures Aimed(t, names + [part]) ==> Grown(t, v, End(names + [part]))
  {
    hide Gap, Crossed;
    var next := names + [part];
    EndNext(names, part);
    if Aimed(t, next) {
      assert next[..|names|] == names && next[|names|] == part;
      AimedPrefix(t, next, |names|);
      if IsDots(part) {
        assert next[..|names| + 1] == next;
        EnsuredGap(t, u, v, names, part);
      } else {
        GrownTwice(t, u, v, End(names), End(next));
      }
    }
  }

  lemma EnsuredGap(t: Tree, u: Tree, v: Tree, names: seq<string>, part: string)
    requires WellFormed(t) && Ensured(t, u, names, true)
    requires var p := Step(End(names), part); p in u ==> v == u
    ensures v == t || Gap(t, names + [part])
    ensures RealWay(t, names + [part]) ==> v == t
  {
    var next := names + [part];
    EndNext(names, part);
    if u != t {
      GapFurther(t, names, [part]);
    } else if Step(End(names), part) !in t {
      assert next[..|names|] == names && next[..|names| + 1] == next;
    }
    if Gap(t, next) {
      GapIsNotReal(t, next);
    }
  }

  lemma EnsuredFile(t: Tree, u: Tree, names: seq<string>, part: string)
    requires Ensured(t, u, names, true)
    requires var p := Step(End(names), part); p in t && !IsDir(t, p)
    ensures Gap(t, names + [part]) || Crossed(t, names + [part])
  {
    var next := names + [part];
    EndNext(names, part);
    if u != t {
      GapFurther(t, names, [part]);
    } else {
      assert next[..|names|] == names && next[..|names| + 1] == next;
    }
  }

  /** What stopped a part of the way stops the whole. */
  lemma EnsuredStops(t: Tree, u: Tree, names: seq<string>, rest: seq<string>)
    requires WellFormed(t) && Ensured(t, u, names, false)
    ensures Ensured(t, u, names + rest, false)
  {
    var whole := names + rest;
    if Gap(t, names) {
      GapFurther(t, names, rest);
      GapIsNotReal(t, names);
    } else {
      CrossedFurther(t, names, rest);
      CrossedIsNoGap(t, names);
    }
    if Aimed(t, whole) {
      assert whole[..|names|] == names;
      AimedPrefix(t, whole, |names|);
      AimedAt(t, whole, |names|);
      GrownFurther(t, u, End(names), End(whole));
    }
  }

  lemma ClearNext(t: Tree, u: Tree, names: seq<string>, part: string)
    requires OnlyDirsAdded(t, u) && Clear(t, names + [part])
    ensures var p := Step(End(names), part); p in u ==> IsDir(u, p)
  {
    var next, p := names + [part], Step(End(names), part);
    EndNext(names, part);
    Whole(next);
    assert p in t ==> IsDir(t, p);
    assert At(u, p) == At(t, p) || At(u, p) == Some(DirE);
  }

  lemma ClearPrefix(t: Tree, names: seq<string>, rest: seq<string>)
    requires Clear(t, names + rest)
    ensures Clear(t, names)
  {
    forall i | 0 <= i <= |names| && End(names[..i]) in t ensures IsDir(t, End(names[..i])) {
      assert (names + rest)[..i] == names[..i];
    }
  }

  /** Success with no link followed means that nothing was in the way. */
  lemma EnsuredClear(t: Tree, u: Tree, names: seq<string>)
    requires Ensured(t, u, names, true)
    ensures Clear(t, names)
  {
    forall i | 0 <= i <= |names| && End(names[..i]) in t ensures IsDir(t, End(names[..i])) {
      assert IsDir(u, End(names[..i]));
      assert At(u, End(names[..i])) == At(t, End(names[..i]));
    }
  }

  /** The next component behind those made so far. */
  method EnsurePart(fs: FileSystem, current: string, part: string, ghost start: Tree)
    returns (ok: bool, next: string)
    requires fs.Valid() && WellFormed(start) && Ensured(start, fs.tree, Comps(current), true)
    requires part != "" && '/' !in part
    modifies fs
    ensures next == JoinPath(current, part) && Comps(next) == Comps(current) + [part]
    ensures fs.Valid() && Ensured(start, fs.tree, Comps(next), ok)
    ensures fs.reliable && Clear(start, Comps(next)) ==> ok
  {
    next := JoinPath(current, part);
    CompsOfName(part);
    ghost var before, names := fs.tree, Comps(current);
    ghost var p := Step(End(names), part);
    RealWalk(before, names, true, MAX_LINKS);
    NextWalk(before, names, part, false, MAX_LINKS);
    ok := EnsureComponent(fs, next, p);
    EnsuredNext(start, before, fs.tree, names, part, ok);
    if Clear(start, names + [part]) {
      ClearNext(start, before, names, part);
    }
  }

  /** The loop over the parts. */
  method EnsureParts(fs: FileSystem, first: string, parts: seq<string>, ghost whole: Path) returns (ok: bool)
    requires fs.Valid() && Comps(first) == [] && NonEmpty(parts) == whole
    requires forall i | 0 <= i < |parts| :: '/' !in parts[i]
    modifies fs
    ensures fs.Valid() && Ensured(old(fs.tree), fs.tree, whole, ok)
    ensures fs.reliable && Clear(old(fs.tree), whole) ==> ok
  {
    hide *;
    var current := first;
    ghost var start := fs.tree;
    FirstPart(fs, parts, whole);
    for i := 0 to |parts|
      invariant Comps(current) + NonEmpty(parts[i..]) == whole
      invariant fs.Valid() && WellFormed(start) && Ensured(start, fs.tree, Comps(current), true)
    {
      NextPart(current, parts, i, whole);
      if parts[i] == "" {
        continue;
      }
      ok, current := EnsurePart(fs, current, parts[i], start);
      PartOfWhole(start, fs.tree, Comps(current), NonEmpty(parts[i + 1..]), ok);
      if !ok {
        return;
      }
    }
    LastPart(Comps(current), parts);
    ok := true;
  }

  lemma FirstPart(fs: FileSystem, parts: seq<string>, whole: Path)
    requires fs.Valid() && NonEmpty(parts) == whole
    ensures [] + NonEmpty(parts[0..]) == whole
    ensures WellFormed(fs.tree) && Ensured(fs.tree, fs.tree, [], true)
  {
    assert parts[0..] == parts;
    EnsuredNothing(fs.tree);
  }

  lemma LastPart(names: Path, parts: seq<string>)
    ensures names + NonEmpty(parts[|parts|..]) == names
  {
    assert parts[|parts|..] == [];
  }

  lemma PartOfWhole(t: Tree, u: Tree, names: Path, rest: Path, ok: bool)
    requires WellFormed(t) && Ensured(t, u, names, ok)
    ensures !ok ==> Ensured(t, u, names + rest, false)
    ensures Clear(t, names + rest) ==> Clear(t, names)
  {
    if !ok {
      EnsuredStops(t, u, names, rest);
    }
    if Clear(t, names + rest) {
      ClearPrefix(t, names, rest);
    }
  }

  /** ensure_directory_tree: allow_symlinks is false. */
  method EnsureDirectoryTree(fs: FileSystem, path: string) returns (ok: bool)
    requires fs.Valid()
    modifies fs
    ensures fs.Valid()
    ensures path == "" ==> !ok && fs.tree == old(fs.tree)
    ensures path != "" ==> Ensured(old(fs.tree), fs.tree, Comps(path), ok)
    ensures fs.reliable ==> ok == (path != "" && Clear(old(fs.tree), Comps(path)))
  {
    if path == "" {
      return false;
    }
    var parts := SplitPath(path);
    CompsOfSlash();
    ghost var start := fs.tree;
    ok := EnsureParts(fs, if path[0] == '/' then "/" else "", parts, Comps(path));
    if ok {
      EnsuredClear(start, fs.tree, Comps(path));
    }
  }

  lemma EnsuredAdds(t: Tree, u: Tree, names: seq<string>, ok: bool)
    requires Ensured(t, u, names, ok)
    ensures OnlyDirsAdded(t, u) && Extends(t, u) && (ok ==> RealWay(u, names))
  {
    DirsAddedExtends(t, u);
  }

  /** A link or a file on the way is refused and nothing changes, however the calls go; a way that is
      there already is left as it is. */
  lemma EnsuredAtOnce(t: Tree, u: Tree, names: seq<string>, ok: bool)
    requires Ensured(t, u, names, ok)
    ensures Crossed(t, names) ==> !ok && u == t
    ensures RealWay(t, names) ==> ok && u == t
  {
    if Crossed(t, names) {
      CrossedIsNoGap(t, names);
    }
  }

  lemma GrownFurther(t: Tree, u: Tree, a: Path, b: Path)
    requires Grown(t, u, a) && a <= b
    ensures Grown(t, u, b)
  {
    GrownTwice(t, u, u, a, b);
  }

  /** The directories that must exist before an archive entry can be placed. */
  function Lead(archivePath: string, includeLeaf: bool): (names: Path)
    requires ValidRelative(archivePath)
  {
    ValidRelativeMeaning(archivePath);
    var names := Comps(archivePath);
    if includeLeaf || archivePath[|archivePath| - 1] == '/' then names else Parent(names)
  }

  lemma GrownExtends(t: Tree, u: Tree, p: Path)
    requires Grown(t, u, p)
    ensures Extends(t, u)
  {
    forall k | k in t ensures k in u && u[k] == t[k] {
      assert At(u, k) == At(t, k);
    }
  }

  lemma RootStays(t: Tree, u: Tree, root: string, r: Path)
    requires Extends(t, u) && Where(t, root, true) == Spot(r) && IsDir(t, r)
    ensures Where(u, root, true) == Spot(r) && IsDir(u, r)
  {
    WalkStable(t, u, [], Comps(root), true, MAX_LINKS);
  }

  /** The next component of an archive path, below the root directory r. */
  method EnsurePartBelow(fs: FileSystem, root: string, ghost r: Path, current: string, ghost rel: Path,
                         part: string, ghost start: Tree)
    returns (ok: bool, next: string)
    requires fs.Valid() && Where(start, root, true) == Spot(r) && IsDir(start, r)
    requires Grown(start, fs.tree, r + rel) && IsDir(fs.tree, r + rel)
    requires Comps(current) == Comps(root) + rel && NoDots(rel) && SafeName(part)
    modifies fs
    ensures next == JoinPath(current, part) && Comps(next) == Comps(root) + (rel + [part])
    ensures fs.Valid() && Grown(start, fs.tree, r + (rel + [part]))
    ensures ok ==> IsDir(fs.tree, r + (rel + [part]))
    ensures fs.reliable && OpenWay(start, r + (rel + [part])) ==> ok
  {
    next := JoinPath(current, part);
    CompsOfName(part);
    assert Comps(root) + rel + [part] == Comps(root) + (rel + [part]);
    ghost var before, p := fs.tree, r + (rel + [part]);
    assert Parent(p) == r + rel;
    GrownExtends(start, before, r + rel);
    RootStays(start, before, root, r);
    WhereBelow(fs.tree, root, r, next, rel + [part], false);
    ok := EnsureComponent(fs, next, p);
    GrownTwice(start, before, fs.tree, r + rel, p);
    if OpenWay(start, p) {
      OpenWayGrown(start, before, r + rel, p);
    }
  }

  /** ensure_archive_entry_directory_impl: no component below the root may be a link. */
  method EnsureArchiveEntryDirectory(fs: FileSystem, root: string, ghost r: Path, archivePath: string,
                                     includeLeaf: bool)
    returns (ok: bool)
    requires fs.Valid() && Where(fs.tree, root, true) == Spot(r) && IsDir(fs.tree, r)
    modifies fs
    ensures fs.Valid()
    ensures !ValidRelative(archivePath) ==> !ok && fs.tree == old(fs.tree)
    ensures ValidRelative(archivePath) ==>
              var p := r + Lead(archivePath, includeLeaf);
              && Grown(old(fs.tree), fs.tree, p)
              && (ok ==> IsDir(fs.tree, p))
              && (fs.reliable && OpenWay(old(fs.tree), p) ==> ok)
  {
    ok := ValidateArchiveRelativePath(archivePath);
    if !ok {
      return;
    }
    var parts := SplitPath(archivePath);
    var current := root;
    ghost var names, lead, start := Comps(archivePath), Lead(archivePath, includeLeaf), fs.tree;
    ghost var rel: Path := [];
    assert r + rel == r && Comps(root) + rel == Comps(root);
    for i := 0 to |parts|
      invariant fs.Valid() && Comps(current) == Comps(root) + rel
      invariant rel == names[..if i < |names| then i else |names|]
      invariant rel <= lead && (i == |parts| ==> rel == lead)
      invariant Grown(start, fs.tree, r + rel) && IsDir(fs.tree, r + rel)
    {
      LeadParts(archivePath, includeLeaf, i);
      var isLast := i + 1 == |parts|;
      if parts[i] == "" {
        continue;
      }
      if isLast && !includeLeaf {
        break;
      }
      ok, current := EnsurePartBelow(fs, root, r, current, rel, parts[i], start);
      rel := rel + [parts[i]];
      if !ok {
        StoppedBelow(start, fs.tree, r, rel, lead);
        return;
      }
    }
    ok := true;
  }

  lemma StoppedBelow(t: Tree, u: Tree, r: Path, rel: Path, lead: Path)
    requires Grown(t, u, r + rel) && rel <= lead
    ensures Grown(t, u, r + lead)
    ensures OpenWay(t, r + lead) ==> OpenWay(t, r + rel)
  {
    assert r + rel <= r + lead;
    GrownFurther(t, u, r + rel, r + lead);
    if OpenWay(t, r + lead) {
      OpenWayPrefix(t, r + rel, r + lead);
    }
  }

  /** The parts of an accepted path are its names, perhaps with an empty part behind them. */
  lemma PartsOfValid(path: string, includeLeaf: bool)
    requires ValidRelative(path)
    ensures var parts, names := Split(path), Comps(path);
            && names != [] && SafeNames(names)
            && (parts == names || parts == names + [""])
            && Lead(path, includeLeaf) == if includeLeaf || parts != names then names else Parent(names)
  {
    hide Split, Unsplit, ValidRelative, Comps;
    ValidRelativeMeaning(path);
    var names := Comps(path);
    SplitUnsplit(names);
    UnsplitEnd(names);
    if path == Unsplit(names) + "/" {
      SplitConcat(Unsplit(names), "");
      SplitNoSlash("");
      assert Unsplit(names) + "/" + "" == path;
    }
  }

  /** What the loop over the parts of an accepted path finds at index i. */
  lemma LeadParts(path: string, includeLeaf: bool, i: nat)
    requires ValidRelative(path) && i < |Split(path)|
    ensures var parts, names, lead := Split(path), Comps(path), Lead(path, includeLeaf);
            var rel := names[..if i < |names| then i else |names|];
            && (parts[i] == "" ==> i + 1 == |parts| && rel == names == lead)
            && (parts[i] != "" ==>
                  && i < |names| && SafeName(parts[i]) && NoDots(rel)
                  && rel + [parts[i]] == names[..i + 1]
                  && (i + 1 < |parts| ==> names[..i + 1] <= lead)
                  && (i + 1 == |parts| ==> lead == if includeLeaf then names[..i + 1] else rel))
  {
    PartsOfValid(path, includeLeaf);
    NamesUpTo(Split(path), Comps(path), Lead(path, includeLeaf), includeLeaf, i);
  }

  lemma NamesUpTo(parts: seq<string>, names: Path, lead: Path, includeLeaf: bool, i: nat)
    requires names != [] && SafeNames(names) && (parts == names || parts == names + [""])
    requires lead == if includeLeaf || parts != names then names else Parent(names)
    requires i < |parts|
    ensures var rel := names[..if i < |names| then i else |names|];
            && (parts[i] == "" ==> i + 1 == |parts| && rel == names == lead)
            && (parts[i] != "" ==>
                  && i < |names| && SafeName(parts[i]) && NoDots(rel)
                  && rel + [parts[i]] == names[..i + 1]
                  && (i + 1 < |parts| ==> names[..i + 1] <= lead)
                  && (i + 1 == |parts| ==> lead == if includeLeaf then names[..i + 1] else rel))
  {
    assert names == names[..|names|];
    if i < |names| {
      assert parts[i] == names[i];
      assert names[..i] + [names[i]] == names[..i + 1];
    }
  }

  predicate NamesDir(t: Tree, path: string) {
    StatOf(t, path, true) == Stat(DirE)
  }

  /** The names lead to a directory, links followed. */
  predicate LeadsToDir(t: Tree, names: seq<string>) {
    var s := Walk(t, [], names, true, MAX_LINKS);
    s.Spot? && IsDir(t, s.loc)
  }

  function LedTo(t: Tree, names: seq<string>): Path
    requires LeadsToDir(t, names)
  {
    Walk(t, [], names, true, MAX_LINKS).loc
  }

  /** Where the names lead when what is missing is made. */
  ghost function FollowEnd(t: Tree, names: seq<string>): Path {
    if names == [] then []
    else if LeadsToDir(t, names) then LedTo(t, names)
    else FollowEnd(t, names[..|names| - 1]) + [names[|names| - 1]]
  }

  /** Dots come only where everything leads to a directory. */
  ghost predicate FollowAimed(t: Tree, names: seq<string>) {
    names == [] || LeadsToDir(t, names) ||
    (!IsDots(names[|names| - 1]) && FollowAimed(t, names[..|names| - 1]))
  }

  /** As far as it does not lead to a directory, nothing is in the way. */
  ghost predicate Creatable(t: Tree, names: seq<string>) {
    names == [] || LeadsToDir(t, names) ||
    var above, last := names[..|names| - 1], names[|names| - 1];
    && !IsDots(last)
    && if LeadsToDir(t, above) then LedTo(t, above) + [last] !in t else Creatable(t, above)
  }

  lemma {:induction false} CreatableIsAimed(t: Tree, names: seq<string>)
    requires Creatable(t, names) && WellFormed(t)
    ensures FollowAimed(t, names)
  {
    if names != [] && !LeadsToDir(t, names) {
      var above := names[..|names| - 1];
      if !LeadsToDir(t, above) {
        CreatableIsAimed(t, above);
      }
    }
  }

  lemma LeadsAbove(t: Tree, names: seq<string>, rest: seq<string>)
    requires LeadsToDir(t, names + rest)
    ensures LeadsToDir(t, names)
  {
    WalkPrefix(t, [], names, rest, MAX_LINKS);
  }

  /** Behind a directory, the next name is looked up in it. */
  lemma NextLookup(t: Tree, names: seq<string>, name: string, follow: bool)
    requires LeadsToDir(t, names)
    requires follow ==> !IsLink(t, Step(LedTo(t, names), name))
    ensures Walk(t, [], names + [name], follow, MAX_LINKS) == Spot(Step(LedTo(t, names), name))
  {
    var left := WalkThrough(t, [], names, [name], follow, MAX_LINKS);
    assert [name][1..] == [];
  }

  lemma LeadsStays(t: Tree, u: Tree, names: seq<string>)
    requires Extends(t, u) && LeadsToDir(t, names)
    ensures LeadsToDir(u, names) && LedTo(u, names) == LedTo(t, names)
  {
    WalkStable(t, u, [], names, true, MAX_LINKS);
  }

  /** One component of ensure_directory_tree with allow_symlinks: a link to a directory will do. */
  method EnsureComponentFollowing(fs: FileSystem, current: string, part: string) returns (ok: bool, next: string)
    requires fs.Valid() && LeadsToDir(fs.tree, Comps(current)) && part != "" && '/' !in part
    modifies fs
    ensures next == JoinPath(current, part) && Comps(next) == Comps(current) + [part]
    ensures fs.Valid() && (!ok || LeadsToDir(old(fs.tree), Comps(next)) ==> fs.tree == old(fs.tree))
    ensures LeadsToDir(old(fs.tree), Comps(next)) ==> ok
    ensures var p := Step(LedTo(old(fs.tree), Comps(current)), part);
            && (ok && !LeadsToDir(old(fs.tree), Comps(next)) ==>
                  p !in old(fs.tree) && fs.tree == old(fs.tree)[p := DirE])
            && (fs.reliable && p !in old(fs.tree) ==> ok)
  {
    next := JoinPath(current, part);
    CompsOfName(part);
    var status := fs.Lstat(next);
    ghost var before := fs.tree;
    NextLookup(before, Comps(current), part, false);
    if LeadsToDir(before, Comps(next)) {
      WalkNotFollowing(before, [], Comps(next), MAX_LINKS);
    }
    if !status.Stat? {
      ok := fs.Mkdir(next);
      return;
    }
    var followed := fs.Stat(next);
    ok := followed == Stat(DirE);
  }

  /** The tree so far: the names lead to a directory that was reached by adding directories only. */
  ghost predicate Followed(start: Tree, t: Tree, names: seq<string>) {
    && WellFormed(t) && OnlyDirsAdded(start, t) && LeadsToDir(t, names)
    && (LeadsToDir(start, names) ==> t == start)
    && (FollowAimed(start, names) ==>
          Grown(start, t, FollowEnd(start, names)) && LedTo(t, names) == FollowEnd(start, names))
    && (FollowAimed(start, names) && !LeadsToDir(start, names) ==> FollowEnd(start, names) !in start)
  }

  lemma EndsNext(t: Tree, names: seq<string>, part: string)
    ensures var next := names + [part];
            && (LeadsToDir(t, next) ==> LeadsToDir(t, names) && FollowEnd(t, next) == LedTo(t, next))
            && (!LeadsToDir(t, next) ==> FollowEnd(t, next) == FollowEnd(t, names) + [part])
            && (!LeadsToDir(t, next) && FollowAimed(t, next) ==> !IsDots(part) && FollowAimed(t, names))
            && (!LeadsToDir(t, next) && Creatable(t, next) ==> !IsDots(part) && Creatable(t, names))
            && (!LeadsToDir(t, next) && Creatable(t, next) && LeadsToDir(t, names) ==> LedTo(t, names) + [part] !in t)
  {
    var next := names + [part];
    assert next[..|next| - 1] == names && next[|next| - 1] == part;
    assert [] + [part] == [part];
    if LeadsToDir(t, next) {
      LeadsAbove(t, names, [part]);
    }
  }

  lemma EndsAtDir(t: Tree, names: seq<string>)
    requires LeadsToDir(t, names)
    ensures FollowEnd(t, names) == LedTo(t, names) && FollowAimed(t, names)
  {
  }

  /** The next component was there already. */
  lemma FollowedThrough(start: Tree, t: Tree, names: seq<string>, part: string)
    requires WellFormed(start) && Followed(start, t, names) && LeadsToDir(t, names + [part])
    ensures Followed(start, t, names + [part])
  {
    hide FollowEnd, FollowAimed, Creatable;
    EndsNext(start, names, part);
    var next := names + [part];
    if LeadsToDir(start, next) {
      EndsAtDir(start, next);
    } else if FollowAimed(start, next) {
      var p := LedTo(t, names) + [part];
      if p !in t {
        NextLookup(t, names, part, true);
      }
      assert At(t, p) == At(start, p);
      if !LeadsToDir(start, names) {
        NothingBelowFree(start, FollowEnd(start, names), part);
      }
    }
  }

  /** The next component was made. */
  lemma FollowedMade(start: Tree, t: Tree, u: Tree, names: seq<string>, part: string)
    requires WellFormed(start) && Followed(start, t, names) && !LeadsToDir(t, names + [part]) && WellFormed(u)
    requires var p := Step(LedTo(t, names), part); p !in t && u == t[p := DirE]
    ensures Followed(start, u, names + [part])
  {
    hide FollowEnd, FollowAimed, Creatable;
    EndsNext(start, names, part);
    var next, p := names + [part], Step(LedTo(t, names), part);
    assert OnlyDirsAdded(t, u);
    OnlyDirsAddedTwice(start, t, u);
    DirsAddedExtends(t, u);
    LeadsStays(t, u, names);
    NextLookup(u, names, part, true);
    if FollowAimed(start, next) {
      assert At(start, p) == At(t, p) || At(t, p) == Some(DirE);
      GrownTwice(start, t, u, FollowEnd(start, names), p);
    }
  }

  lemma FollowedStops(start: Tree, t: Tree, names: seq<string>, rest: seq<string>)
    requires WellFormed(start) && Followed(start, t, names)
    ensures FollowAimed(start, names + rest) ==> Grown(start, t, FollowEnd(start, names + rest))
  {
    if LeadsToDir(start, names) {
    } else if FollowAimed(start, names + rest) {
      EndsFurther(start, names, rest);
      GrownFurther(start, t, FollowEnd(start, names), FollowEnd(start, names + rest));
    }
  }

  lemma {:induction false} EndsFurther(t: Tree, names: seq<string>, rest: seq<string>)
    requires !LeadsToDir(t, names) && FollowAimed(t, names + rest)
    ensures FollowAimed(t, names) && FollowEnd(t, names + rest) == FollowEnd(t, names) + rest
  {
    if rest == [] {
      assert names + rest == names && FollowEnd(t, names) + rest == FollowEnd(t, names);
    } else {
      var above, last := rest[..|rest| - 1], rest[|rest| - 1];
      assert names + rest == (names + above) + [last];
      if LeadsToDir(t, names + rest) {
        LeadsAbove(t, names, rest);
      }
      EndsNext(t, names + above, last);
      EndsFurther(t, names, above);
      assert FollowEnd(t, names) + above + [last] == FollowEnd(t, names) + rest;
    }
  }

  lemma {:induction false} CreatableAbove(t: Tree, names: seq<string>, rest: seq<string>)
    requires Creatable(t, names + rest)
    ensures Creatable(t, names)
    decreases |rest|
  {
    if rest == [] {
      assert names + rest == names;
    } else {
      var above, last := rest[..|rest| - 1], rest[|rest| - 1];
      assert names + rest == (names + above) + [last];
      EndsNext(t, names + above, last);
      CreatableAbove(t, names, above);
    }
  }

  method FollowPart(fs: FileSystem, current: string, part: string, ghost start: Tree)
    returns (ok: bool, next: string)
    requires WellFormed(start) && Followed(start, fs.tree, Comps(current)) && part != "" && '/' !in part
    modifies fs
    ensures next == JoinPath(current, part) && Comps(next) == Comps(current) + [part] && fs.Valid()
    ensures ok ==> Followed(start, fs.tree, Comps(next))
    ensures !ok ==> fs.tree == old(fs.tree) && !LeadsToDir(start, Comps(next))
    ensures fs.reliable && Creatable(start, Comps(next)) ==> ok
  {
    hide FollowEnd, FollowAimed, Creatable;
    ghost var before, names := fs.tree, Comps(current);
    EndsNext(start, names, part);
    if Creatable(start, names) {
      CreatableIsAimed(start, names);
    }
    if LeadsToDir(start, names) {
      EndsAtDir(start, names);
    }
    FreeAhead(start, before, names, part);
    ok, next := EnsureComponentFollowing(fs, current, part);
    if ok && LeadsToDir(before, Comps(next)) {
      FollowedThrough(start, before, names, part);
    } else if ok {
      FollowedMade(start, before, fs.tree, names, part);
    }
  }

  lemma NothingBelowFree(t: Tree, p: Path, name: string)
    requires WellFormed(t) && p !in t
    ensures p + [name] !in t
  {
    assert Parent(p + [name]) == p;
  }

  lemma FreeAhead(start: Tree, t: Tree, names: seq<string>, part: string)
    requires WellFormed(start) && Followed(start, t, names)
    ensures Creatable(start, names + [part]) && !LeadsToDir(start, names + [part]) ==>
              !IsDots(part) && LedTo(t, names) + [part] !in t
  {
    hide FollowEnd, FollowAimed, Creatable;
    EndsNext(start, names, part);
    if Creatable(start, names + [part]) && !LeadsToDir(start, names + [part]) && !LeadsToDir(start, names) {
      CreatableIsAimed(start, names);
      var p := LedTo(t, names) + [part];
      NothingBelowFree(start, FollowEnd(start, names), part);
      assert At(t, p) == At(start, p);
    }
  }

  method FollowParts(fs: FileSystem, first: string, parts: seq<string>, ghost whole: Path)
    returns (ok: bool)
    requires fs.Valid() && Comps(first) == []
    requires NonEmpty(parts) == whole && forall i | 0 <= i < |parts| :: '/' !in parts[i]
    modifies fs
    ensures fs.Valid() && OnlyDirsAdded(old(fs.tree), fs.tree)
    ensures ok ==> Followed(old(fs.tree), fs.tree, whole)
    ensures FollowAimed(old(fs.tree), whole) ==> Grown(old(fs.tree), fs.tree, FollowEnd(old(fs.tree), whole))
    ensures LeadsToDir(old(fs.tree), whole) ==> ok
    ensures fs.reliable && Creatable(old(fs.tree), whole) ==> ok
  {
    hide *;
    var last := first;
    ghost var start := fs.tree;
    FirstFollowed(fs, parts, whole);
    for i := 0 to |parts|
      invariant Comps(last) + NonEmpty(parts[i..]) == whole
      invariant fs.Valid() && WellFormed(start) && Followed(start, fs.tree, Comps(last))
    {
      NextPart(last, parts, i, whole);
      if parts[i] == "" {
        continue;
      }
      ghost var rest := NonEmpty(parts[i + 1..]);
      ghost var here := [parts[i]] + rest;
      FollowingPart(start, fs.tree, Comps(last), parts[i], rest, whole);
      ok, last := FollowPart(fs, last, parts[i], start);
      if !ok {
        return;
      }
    }
    LastPart(Comps(last), parts);
    FollowedWhole(start, fs.tree, whole);
    ok := true;
  }

  lemma FirstFollowed(fs: FileSystem, parts: seq<string>, whole: Path)
    requires fs.Valid() && NonEmpty(parts) == whole
    ensures [] + NonEmpty(parts[0..]) == whole
    ensures WellFormed(fs.tree) && Followed(fs.tree, fs.tree, [])
  {
    assert parts[0..] == parts;
  }

  lemma FollowingPart(start: Tree, t: Tree, names: Path, part: string, rest: Path, whole: Path)
    requires WellFormed(start) && Followed(start, t, names) && names + [part] + rest == whole
    ensures OnlyDirsAdded(start, t)
    ensures FollowAimed(start, whole) ==> Grown(start, t, FollowEnd(start, whole))
    ensures LeadsToDir(start, whole) ==> LeadsToDir(start, names + [part])
    ensures Creatable(start, whole) ==> Creatable(start, names + [part])
  {
    hide FollowEnd, FollowAimed, Creatable;
    assert names + ([part] + rest) == whole;
    FollowedStops(start, t, names, [part] + rest);
    if LeadsToDir(start, whole) {
      LeadsAbove(start, names + [part], rest);
    }
    if Creatable(start, whole) {
      CreatableAbove(start, names + [part], rest);
    }
  }

  lemma FollowedWhole(start: Tree, t: Tree, whole: Path)
    requires WellFormed(start) && Followed(start, t, whole)
    ensures OnlyDirsAdded(start, t)
    ensures FollowAimed(start, whole) ==> Grown(start, t, FollowEnd(start, whole))
  {
  }

  /** ensure_directory_tree_following_existing_symlinks. */
  method EnsureDirectoryTreeFollowing(fs: FileSystem, path: string) returns (ok: bool)
    requires fs.Valid()
    modifies fs
    ensures fs.Valid() && OnlyDirsAdded(old(fs.tree), fs.tree)
    ensures ok ==> path != "" && NamesDir(fs.tree, path)
    ensures path == "" ==> fs.tree == old(fs.tree)
    ensures FollowAimed(old(fs.tree), Comps(path)) ==>
              Grown(old(fs.tree), fs.tree, FollowEnd(old(fs.tree), Comps(path)))
    ensures FollowAimed(old(fs.tree), Comps(path)) && ok ==>
              Where(fs.tree, path, true) == Spot(FollowEnd(old(fs.tree), Comps(path)))
    ensures path != "" && NamesDir(old(fs.tree), path) ==> ok && fs.tree == old(fs.tree)
    ensures fs.reliable && path != "" && Creatable(old(fs.tree), Comps(path)) ==> ok
  {
    if path == "" {
      return false;
    }
    var parts := SplitPath(path);
    CompsOfSlash();
    ok := FollowParts(fs, if path[0] == '/' then "/" else "", parts, Comps(path));
  }

  // ---- The directory part of a file path ----

  function LastSlash(path: string): (index: int)
    ensures -1 <= index < |path|
    ensures index >= 0 ==> path[index] == '/'
    ensures forall i | index < i < |path| :: path[i] != '/'
  {
    if path == "" then -1
    else if path[|path| - 1] == '/' then |path| - 1
    else LastSlash(path[..|path| - 1])
  }

  lemma DirectoryPart(path: string)
    requires NoTrailingSlash(path)
    ensures Comps(path) != []
    ensures var index := LastSlash(path);
            Parent(Comps(path)) == if index < 0 then [] else Comps(path[..index])
  {
    var index := LastSlash(path);
    if index < 0 {
      CompsOfName(path);
    } else {
      var directory, name := path[..index], path[index + 1..];
      assert path == directory + "/" + name;
      CompsOfName(name);
      CompsOfConcat(directory, name);
    }
  }

  /** The part of a path in front of its last slash. */
  function DirectoryOf(path: string): string {
    if LastSlash(path) < 0 then "" else path[..LastSlash(path)]
  }

  lemma ParentWay(path: string)
    requires NoTrailingSlash(path)
    ensures Comps(path) != [] && Comps(DirectoryOf(path)) == Parent(Comps(path))
  {
    DirectoryPart(path);
    CompsOfSlash();
  }

  /** ensure_parent_directories: every directory in front of the last slash, no link among them. */
  method EnsureParentDirectories(fs: FileSystem, path: string) returns (ok: bool)
    requires fs.Valid()
    modifies fs
    ensures fs.Valid() && Ensured(old(fs.tree), fs.tree, Comps(DirectoryOf(path)), ok)
    ensures fs.reliable ==> ok == Clear(old(fs.tree), Comps(DirectoryOf(path)))
  {
    var index := LastSlash(path);
    var directory := DirectoryOf(path);
    if index < 0 || directory == "" {
      CompsOfSlash();
      EnsuredNothing(fs.tree);
      EnsuredClear(fs.tree, fs.tree, []);
      return true;
    }
    ok := EnsureDirectoryTree(fs, directory);
  }
}
