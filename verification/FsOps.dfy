/** Recursive copy and removal, and moving with a copy as the fallback (src/fs_ops.cpp). */
module FsOps {
  import opened Bytes
  import opened Paths
  import opened FileTree
  import opened PathWalk
  import opened Ways
  import opened FileSystem
  import opened PathSafety

  const FILE_BUFFER_SIZE: nat := 64 * 1024

  function Elems(names: seq<string>): set<string> {
    set n | n in names
  }

  /** The nodes at and below p. */
  ghost function Below(t: Tree, p: Path): set<Path> {
    set k | k in t && p <= k
  }

  /** What a recursion over the path has left to visit. */
  ghost function Pending(t: Tree, source: string): set<Path> {
    if Found(t, source) then Below(t, SourceLoc(t, source)) else {}
  }

  ghost predicate NoLinksAt(t: Tree, p: Path) {
    forall k | p <= k :: !IsLink(t, k)
  }

  /** Only the subtree at b is new, apart from directories added above it. */
  ghost predicate MadeAt(t: Tree, u: Tree, b: Path) {
    forall k {:trigger At(u, k)} | !(b <= k) :: At(u, k) == At(t, k) || (k !in t && k < b && At(u, k) == Some(DirE))
  }

  lemma GrownMadeAt(t: Tree, u: Tree, b: Path)
    requires b != [] && Grown(t, u, Parent(b)) && b !in t
    ensures MadeAt(t, u, b) && b !in u
  {
    assert !(b <= Parent(b));
    assert At(u, b) == At(t, b);
  }

  lemma SubtreeBesideMadeAt(t: Tree, u: Tree, a: Path, b: Path)
    requires MadeAt(t, u, b) && Apart(a, b)
    ensures forall k | a <= k :: At(u, k) == At(t, k)
    ensures Subtree(u, a) == Subtree(t, a)
  {
    forall k | a <= k ensures At(u, k) == At(t, k) {
      if b <= k {
        PrefixesMeet(a, b, k);
      }
    }
    SameSubtree(u, t, a);
  }

  /** Everything except the node at p is as before. */
  ghost predicate OthersKept(t: Tree, u: Tree, p: Path) {
    forall k {:trigger At(u, k)} {:trigger At(t, k)} | k != p :: At(u, k) == At(t, k)
  }

  /** The write loop: appends a whole buffer in as many short writes as it takes. */
  method WriteBuffer(fs: FileSystem, fd: Path, buffer: seq<byte>) returns (ok: bool)
    requires fs.Valid() && fd in fs.tree && fs.tree[fd].FileE?
    modifies fs
    ensures fs.Valid() && OthersKept(old(fs.tree), fs.tree, fd)
    ensures fd in fs.tree && fs.tree[fd].FileE?
    ensures ok ==> fs.tree[fd].bytes == old(fs.tree[fd].bytes) + buffer
    ensures fs.reliable ==> ok
  {
    var totalWritten := 0;
    while totalWritten < |buffer|
      invariant fs.Valid() && totalWritten <= |buffer| && OthersKept(old(fs.tree), fs.tree, fd)
      invariant fd in fs.tree && fs.tree[fd].FileE?
      invariant fs.tree[fd].bytes == old(fs.tree[fd].bytes) + buffer[..totalWritten]
    {
      var count := fs.Write(fd, buffer[totalWritten..]);
      if count < 0 {
        return false;
      }
      assert buffer[..totalWritten] + buffer[totalWritten..][..count] == buffer[..totalWritten + count];
      totalWritten := totalWritten + count;
    }
    ok := true;
  }

  method CopyBytes(fs: FileSystem, sourceFd: Path, destinationFd: Path) returns (ok: bool)
    requires fs.Valid() && sourceFd in fs.tree && fs.tree[sourceFd].FileE?
    requires At(fs.tree, destinationFd) == Some(FileE([]))
    modifies fs
    ensures fs.Valid() && OthersKept(old(fs.tree), fs.tree, destinationFd)
    ensures ok ==> At(fs.tree, destinationFd) == At(old(fs.tree), sourceFd)
    ensures fs.reliable ==> ok
  {
    ghost var content := fs.tree[sourceFd].bytes;
    var offset := 0;
    while true
      invariant fs.Valid() && offset <= |content| && OthersKept(old(fs.tree), fs.tree, destinationFd)
      invariant At(fs.tree, destinationFd) == Some(FileE(content[..offset]))
      decreases |content| - offset
    {
      assert At(fs.tree, sourceFd) == Some(FileE(content));
      var chunk;
      ok, chunk := fs.Read(sourceFd, offset, FILE_BUFFER_SIZE);
      if !ok {
        return;
      }
      if chunk == [] {
        break;
      }
      ok := WriteBuffer(fs, destinationFd, chunk);
      if !ok {
        return;
      }
      assert content[..offset] + chunk == content[..offset + |chunk|];
      offset := offset + |chunk|;
    }
    assert content[..offset] == content;
  }

  // ---- Destinations ----

  /** The place of a path, its dots resolved. */
  function Goal(path: string): Path {
    End(Comps(path))
  }

  /** The path aims at a free place. */
  ghost predicate FreeAim(t: Tree, path: string) {
    NoTrailingSlash(path) && Aimed(t, Comps(path)) && Goal(path) !in t
  }

  /** The directory of such a path, and the name behind it. */
  lemma FreeName(t: Tree, path: string)
    requires FreeAim(t, path)
    ensures Comps(path) != [] && Comps(path) == Comps(DirectoryOf(path)) + [Comps(path)[|Comps(path)| - 1]]
    ensures !IsDots(Comps(path)[|Comps(path)| - 1]) && Aimed(t, Comps(DirectoryOf(path)))
    ensures Goal(path) != [] && Parent(Goal(path)) == Goal(DirectoryOf(path))
    ensures Goal(path) == Goal(DirectoryOf(path)) + [Comps(path)[|Comps(path)| - 1]]
  {
    hide Comps, End, RealWay;
    ParentWay(path);
    var names := Comps(path);
    var above, last := Parent(names), names[|names| - 1];
    assert names == above + [last];
    EndNext(above, last);
    AimedPrefix(t, names, |above|);
    assert names[..|above|] == above;
    if IsDots(last) {
      AimedDots(t, names);
    }
  }

  /** Once its directory is there, the path names its goal. */
  lemma GoalNamed(t: Tree, g: Tree, path: string, follow: bool)
    requires FreeAim(t, path) && WellFormed(g) && RealWay(g, Comps(DirectoryOf(path)))
    requires follow ==> !IsLink(g, Goal(path))
    ensures Where(g, path, follow) == Spot(Goal(path)) && Goal(path) != [] && IsDir(g, Parent(Goal(path)))
  {
    FreeName(t, path);
    var above, last := Comps(DirectoryOf(path)), Comps(path)[|Comps(path)| - 1];
    RealWalk(g, above, true, MAX_LINKS);
    NextWalk(g, above, last, follow, MAX_LINKS);
    RealPrefix(g, above, |above|);
    Whole(above);
  }

  lemma ParentsMade(t: Tree, g: Tree, path: string, ok: bool)
    requires FreeAim(t, path) && Ensured(t, g, Comps(DirectoryOf(path)), ok)
    ensures Goal(path) != [] && Grown(t, g, Parent(Goal(path))) && MadeAt(t, g, Goal(path)) && Goal(path) !in g
  {
    FreeName(t, path);
    GrownMadeAt(t, g, Goal(path));
  }

  lemma ParentsClear(t: Tree, path: string)
    requires FreeAim(t, path) && Goal(path) != [] && OpenWay(t, Parent(Goal(path)))
    ensures Clear(t, Comps(DirectoryOf(path)))
  {
    FreeName(t, path);
    AimedClear(t, Comps(DirectoryOf(path)));
  }

  /** The file that a copy writes, once the directories exist (g). */
  ghost predicate WrittenTo(g: Tree, u: Tree, destination: string) {
    var d := Where(g, destination, true);
    u == g || (d.Spot? && OthersKept(g, u, d.loc))
  }

  /** copy_regular_file; a destination that exists is overwritten, even if it is the source. */
  method CopyRegularFile(fs: FileSystem, source: string, destination: string) returns (ok: bool, ghost g: Tree)
    requires fs.Valid() && Found(fs.tree, source) && fs.tree[SourceLoc(fs.tree, source)].FileE?
    modifies fs
    ensures fs.Valid() && OnlyDirsAdded(old(fs.tree), g) && WrittenTo(g, fs.tree, destination)
    ensures Crossed(old(fs.tree), Comps(DirectoryOf(destination))) ==> !ok && fs.tree == old(fs.tree)
    ensures var a, d := SourceLoc(old(fs.tree), source), Where(g, destination, true);
            ok ==> d.Spot? && At(fs.tree, d.loc) == if d.loc == a then Some(FileE([])) else At(old(fs.tree), a)
    ensures FreeAim(old(fs.tree), destination) ==>
              var t, a, b := old(fs.tree), SourceLoc(old(fs.tree), source), Goal(destination);
              && MadeAt(t, fs.tree, b)
              && (ok ==> At(fs.tree, b) == At(t, a) && b != [] && IsDir(fs.tree, Parent(b)))
              && (fs.reliable && OpenWay(t, Parent(b)) ==> ok)
  {
    hide RealWay, End, Aimed, Gap, Crossed, Walk, Clear, Ensured, Grown;
    ghost var a, start, aimed := SourceLoc(fs.tree, source), fs.tree, FreeAim(fs.tree, destination);
    ok := EnsureParentDirectories(fs, destination);
    g := fs.tree;
    EnsuredAtOnce(start, g, Comps(DirectoryOf(destination)), ok);
    EnsuredAdds(start, g, Comps(DirectoryOf(destination)), ok);
    if aimed {
      ParentsMade(start, g, destination, ok);
      if OpenWay(start, Parent(Goal(destination))) {
        ParentsClear(start, destination);
      }
    }
    if !ok {
      return;
    }
    DirsAddedExtends(start, g);
    FoundStays(start, g, source);
    FoundNoLink(g, source);
    var sourceFd, destinationFd;
    ok, sourceFd := fs.OpenRead(source);
    if aimed {
      GoalNamed(start, g, destination, true);
    }
    if !ok {
      return;
    }
    ok, destinationFd := fs.OpenWriteTrunc(destination);
    if !ok {
      return;
    }
    ghost var created := fs.tree;
    ok := CopyBytes(fs, sourceFd, destinationFd);
    WrittenTwice(g, created, fs.tree, destinationFd);
    if aimed {
      WrittenMadeAt(start, g, created, fs.tree, Goal(destination));
    }
  }

  lemma WrittenTwice(t: Tree, u: Tree, v: Tree, p: Path)
    requires OthersKept(t, u, p) && OthersKept(u, v, p)
    ensures OthersKept(t, v, p)
  {
    forall k | k != p ensures At(v, k) == At(t, k) {
      assert At(u, k) == At(t, k);
    }
  }

  lemma WrittenMadeAt(start: Tree, grown: Tree, created: Tree, last: Tree, b: Path)
    requires MadeAt(start, grown, b) && OthersKept(grown, created, b) && OthersKept(created, last, b)
    ensures MadeAt(start, last, b)
  {
    forall k | !(b <= k) ensures At(last, k) == At(grown, k) {
      assert At(created, k) == At(grown, k);
    }
  }

  // ---- Recursive copy ----

  /** The children in done have been copied from a to the new directory at b, the others not. */
  ghost predicate CopiedChildren(t: Tree, u: Tree, a: Path, b: Path, done: set<string>) {
    && (forall k {:trigger At(u, k)} | !(b <= k) :: At(u, k) == At(t, k))
    && At(u, b) == Some(DirE)
    && (forall q {:trigger b + q} | q != [] :: At(u, b + q) == if q[0] in done then At(t, a + q) else None)
  }

  lemma CopyStarts(t: Tree, u: Tree, a: Path, b: Path)
    requires WellFormed(t) && WellFormed(u) && Grown(t, u, b) && IsDir(u, b) && b !in t
    ensures CopiedChildren(u, u, a, b, {})
  {
    EmptySubtree(t, b);
    forall q: Path | q != [] ensures b + q !in u {
      assert At(u, b + q) == At(t, b + q);
    }
  }

  /** Making a child of an existing directory adds nothing elsewhere. */
  lemma OnlyChildMade(u: Tree, v: Tree, b: Path, name: string)
    requires WellFormed(u) && b in u && MadeAt(u, v, b + [name])
    ensures forall k | !(b + [name] <= k) :: At(v, k) == At(u, k)
    ensures forall k | !(b <= k) :: At(v, k) == At(u, k)
  {
    var b' := b + [name];
    forall k | !(b' <= k) ensures At(v, k) == At(u, k) {
      if k < b' && k != b {
        assert k < b;
        AncestorIsDir(u, k, b);
      }
    }
    assert b <= b';
  }

  lemma CopyContinues(t: Tree, u: Tree, v: Tree, a: Path, b: Path, done: set<string>, name: string)
    requires WellFormed(u) && Apart(a, b) && CopiedChildren(t, u, a, b, done) && name !in done
    requires MadeAt(u, v, b + [name]) && Subtree(v, b + [name]) == Subtree(u, a + [name])
    ensures CopiedChildren(t, v, a, b, done + {name})
  {
    var b' := b + [name];
    OnlyChildMade(u, v, b, name);
    forall q: Path | q != [] ensures At(v, b + q) == if q[0] in done + {name} then At(t, a + q) else None {
      if q[0] == name {
        var rest := q[1..];
        assert b + q == b' + rest && a + q == a + [name] + rest;
        assert rest in Subtree(v, b') <==> rest in Subtree(u, a + [name]);
        assert At(v, b + q) == At(u, a + q);
        if b <= a + q {
          PrefixesMeet(a, b, a + q);
        }
      } else {
        assert (b + q)[|b|] == q[0];
        assert !(b' <= b + q);
      }
    }
  }

  lemma CopyEnds(t: Tree, u: Tree, a: Path, b: Path)
    requires WellFormed(t) && IsDir(t, a) && Apart(a, b)
    requires CopiedChildren(t, u, a, b, ChildNames(t, a))
    ensures Subtree(u, b) == Subtree(t, a)
  {
    forall q: Path ensures At(u, b + q) == At(t, a + q) {
      if q == [] {
        assert b + q == b && a + q == a;
      } else if a + q in t {
        TopNameIsChild(t, a, q);
      }
    }
    assert forall q :: q in Subtree(u, b) <==> q in Subtree(t, a);
  }

  lemma TopNameIsChild(t: Tree, a: Path, q: Path)
    requires WellFormed(t) && q != [] && a + q in t
    ensures q[0] in ChildNames(t, a)
  {
    var child := a + [q[0]];
    if |q| == 1 {
      assert a + q == child;
    } else {
      assert child < a + q;
      AncestorIsDir(t, child, a + q);
    }
    assert child[|a|] in ChildNames(t, a);
  }

  lemma ChildIsThere(t: Tree, a: Path, name: string)
    requires WellFormed(t) && name in ChildNames(t, a)
    ensures a + [name] in t && SafeName(name)
  {
    var k :| k in t && |k| == |a| + 1 && a <= k && k[|a|] == name;
    assert k == a + [name] && SafeNames(k);
  }

  /** The destination is a free place, and not inside the source. */
  ghost predicate Copyable(t: Tree, source: string, destination: string) {
    && FreeAim(t, destination)
    && (Found(t, source) ==> !(SourceLoc(t, source) <= Goal(destination)))
  }

  lemma CopyableApart(t: Tree, source: string, destination: string)
    requires WellFormed(t) && Copyable(t, source, destination) && Found(t, source)
    ensures Apart(SourceLoc(t, source), Goal(destination))
  {
    EmptySubtree(t, Goal(destination));
  }

  /** The destination holds a copy of a link-free source, and only it is new. */
  ghost predicate Copied(t: Tree, u: Tree, a: Path, b: Path) {
    && a in t && NoLinksAt(t, a)
    && Subtree(u, b) == Subtree(t, a)
    && b != [] && IsDir(u, Parent(b))
  }

  /** copy_path_recursive_impl. */
  method CopyPathRecursiveImpl(fs: FileSystem, source: string, destination: string) returns (ok: bool)
    requires fs.Valid() && Copyable(fs.tree, source, destination)
    modifies fs
    ensures fs.Valid() && MadeAt(old(fs.tree), fs.tree, Goal(destination))
    ensures ok ==> Found(old(fs.tree), source) &&
                   Copied(old(fs.tree), fs.tree, SourceLoc(old(fs.tree), source), Goal(destination))
    ensures (fs.reliable && Found(old(fs.tree), source) && NoLinksAt(old(fs.tree), SourceLoc(old(fs.tree), source)) &&
             Goal(destination) != [] && OpenWay(old(fs.tree), Parent(Goal(destination)))) ==> ok
    decreases Pending(fs.tree, source), 3
  {
    hide End, Aimed, RealWay;
    ghost var a, b := SourceLoc(fs.tree, source), Goal(destination);
    var status := fs.Lstat(source);
    if !status.Stat? {
      return false;
    }
    match status.entry
    case LinkE(_) =>
      assert IsLink(fs.tree, a);
      ok := false;
    case FileE(_) =>
      ghost var start := fs.tree;
      ghost var g;
      ok, g := CopyRegularFile(fs, source, destination);
      if ok {
        FileCopied(start, fs.tree, a, b);
      }
    case DirE =>
      ok := CopyDirectory(fs, source, destination, a);
  }

  /** A file has nothing below it, so copying the node copies the subtree. */
  lemma FileCopied(t: Tree, u: Tree, a: Path, b: Path)
    requires WellFormed(t) && WellFormed(u) && a in t && t[a].FileE? && At(u, b) == At(t, a)
    ensures NoLinksAt(t, a) && Subtree(u, b) == Subtree(t, a)
  {
    FileHasNothingBelow(t, a);
    FileHasNothingBelow(u, b);
    forall q: Path ensures At(u, b + q) == At(t, a + q) {
      if q == [] {
        assert b + q == b && a + q == a;
      }
    }
    assert forall q :: q in Subtree(u, b) <==> q in Subtree(t, a);
  }

  lemma FileHasNothingBelow(t: Tree, a: Path)
    requires WellFormed(t) && a in t && t[a].FileE?
    ensures forall k | a < k :: k !in t
    ensures forall k | a <= k && k in t :: k == a
  {
    forall k | a <= k && k in t ensures k == a {
      if a < k {
        AncestorIsDir(t, a, k);
      }
    }
  }

  /** The directory case of copy_path_recursive_impl, whatever order readdir answers in. */
  method CopyDirectory(fs: FileSystem, source: string, destination: string, ghost a: Path) returns (ok: bool)
    requires fs.Valid() && Copyable(fs.tree, source, destination)
    requires Found(fs.tree, source) && SourceLoc(fs.tree, source) == a && IsDir(fs.tree, a)
    modifies fs
    ensures fs.Valid() && MadeAt(old(fs.tree), fs.tree, Goal(destination))
    ensures ok ==> Copied(old(fs.tree), fs.tree, a, Goal(destination))
    ensures var b := Goal(destination);
            (fs.reliable && NoLinksAt(old(fs.tree), a) && b != [] && OpenWay(old(fs.tree), Parent(b))) ==> ok
    decreases Pending(fs.tree, source), 2
  {
    hide End, Aimed, Walk;
    ghost var b, start := Goal(destination), fs.tree;
    CopyableApart(start, source, destination);
    FreeName(start, destination);
    ok := EnsureDirectoryTree(fs, destination);
    ghost var made := fs.tree;
    DestinationMade(start, made, destination, ok);
    SubtreeBesideMadeAt(start, made, a, b);
    if !ok {
      return;
    }
    DirsAddedExtends(start, made);
    FoundStays(start, made, source);
    FoundNoLink(made, source);
    var names;
    ok, names := fs.ListDirectory(source);
    if !ok {
      return;
    }
    CopyStarts(start, made, a, b);
    ChildrenSame(start, made, a);
    forall name | NoLinksAt(made, a) ensures NoLinksAt(made, a + [name]) {
      NoLinksAbove(made, a, name);
    }
    ok := CopyChildren(fs, source, destination, a, names, made);
    if ok {
      CopyEnds(made, fs.tree, a, b);
      NoLinksInChildren(made, a);
    }
  }

  lemma DestinationMade(t: Tree, u: Tree, destination: string, ok: bool)
    requires WellFormed(t) && WellFormed(u) && FreeAim(t, destination) && Ensured(t, u, Comps(destination), ok)
    ensures Grown(t, u, Goal(destination)) && MadeAt(t, u, Goal(destination))
    ensures ok ==> IsDir(u, Goal(destination)) && IsDir(u, Parent(Goal(destination)))
    ensures OpenWay(t, Parent(Goal(destination))) ==> Clear(t, Comps(destination))
  {
    FreeName(t, destination);
    GrownAboveMadeAt(t, u, Goal(destination));
    if ok {
      RealPrefix(u, Comps(destination), |Comps(destination)|);
      Whole(Comps(destination));
    }
    if OpenWay(t, Parent(Goal(destination))) {
      OpenWayToFree(t, Goal(destination));
      AimedClear(t, Comps(destination));
    }
  }

  /** The directories of a copy in progress: made is the tree when the new one was still empty. */
  ghost predicate Copying(made: Tree, source: string, destination: string, a: Path) {
    var b := Goal(destination);
    && WellFormed(made) && Where(made, source, true) == Spot(a) && IsDir(made, a) && Apart(a, b)
    && NoTrailingSlash(destination) && RealWay(made, Comps(destination)) && CopiedChildren(made, made, a, b, {})
  }

  /** The loop over the children. */
  method CopyChildren(fs: FileSystem, source: string, destination: string, ghost a: Path, names: seq<string>,
                      ghost made: Tree)
    returns (ok: bool)
    requires fs.Valid() && made == fs.tree && Copying(made, source, destination, a)
    requires Enumerates(names, ChildNames(made, a))
    modifies fs
    ensures fs.Valid() && (forall k | !(Goal(destination) <= k) :: At(fs.tree, k) == At(made, k))
    ensures ok ==> CopiedChildren(made, fs.tree, a, Goal(destination), ChildNames(made, a))
    ensures ok ==> forall name | name in ChildNames(made, a) :: NoLinksAt(made, a + [name])
    ensures fs.reliable && (forall name | name in ChildNames(made, a) :: NoLinksAt(made, a + [name])) ==> ok
    decreases Below(fs.tree, a), 1
  {
    hide RealWay, End, Walk, Comps, Aimed;
    ghost var b := Goal(destination);
    assert names[..0] == [];
    for i := 0 to |names|
      invariant fs.Valid() && CopiedChildren(made, fs.tree, a, b, Elems(names[..i]))
      invariant forall j | 0 <= j < i :: NoLinksAt(made, a + [names[j]])
    {
      SourceUntouched(made, fs.tree, a, b, Elems(names[..i]));
      ChildrenSame(made, fs.tree, a);
      ok := CopyChild(fs, source, destination, a, names[i], made, Elems(names[..i]));
      if !ok {
        return;
      }
      assert Elems(names[..i + 1]) == Elems(names[..i]) + {names[i]};
    }
    assert names[..|names|] == names && Elems(names) == ChildNames(made, a);
    ok := true;
  }

  lemma NoLinksAbove(t: Tree, a: Path, name: string)
    requires NoLinksAt(t, a)
    ensures NoLinksAt(t, a + [name])
  {
    forall k | a + [name] <= k ensures !IsLink(t, k) {
      assert a <= k;
    }
  }

  lemma OpenWayToFree(t: Tree, b: Path)
    requires b != [] && b !in t && OpenWay(t, Parent(b))
    ensures OpenWay(t, b)
  {
    forall k | k <= b && k in t ensures IsDir(t, k) {
      assert k != b && k < b && k <= Parent(b);
    }
  }

  lemma SourceUntouched(t: Tree, u: Tree, a: Path, b: Path, done: set<string>)
    requires CopiedChildren(t, u, a, b, done) && Apart(a, b)
    ensures forall k | a <= k :: At(u, k) == At(t, k)
  {
    forall k | a <= k ensures At(u, k) == At(t, k) {
      if b <= k {
        PrefixesMeet(a, b, k);
      }
    }
  }

  lemma ChildrenSame(t: Tree, u: Tree, a: Path)
    requires forall k | a <= k :: At(u, k) == At(t, k)
    ensures ChildNames(u, a) == ChildNames(t, a) && Below(u, a) == Below(t, a)
    ensures NoLinksAt(t, a) <==> NoLinksAt(u, a)
  {
    assert forall k | a <= k :: (k in u <==> At(u, k).Some?) && (k in t <==> At(t, k).Some?);
    assert forall k | a <= k :: IsLink(t, k) <==> At(t, k).Some? && At(t, k).value.LinkE?;
    assert forall k | a <= k :: IsLink(u, k) <==> At(u, k).Some? && At(u, k).value.LinkE?;
  }

  lemma NoLinksInChildren(t: Tree, a: Path)
    requires WellFormed(t) && IsDir(t, a)
    requires forall name | name in ChildNames(t, a) :: NoLinksAt(t, a + [name])
    ensures NoLinksAt(t, a)
  {
    forall k | a <= k ensures !IsLink(t, k) {
      if k in t && k != a {
        assert k == a + k[|a|..];
        TopNameIsChild(t, a, k[|a|..]);
        assert a + [k[|a|]] <= k;
      }
    }
  }

  lemma DirectInTree(t: Tree, a: Path)
    requires WellFormed(t) && a in t
    ensures Direct(t, a) && (a != [] ==> OpenWay(t, Parent(a)))
  {
    forall i | 0 <= i < |a| ensures IsDir(t, a[..i]) {
      AncestorIsDir(t, a[..i], a);
    }
    if a != [] {
      forall k | k <= Parent(a) && k in t ensures IsDir(t, k) {
        assert k == a[..|k|];
      }
    }
  }

  lemma ChildOperands(t: Tree, u: Tree, a: Path, b: Path, done: set<string>, name: string)
    requires WellFormed(t) && WellFormed(u) && Apart(a, b) && IsDir(t, a) && name in ChildNames(t, a)
    requires CopiedChildren(t, u, a, b, done) && name !in done
    ensures var a', b' := a + [name], b + [name];
            && SafeName(name) && a' in u && Direct(u, a') && Apart(a', b') && b' !in u
            && OpenWay(u, b) && IsDir(u, b) && Parent(b') == b
            && Below(u, a') < Below(u, a)
            && (NoLinksAt(u, a') <==> NoLinksAt(t, a'))
  {
    var a', b' := a + [name], b + [name];
    ChildIsThere(t, a, name);
    SourceUntouched(t, u, a, b, done);
    assert At(u, a') == At(t, a') && At(u, a) == At(t, a);
    DirectInTree(u, a');
    assert At(u, b + [name]) == None;
    if a' <= b' { PrefixesMeet(a, b, b'); }
    if b' <= a' { PrefixesMeet(a, b, a'); }
    PlacedBelow(u, b, name);
    assert forall k | k <= b && k in u :: k == b || k < b;
    forall k | k <= b && k in u ensures IsDir(u, k) {
      if k != b {
        AncestorIsDir(u, k, b);
      }
    }
    assert a in Below(u, a) && a !in Below(u, a');
    forall k | a' <= k ensures At(u, k) == At(t, k) {
      assert a <= a';
    }
    ChildrenSame(t, u, a');
  }

  lemma SplitAt(b: Path, k: Path)
    ensures b <= k ==> b + k[|b|..] == k
  {
  }

  lemma CopyExtends(t: Tree, u: Tree, a: Path, b: Path, done: set<string>)
    requires CopiedChildren(t, t, a, b, {}) && CopiedChildren(t, u, a, b, done)
    ensures Extends(t, u)
  {
    forall k ensures At(t, k) == None || At(u, k) == At(t, k) {
      SplitAt(b, k);
      if b <= k && k != b {
        assert At(t, b + k[|b|..]) == None;
      }
    }
    forall k | k in t ensures k in u && u[k] == t[k] {
      assert At(u, k) == At(t, k);
    }
  }

  /** The paths of a child lead from the source to its copy. */
  lemma ChildPaths(made: Tree, u: Tree, source: string, destination: string, a: Path, name: string, done: set<string>)
    requires Copying(made, source, destination, a) && WellFormed(u)
    requires CopiedChildren(made, u, a, Goal(destination), done) && name in ChildNames(made, a) && name !in done
    ensures SafeName(name) && Copyable(u, JoinPath(source, name), JoinPath(destination, name))
    ensures Found(u, JoinPath(source, name)) && SourceLoc(u, JoinPath(source, name)) == a + [name]
    ensures Goal(JoinPath(destination, name)) == Goal(destination) + [name]
  {
    hide RealWay, End, Aimed, CopiedChildren;
    var b := Goal(destination);
    ChildOperands(made, u, a, b, done, name);
    CompsOfName(name);
    CopyExtends(made, u, a, b, done);
    WalkStable(made, u, [], Comps(source), true, MAX_LINKS);
    ChildFound(u, source, a, name);
    RealStays(made, u, Comps(destination));
    RealIsAimed(u, Comps(destination));
    assert NoDots([name]);
    AimedDown(u, Comps(destination), [name]);
  }

  method CopyChild(fs: FileSystem, source: string, destination: string, ghost a: Path, name: string,
                   ghost made: Tree, ghost done: set<string>)
    returns (ok: bool)
    requires fs.Valid() && Copying(made, source, destination, a) && name in ChildNames(made, a)
    requires CopiedChildren(made, fs.tree, a, Goal(destination), done) && name !in done
    modifies fs
    ensures fs.Valid() && (forall k | !(Goal(destination) <= k) :: At(fs.tree, k) == At(made, k))
    ensures ok ==> CopiedChildren(made, fs.tree, a, Goal(destination), done + {name}) && NoLinksAt(made, a + [name])
    ensures fs.reliable && NoLinksAt(made, a + [name]) ==> ok
    decreases Below(fs.tree, a), 0
  {
    hide RealWay, End, Aimed, Walk;
    ghost var b, before := Goal(destination), fs.tree;
    ChildOperands(made, before, a, b, done, name);
    ChildPaths(made, before, source, destination, a, name, done);
    ok := CopyPathRecursiveImpl(fs, JoinPath(source, name), JoinPath(destination, name));
    ChildCopied(made, before, fs.tree, a, b, done, name, ok);
  }

  lemma ChildCopied(made: Tree, u: Tree, v: Tree, a: Path, b: Path, done: set<string>, name: string, ok: bool)
    requires WellFormed(u) && Apart(a, b) && CopiedChildren(made, u, a, b, done) && name !in done
    requires MadeAt(u, v, b + [name]) && (ok ==> Copied(u, v, a + [name], b + [name]))
    ensures forall k | !(b <= k) :: At(v, k) == At(made, k)
    ensures ok ==> CopiedChildren(made, v, a, b, done + {name})
  {
    OnlyChildMade(u, v, b, name);
    forall k | !(b <= k) ensures At(v, k) == At(made, k) {
      assert At(v, k) == At(u, k);
    }
    if ok {
      CopyContinues(made, u, v, a, b, done, name);
    }
  }

  lemma GrownAboveMadeAt(t: Tree, u: Tree, b: Path)
    requires Grown(t, u, b)
    ensures MadeAt(t, u, b)
  {
  }

  // ---- Recursive removal ----

  /** Only nodes at or below p may be gone. */
  ghost predicate RemovedBelow(t: Tree, u: Tree, p: Path) {
    forall k {:trigger At(u, k)} :: At(u, k) == At(t, k) || (p <= k && k !in u)
  }

  /** Only nodes strictly below p may be gone. */
  ghost predicate RemovedInside(t: Tree, u: Tree, p: Path) {
    forall k {:trigger At(u, k)} :: At(u, k) == At(t, k) || (p < k && k !in u)
  }

  /** The tree without the content of the directory at p. */
  ghost function Emptied(t: Tree, p: Path): Tree {
    map k | k in t && !(p < k) :: t[k]
  }

  /** The path does not lead through what it names. */
  ghost predicate Settled(t: Tree, path: string) {
    Found(t, path) && Found(Emptied(t, SourceLoc(t, path)), path)
  }

  lemma EmptiedWellFormed(t: Tree, p: Path)
    requires WellFormed(t)
    ensures WellFormed(Emptied(t, p)) && Extends(Emptied(t, p), t)
  {
    var u := Emptied(t, p);
    forall k | k in u && k != [] ensures IsDir(u, Parent(k)) {
      assert p < Parent(k) ==> p < k;
    }
    forall k | k in u ensures SafeNames(k) {
      assert k in t;
    }
  }

  lemma InsideTwice(t: Tree, u: Tree, v: Tree, p: Path, name: string)
    requires RemovedInside(t, u, p) && RemovedBelow(u, v, p + [name])
    ensures RemovedInside(t, v, p)
  {
    forall k ensures At(v, k) == At(t, k) || (p < k && k !in v) {
      assert At(u, k) == At(t, k) || (p < k && k !in u);
      assert At(v, k) == At(u, k) || (p + [name] <= k && k !in v);
      assert p + [name] <= k ==> p < k;
    }
  }

  lemma InsideAgrees(t: Tree, u: Tree, p: Path)
    requires RemovedInside(t, u, p)
    ensures Agree(t, u) && Extends(Emptied(t, p), u)
  {
    forall k | k in Emptied(t, p) ensures k in u && u[k] == t[k] {
      assert At(u, k) == At(t, k);
    }
    forall k | k in t && k in u ensures t[k] == u[k] {
      assert At(u, k) == At(t, k);
    }
  }

  /** remove_path_recursive, whatever links and dots lead to what it removes. */
  method RemovePathRecursive(fs: FileSystem, path: string) returns (ok: bool)
    requires fs.Valid()
    modifies fs
    ensures fs.Valid()
    ensures !Found(old(fs.tree), path) ==>
              fs.tree == old(fs.tree) && ok == (StatOf(old(fs.tree), path, false) == NoEntry)
    ensures Found(old(fs.tree), path) ==>
              var p := SourceLoc(old(fs.tree), path);
              && RemovedBelow(old(fs.tree), fs.tree, p)
              && (ok ==> fs.tree == Without(old(fs.tree), p) && p != [] && Settled(old(fs.tree), path))
              && (!ok ==> p in fs.tree && (ChildNames(old(fs.tree), p) == {} ==> fs.tree == old(fs.tree)))
              && (fs.reliable && p != [] && !ok ==> !Found(fs.tree, path))
              && (fs.reliable && p != [] && Settled(old(fs.tree), path) ==> ok)
    decreases Pending(fs.tree, path), 1
  {
    ghost var p, start := SourceLoc(fs.tree, path), fs.tree;
    var status := fs.Lstat(path);
    if !status.Stat? {
      return status == NoEntry;
    }
    if !status.entry.DirE? {
      ok := fs.Unlink(path);
      LeafRemoved(start, p);
      return;
    }
    var names;
    FoundNoLink(start, path);
    ok, names := fs.ListDirectory(path);
    if !ok {
      return;
    }
    NoNames(start, p, names);
    ok := RemoveChildren(fs, path, p, names);
    InsideIsBelow(start, fs.tree, p);
    ghost var emptied := fs.tree;
    LastLookup(start, emptied, path);
    assert At(emptied, p) == At(start, p);
    if !ok {
      return;
    }
    ok := fs.Rmdir(path);
    if ok {
      RemovalEnds(start, emptied, p);
      EmptiedAtEnd(start, emptied, p);
    }
  }

  lemma NoNames(t: Tree, p: Path, names: seq<string>)
    requires Enumerates(names, ChildNames(t, p))
    ensures ChildNames(t, p) == {} ==> names == []
  {
    assert names != [] ==> names[0] in ChildNames(t, p);
  }

  /** When the directory is to be removed itself, its path names it or nothing. */
  lemma LastLookup(t: Tree, u: Tree, path: string)
    requires Found(t, path) && RemovedInside(t, u, SourceLoc(t, path))
    ensures Found(u, path) ==> SourceLoc(u, path) == SourceLoc(t, path)
    ensures Settled(t, path) ==> Found(u, path)
  {
    var p := SourceLoc(t, path);
    InsideAgrees(t, u, p);
    if Found(u, path) {
      FoundSame(t, u, path);
    }
    if Settled(t, path) {
      FoundStays(Emptied(t, p), u, path);
    }
  }

  lemma EmptiedAtEnd(t: Tree, u: Tree, p: Path)
    requires WellFormed(u) && RemovedInside(t, u, p) && ChildNames(u, p) == {}
    ensures u == Emptied(t, p)
  {
    forall k ensures At(u, k) == At(Emptied(t, p), k) {
      assert At(u, k) == At(t, k) || (p < k && k !in u);
      if p < k {
        NothingInEmpty(u, p, k);
      }
    }
    SameTree(u, Emptied(t, p));
  }

  lemma InsideIsBelow(t: Tree, u: Tree, p: Path)
    requires RemovedInside(t, u, p)
    ensures RemovedBelow(t, u, p)
    ensures RemovedBelow(t, u - {p}, p)
  {
    forall k ensures At(u - {p}, k) == At(t, k) || (p <= k && k !in u - {p}) {
      assert At(u, k) == At(t, k) || (p < k && k !in u);
    }
  }

  lemma NothingInEmpty(u: Tree, p: Path, k: Path)
    requires WellFormed(u) && ChildNames(u, p) == {} && p < k
    ensures k !in u
  {
    if k in u {
      NodeBelowIsChild(u, p, k);
    }
  }

  /** A directory that could be removed was empty. */
  lemma RemovalEnds(t: Tree, u: Tree, p: Path)
    requires WellFormed(u) && RemovedInside(t, u, p) && ChildNames(u, p) == {}
    ensures u - {p} == Without(t, p)
  {
    forall k ensures At(u - {p}, k) == At(Without(t, p), k) {
      assert At(u, k) == At(t, k) || (p < k && k !in u);
      assert p <= k <==> k == p || p < k;
      if p < k {
        NothingInEmpty(u, p, k);
      }
    }
    SameTree(u - {p}, Without(t, p));
  }

  /** A child that is looked up by its path: it is the child, or it is not found. */
  lemma ChildLookup(t: Tree, u: Tree, path: string, p: Path, name: string)
    requires WellFormed(t) && WellFormed(u) && Where(t, path, true) == Spot(p) && IsDir(t, p)
    requires RemovedInside(t, u, p) && name in ChildNames(t, p)
    ensures SafeName(name) && Pending(u, JoinPath(path, name)) < Below(t, p)
    ensures Found(u, JoinPath(path, name)) ==> SourceLoc(u, JoinPath(path, name)) == p + [name]
  {
    ChildIsThere(t, p, name);
    InsideAgrees(t, u, p);
    ChildFound(t, path, p, name);
    assert p in Below(t, p);
    if Found(u, JoinPath(path, name)) {
      FoundSame(t, u, JoinPath(path, name));
      assert p !in Below(u, p + [name]);
      forall k | k in Below(u, p + [name]) ensures k in Below(t, p) {
        assert At(u, k) == At(t, k) && p <= p + [name];
      }
    }
  }

  /** As long as the directory is found, its children are found by their paths. */
  lemma ChildNamed(u: Tree, path: string, p: Path, name: string)
    requires WellFormed(u) && IsDir(u, p) && SafeName(name) && Found(u, path) && SourceLoc(u, path) == p
    ensures if p + [name] in u then Found(u, JoinPath(path, name)) && SourceLoc(u, JoinPath(path, name)) == p + [name]
            else StatOf(u, JoinPath(path, name), false) == NoEntry
  {
    FoundNoLink(u, path);
    if p + [name] in u {
      ChildFound(u, path, p, name);
    } else {
      CompsOfName(name);
      assert Parent(p + [name]) == p;
      WhereBelow(u, path, p, JoinPath(path, name), [name], false);
    }
  }

  /** The loop over the children, whatever order readdir answered in. */
  method RemoveChildren(fs: FileSystem, path: string, ghost p: Path, names: seq<string>) returns (ok: bool)
    requires fs.Valid() && Found(fs.tree, path) && SourceLoc(fs.tree, path) == p && IsDir(fs.tree, p)
    requires Enumerates(names, ChildNames(fs.tree, p))
    modifies fs
    ensures fs.Valid() && RemovedInside(old(fs.tree), fs.tree, p)
    ensures names == [] ==> ok && fs.tree == old(fs.tree)
    ensures fs.reliable && Found(fs.tree, path) ==> ok && ChildNames(fs.tree, p) == {}
    decreases Below(fs.tree, p), 0
  {
    hide Walk;
    ghost var start := fs.tree;
    FoundNoLink(start, path);
    for i := 0 to |names|
      invariant fs.Valid() && RemovedInside(start, fs.tree, p) && (i == 0 ==> fs.tree == start)
      invariant fs.reliable && Found(fs.tree, path) ==> forall j | 0 <= j < i :: p + [names[j]] !in fs.tree
    {
      ghost var before := fs.tree;
      ChildLookup(start, before, path, p, names[i]);
      ok := RemovePathRecursive(fs, JoinPath(path, names[i]));
      ChildRemoved(start, before, fs.tree, path, p, names[i]);
      if Found(fs.tree, path) {
        StillFound(start, before, fs.tree, path, p);
        ChildNamed(before, path, p, names[i]);
        ChildNamed(fs.tree, path, p, names[i]);
      }
      if !ok {
        return;
      }
    }
    ok := true;
    if fs.reliable && Found(fs.tree, path) {
      AllChildrenGone(start, fs.tree, p, names);
    }
  }

  /** What is found after more was removed was found before, in the same place. */
  lemma StillFound(t: Tree, u: Tree, v: Tree, path: string, p: Path)
    requires Found(t, path) && SourceLoc(t, path) == p && IsDir(t, p)
    requires RemovedInside(t, u, p) && RemovedInside(t, v, p) && (forall k | k !in u :: k !in v) && Found(v, path)
    ensures Found(u, path) && SourceLoc(u, path) == p && SourceLoc(v, path) == p && IsDir(u, p) && IsDir(v, p)
  {
    InsideAgrees(t, u, p);
    InsideAgrees(t, v, p);
    assert At(u, p) == At(t, p) && At(v, p) == At(t, p);
    forall k | k in v ensures k in u && u[k] == v[k] {
      assert At(u, k) == At(t, k) && At(v, k) == At(t, k);
    }
    FoundStays(v, u, path);
    FoundSame(t, v, path);
  }

  lemma ChildRemoved(t: Tree, u: Tree, v: Tree, path: string, p: Path, name: string)
    requires RemovedInside(t, u, p)
    requires Found(u, JoinPath(path, name)) ==> SourceLoc(u, JoinPath(path, name)) == p + [name]
    requires if Found(u, JoinPath(path, name)) then RemovedBelow(u, v, p + [name]) else v == u
    ensures RemovedInside(t, v, p)
    ensures forall k | k !in u :: k !in v
    ensures Found(u, JoinPath(path, name)) && v == Without(u, p + [name]) ==> p + [name] !in v
  {
    if Found(u, JoinPath(path, name)) {
      InsideTwice(t, u, v, p, name);
      forall k | k !in u ensures k !in v {
        assert At(v, k) == At(u, k) || k !in v;
      }
    }
  }

  lemma AllChildrenGone(t: Tree, u: Tree, p: Path, names: seq<string>)
    requires WellFormed(u) && RemovedInside(t, u, p) && Enumerates(names, ChildNames(t, p))
    requires forall j | 0 <= j < |names| :: p + [names[j]] !in u
    ensures ChildNames(u, p) == {}
  {
    forall k | |k| == |p| + 1 && p <= k ensures k !in u {
      assert k == p + [k[|p|]];
      assert At(u, k) == At(t, k) || k !in u;
      assert k in t ==> k[|p|] in ChildNames(t, p);
    }
  }

  lemma LeafRemoved(t: Tree, p: Path)
    requires WellFormed(t) && p in t && !t[p].DirE?
    ensures Without(t, p) == t - {p} && RemovedBelow(t, t - {p}, p) && Emptied(t, p) == t
  {
    forall k | p < k ensures k !in t {
      if k in t {
        AncestorIsDir(t, p, k);
      }
    }
    assert forall k | p <= k && k in t :: k == p || p < k;
  }

  // ---- Moving ----

  /** The subtree at a is now at b and nowhere else; directories may have been added above b. */
  ghost predicate MovedTo(t: Tree, u: Tree, a: Path, b: Path) {
    && a in t && b !in t && Apart(a, b)
    && b != [] && IsDir(u, Parent(b))
    && Subtree(u, b) == Subtree(t, a)
    && (forall k {:trigger At(u, k)} | a <= k :: At(u, k) == None)
    && (forall k {:trigger At(u, k)} | !(a <= k) && !(b <= k) ::
          At(u, k) == At(t, k) || (k !in t && k < b && At(u, k) == Some(DirE)))
  }

  /** Nothing changed outside a and b, apart from directories added above b. */
  ghost predicate OnlyAt(t: Tree, u: Tree, a: Path, b: Path) {
    forall k {:trigger At(u, k)} | !(a <= k) && !(b <= k) ::
      At(u, k) == At(t, k) || (k !in t && k < b && At(u, k) == Some(DirE))
  }

  /** What a failed move to another device can damage: a directory without links that is not empty. */
  ghost predicate Losable(t: Tree, a: Path) {
    NoLinksAt(t, a) && ChildNames(t, a) != {}
  }

  /** At and below p some nodes may be gone, and nothing else is different. */
  ghost predicate Less(u: Tree, v: Tree, p: Path) {
    forall k {:trigger At(v, k)} | p <= k :: At(v, k) == At(u, k) || k !in v
  }

  ghost predicate SameBelow(t: Tree, u: Tree, a: Path) {
    forall k {:trigger At(u, k)} {:trigger At(t, k)} | a <= k :: At(u, k) == At(t, k)
  }

  lemma MovedSubtree(g: Tree, a: Path, b: Path)
    requires WellFormed(g) && b !in g && Apart(a, b)
    ensures Subtree(Moved(g, a, b), b) == Subtree(g, a)
  {
    var u := Moved(g, a, b);
    forall q: Path ensures At(u, b + q) == At(g, a + q) {
      MovedAt(g, a, b, b + q);
      assert (b + q)[|b|..] == q;
    }
    assert forall q :: q in Subtree(u, b) <==> q in Subtree(g, a);
  }

  lemma RenameMoves(g: Tree, a: Path, b: Path)
    requires WellFormed(g) && b != [] && b !in g && a in g && !(a <= b) && IsDir(g, Parent(b))
    ensures MovedTo(g, Moved(g, a, b), a, b)
  {
    var u := Moved(g, a, b);
    if b <= a {
      EmptySubtree(g, b);
    }
    MovedAt(g, a, b, Parent(b));
    MovedSubtree(g, a, b);
    forall k ensures a <= k ==> At(u, k) == None
             ensures !(a <= k) && !(b <= k) ==> At(u, k) == At(g, k) {
      MovedAt(g, a, b, k);
    }
  }

  lemma CopyAndRemoveMoves(g: Tree, c: Tree, a: Path, b: Path)
    requires WellFormed(g) && b != [] && b !in g && a in g && Apart(a, b)
    requires MadeAt(g, c, b) && Subtree(c, b) == Subtree(g, a) && IsDir(c, Parent(b))
    ensures MovedTo(g, Without(c, a), a, b)
  {
    var u := Without(c, a);
    SubtreeBesideMadeAt(g, c, a, b);
    assert !(a <= Parent(b));
    forall k | b <= k ensures At(u, k) == At(c, k) {
      if a <= k {
        PrefixesMeet(a, b, k);
      }
    }
    SameSubtree(u, c, b);
    forall k | !(a <= k) ensures At(u, k) == At(c, k) {}
  }

  lemma MadeThenRemoved(g: Tree, c: Tree, d: Tree, e: Tree, a: Path, b: Path)
    requires MadeAt(g, c, b) && RemovedBelow(c, d, a) && (RemovedBelow(d, e, b) || e == d)
    ensures OnlyAt(g, c, a, b) && OnlyAt(g, e, a, b)
  {
    forall k | !(a <= k) && !(b <= k) ensures At(e, k) == At(c, k) {
      assert At(d, k) == At(c, k);
    }
  }

  /** A move after the directories of the destination were made. */
  lemma MovedFromGrown(t: Tree, g: Tree, u: Tree, a: Path, b: Path)
    requires b != [] && b !in t && Grown(t, g, Parent(b)) && a in t && Apart(a, b)
    ensures MovedTo(g, u, a, b) ==> MovedTo(t, u, a, b)
    ensures OnlyAt(g, u, a, b) ==> OnlyAt(t, u, a, b)
  {
    GrownMadeAt(t, g, b);
    SubtreeBesideMadeAt(t, g, a, b);
    assert At(g, a) == At(t, a);
  }

  /** The branch of move_or_copy_path for a rename across devices; the directories of the destination exist. */
  method CopyThenRemove(fs: FileSystem, source: string, destination: string) returns (ok: bool)
    requires fs.Valid() && Copyable(fs.tree, source, destination) && Found(fs.tree, source)
    requires RealWay(fs.tree, Comps(DirectoryOf(destination)))
    modifies fs
    ensures var t, a, b := old(fs.tree), SourceLoc(old(fs.tree), source), Goal(destination);
            && fs.Valid()
            && (ok ==> MovedTo(t, fs.tree, a, b))
            && (!ok ==> OnlyAt(t, fs.tree, a, b))
            && (!ok ==> Less(t, fs.tree, a) && (!Losable(t, a) ==> SameBelow(t, fs.tree, a)))
            && (fs.reliable && NoLinksAt(t, a) && Settled(t, source) ==> ok)
  {
    hide RealWay, End, Aimed, Walk, Comps, WellFormed, Step;
    ghost var a, b, grown := SourceLoc(fs.tree, source), Goal(destination), fs.tree;
    CopyableApart(grown, source, destination);
    GoalNamed(grown, grown, destination, false);
    DirIsOpen(grown, Parent(b));
    ok := CopyPathRecursiveImpl(fs, source, destination);
    ghost var copied := fs.tree;
    MadeThenRemoved(grown, copied, copied, copied, a, b);
    SubtreeBesideMadeAt(grown, copied, a, b);
    if !ok {
      return;
    }
    SourceAfterCopy(grown, copied, source, a, b);
    var removed := RemovePathRecursive(fs, source);
    if removed {
      CopyAndRemoveMoves(grown, copied, a, b);
      return true;
    }
    ghost var partial := fs.tree;
    assert a + [] == a && b + [] == b;
    assert [] in Subtree(grown, a);
    CopyNamed(grown, copied, partial, destination, a);
    var _ := RemovePathRecursive(fs, destination);
    MadeThenRemoved(grown, copied, partial, fs.tree, a, b);
    if !Losable(grown, a) {
      NoChildren(grown, copied, a);
      BesideRemoved(partial, fs.tree, b, a);
    }
    ok := false;
  }

  lemma DirIsOpen(t: Tree, p: Path)
    requires WellFormed(t) && IsDir(t, p)
    ensures OpenWay(t, p)
  {
    forall k | k <= p && k in t ensures IsDir(t, k) {
      if k != p {
        AncestorIsDir(t, k, p);
      }
    }
  }

  lemma MadeExtends(t: Tree, u: Tree, b: Path)
    requires WellFormed(t) && MadeAt(t, u, b) && b !in t
    ensures Extends(t, u)
  {
    EmptySubtree(t, b);
    forall k | k in t ensures k in u && u[k] == t[k] {
      assert At(u, k) == At(t, k);
    }
  }

  /** The source is still found where it was, and as easy to remove. */
  lemma SourceAfterCopy(t: Tree, u: Tree, source: string, a: Path, b: Path)
    requires WellFormed(t) && MadeAt(t, u, b) && b !in t && Apart(a, b) && Found(t, source) && SourceLoc(t, source) == a
    ensures Found(u, source) && SourceLoc(u, source) == a && a != []
    ensures Settled(t, source) ==> Settled(u, source)
  {
    MadeExtends(t, u, b);
    FoundStays(t, u, source);
    if Settled(t, source) {
      forall k | k in Emptied(t, a) ensures k in Emptied(u, a) && Emptied(u, a)[k] == t[k] {
        assert u[k] == t[k] || (t[k].FileE? && u[k].FileE?);
        assert At(u, k) == At(t, k) || b <= k;
        EmptySubtree(t, b);
      }
      FoundStays(Emptied(t, a), Emptied(u, a), source);
    }
  }

  /** When the copy is to be removed again, its path names it or nothing. */
  lemma CopyNamed(t: Tree, copied: Tree, partial: Tree, destination: string, a: Path)
    requires WellFormed(t) && WellFormed(copied) && FreeAim(t, destination) &&
             RealWay(t, Comps(DirectoryOf(destination)))
    requires MadeAt(t, copied, Goal(destination)) && RemovedBelow(copied, partial, a)
    requires Goal(destination) in copied
    ensures Found(partial, destination) ==> SourceLoc(partial, destination) == Goal(destination)
  {
    MadeExtends(t, copied, Goal(destination));
    RealStays(t, copied, Comps(DirectoryOf(destination)));
    GoalNamed(t, copied, destination, false);
    if Found(partial, destination) {
      forall k | k in copied && k in partial ensures copied[k] == partial[k] {
        assert At(partial, k) == At(copied, k);
      }
      FoundSame(copied, partial, destination);
    }
  }

  lemma NoChildren(t: Tree, u: Tree, a: Path)
    requires SameBelow(t, u, a) && ChildNames(t, a) == {}
    ensures ChildNames(u, a) == {}
  {
    ChildrenSame(t, u, a);
  }

  lemma BesideRemoved(t: Tree, u: Tree, b: Path, a: Path)
    requires (RemovedBelow(t, u, b) || u == t) && Apart(a, b)
    ensures SameBelow(t, u, a)
  {
    forall k | a <= k ensures At(u, k) == At(t, k) {
      if b <= k {
        PrefixesMeet(a, b, k);
      }
    }
  }

  lemma {:induction false} LeafBelow(t: Tree, a: Path) returns (leaf: Path)
    requires WellFormed(t) && ChildNames(t, a) != {}
    ensures a < leaf && leaf in t && ChildNames(t, leaf) == {}
    decreases Below(t, a)
  {
    var name :| name in ChildNames(t, a);
    ChildIsThere(t, a, name);
    leaf := a + [name];
    if ChildNames(t, leaf) != {} {
      var k :| k in ChildNames(t, leaf);
      ChildIsThere(t, leaf, k);
      NodeBelowIsChild(t, a, leaf);
      assert a in Below(t, a) && a !in Below(t, leaf);
      assert forall k | k in Below(t, leaf) :: a <= k;
      leaf := LeafBelow(t, leaf);
    }
  }

  lemma GraftWellFormed(t: Tree, a: Path, b: Path)
    requires WellFormed(t) && a in t && b !in t && b != [] && IsDir(t, Parent(b)) && SafeNames(b)
    ensures WellFormed(Graft(t, b, Subtree(t, a)))
  {
    var u := Graft(t, b, Subtree(t, a));
    EmptySubtree(t, b);
    forall k | k in u ensures SafeNames(k) && (k != [] ==> IsDir(u, Parent(k))) {
      assert At(u, k).Some?;
      if k != [] {
        assert At(u, Parent(k)) == At(u, Parent(k));
        GraftHangs(t, a, b, k);
      }
    }
  }

  lemma GraftHangs(t: Tree, a: Path, b: Path, k: Path)
    requires WellFormed(t) && a in t && b !in t && b != [] && IsDir(t, Parent(b)) && SafeNames(b)
    requires k != [] && At(Graft(t, b, Subtree(t, a)), k).Some?
    ensures SafeNames(k) && At(Graft(t, b, Subtree(t, a)), Parent(k)) == Some(DirE)
  {
    hide Graft, Subtree;
    EmptySubtree(t, b);
    if b < k {
      GraftHangsInside(t, a, b, k[|b|..]);
      assert b + k[|b|..] == k;
    } else if k == b {
      assert !(b <= Parent(k)) && k[|b|..] == [];
      NamesBelow(a, b, []);
    } else {
      assert b <= Parent(k) ==> b <= k;
    }
  }

  lemma GraftHangsInside(t: Tree, a: Path, b: Path, q: Path)
    requires WellFormed(t) && SafeNames(b) && q != [] && q in Subtree(t, a)
    ensures SafeNames(b + q) && At(Graft(t, b, Subtree(t, a)), Parent(b + q)) == Some(DirE)
  {
    hide Graft, Subtree;
    NamesBelow(a, b, q);
    assert Parent(a + q) == a + Parent(q) && Parent(b + q) == b + Parent(q);
    assert (b + Parent(q))[|b|..] == Parent(q);
  }

  /** Every such directory can be damaged: the EXDEV branch copies it, unlinks a leaf of the source, fails to
      remove more of it, and removes the copy. The leaf is then in neither place. Any other source survives a
      failed move, as CopyThenRemove says. */
  lemma CrossDeviceMoveCanLose(t: Tree, a: Path, b: Path) returns (leaf: Path)
    requires WellFormed(t) && a in t && Losable(t, a)
    requires b !in t && Apart(a, b) && b != [] && IsDir(t, Parent(b)) && SafeNames(b)
    ensures var copied := Graft(t, b, Subtree(t, a));
            var partial := copied - {leaf};
            var left := Without(partial, b);
            && WellFormed(copied) && MadeAt(t, copied, b) && Copied(t, copied, a, b)
            && WellFormed(partial) && leaf in copied && ChildNames(copied, leaf) == {}
            && RemovedBelow(copied, partial, a) && a in partial
            && WellFormed(left) && a < leaf && leaf in t && leaf !in left && (forall k | b <= k :: k !in left)
  {
    leaf := LeafBelow(t, a);
    var copied := Graft(t, b, Subtree(t, a));
    AncestorIsDir(t, a, leaf);
    GraftWellFormed(t, a, b);
    forall q ensures At(Subtree(copied, b), q) == At(Subtree(t, a), q) {
      GraftedAt(t, a, b, q);
    }
    SameTree(Subtree(copied, b), Subtree(t, a));
    assert At(copied, Parent(b)) == At(t, Parent(b));
    SubtreeBesideMadeAt(t, copied, a, b);
    assert At(copied, a) == At(t, a) && At(copied, leaf) == At(t, leaf);
    forall k | leaf <= k ensures At(copied, k) == At(t, k) {
      assert a <= k;
    }
    NoChildren(t, copied, leaf);
    DropWellFormed(copied, leaf);
    WithoutWellFormed(copied - {leaf}, b);
  }

  lemma GraftedAt(t: Tree, a: Path, b: Path, q: Path)
    requires WellFormed(t) && b !in t
    ensures At(Subtree(Graft(t, b, Subtree(t, a)), b), q) == At(Subtree(t, a), q)
  {
    EmptySubtree(t, b);
    assert (b + q)[|b|..] == q;
    assert At(Graft(t, b, Subtree(t, a)), b + q) == At(Subtree(t, a), q);
  }

  lemma DirectBelowDir(t: Tree, b: Path)
    requires WellFormed(t) && b != [] && IsDir(t, Parent(b))
    ensures Direct(t, b)
  {
    DirectInTree(t, Parent(b));
    forall i | 0 <= i < |b| ensures !IsLink(t, b[..i]) {
      assert i < |Parent(b)| ==> b[..i] == Parent(b)[..i];
      assert b[..|b| - 1] == Parent(b);
    }
  }

  lemma GrownOnlyAt(t: Tree, u: Tree, a: Path, b: Path)
    requires MadeAt(t, u, b)
    ensures OnlyAt(t, u, a, b)
  {
  }

  lemma GrownNothing(t: Tree, p: Path)
    ensures Grown(t, t, p)
  {
  }

  /** Nothing is in the way of a free place, so nothing is found there. */
  lemma OpenIsFree(t: Tree, path: string)
    requires WellFormed(t) && FreeAim(t, path) && Goal(path) != [] && OpenWay(t, Parent(Goal(path)))
    ensures !Exists(t, path)
  {
    var dirs := Comps(DirectoryOf(path));
    ParentsClear(t, path);
    FreeName(t, path);
    WayIs(t, dirs);
    if RealWay(t, dirs) {
      GoalNamed(t, t, path, false);
    } else {
      GapIsMissing(t, dirs, [Comps(path)[|Comps(path)| - 1]], false);
    }
  }

  /** The source is found, and its tree can go to a free place outside itself. */
  ghost predicate Movable(t: Tree, source: string, destination: string) {
    && Found(t, source) && FreeAim(t, destination) && !(SourceLoc(t, source) <= Goal(destination))
    && OpenWay(t, Parent(Goal(destination)))
  }

  /** A way that exists and ends at no node aims at a free place. */
  lemma NotThereIsFree(g: Tree, destination: string)
    requires WellFormed(g) && RealWay(g, Comps(DirectoryOf(destination))) && !Exists(g, destination)
    ensures FreeAim(g, destination) && Where(g, destination, false) == Spot(Goal(destination))
  {
    hide Comps, Walk, RealWay, Step, End, Aimed;
    var dirs := Comps(DirectoryOf(destination));
    RealWalk(g, dirs, false, MAX_LINKS);
    RealWalk(g, dirs, true, MAX_LINKS);
    RealPrefix(g, dirs, |dirs|);
    Whole(dirs);
    SlashAdds(destination);
    ParentWay(destination);
    var last := Comps(destination)[|Comps(destination)| - 1];
    assert Comps(destination) == dirs + [last];
    NextWalk(g, dirs, last, false, MAX_LINKS);
    EndNext(dirs, last);
    if IsDots(last) {
      DotsAreThere(g, End(dirs), last);
    }
    RealIsAimed(g, dirs);
    assert NoDots([last]);
    AimedDown(g, dirs, [last]);
  }

  lemma DotsAreThere(g: Tree, p: Path, name: string)
    requires WellFormed(g) && IsDir(g, p) && IsDots(name)
    ensures Step(p, name) in g
  {
  }

  /** Without a name behind the last slash, a path names its directory. */
  lemma SlashAdds(path: string)
    ensures !NoTrailingSlash(path) ==> Comps(path) == Comps(DirectoryOf(path))
  {
    if path != "" && path[|path| - 1] == '/' {
      var stem := path[..|path| - 1];
      assert path == stem + "/" + "";
      CompsOfSlash();
      CompsOfConcat(stem, "");
      assert DirectoryOf(path) == stem;
    }
  }

  /** move_or_copy_path once the directories of the destination exist. */
  method RenameOrCopy(fs: FileSystem, source: string, destination: string) returns (ok: bool)
    requires fs.Valid() && Found(fs.tree, source) && RealWay(fs.tree, Comps(DirectoryOf(destination)))
    modifies fs
    ensures fs.Valid()
    ensures FreeAim(old(fs.tree), destination) ==>
              var t, a, b := old(fs.tree), SourceLoc(old(fs.tree), source), Goal(destination);
              && (ok ==> MovedTo(t, fs.tree, a, b))
              && (!ok ==> fs.tree == t || (Apart(a, b) && OnlyAt(t, fs.tree, a, b)))
              && (!ok && (fs.sameDevice || a <= b) ==> fs.tree == t)
              && (!ok && !(a <= b) ==> Less(t, fs.tree, a) && (!Losable(t, a) ==> SameBelow(t, fs.tree, a)))
              && (fs.reliable && !(a <= b) && (fs.sameDevice || (NoLinksAt(t, a) && Settled(t, source))) ==> ok)
    ensures !ok && fs.sameDevice ==> fs.tree == old(fs.tree)
  {
    hide RealWay, End, Aimed, Walk;
    ghost var a, b, grown := SourceLoc(fs.tree, source), Goal(destination), fs.tree;
    ghost var aimed := FreeAim(grown, destination);
    if aimed {
      GoalNamed(grown, grown, destination, false);
      FreeName(grown, destination);
    }
    var renamed := fs.Rename(source, destination);
    if renamed == Renamed {
      if aimed {
        assert grown - {b} == grown;
        RenameMoves(grown, a, b);
      }
      return true;
    }
    if renamed != CrossDevice {
      return false;
    }
    var status := fs.Lstat(destination);
    if status.Stat? {
      return false;
    }
    NotThereIsFree(grown, destination);
    CopyableApart(grown, source, destination);
    ok := CopyThenRemove(fs, source, destination);
  }

  method MoveOrCopyPath(fs: FileSystem, source: string, destination: string) returns (ok: bool)
    requires fs.Valid()
    modifies fs
    ensures fs.Valid()
    ensures (!Found(old(fs.tree), source) || Exists(old(fs.tree), destination) ||
             Crossed(old(fs.tree), Comps(DirectoryOf(destination)))) ==> !ok && fs.tree == old(fs.tree)
    ensures FreeAim(old(fs.tree), destination) ==>
              var t, a, b := old(fs.tree), SourceLoc(old(fs.tree), source), Goal(destination);
              && (ok ==> MovedTo(t, fs.tree, a, b))
              && (!ok ==> OnlyAt(t, fs.tree, a, b))
              && (!ok && (fs.sameDevice || a <= b) ==> Grown(t, fs.tree, Parent(b)))
              && (!ok && !(a <= b) ==> Less(t, fs.tree, a) && (!Losable(t, a) ==> SameBelow(t, fs.tree, a)))
    ensures !ok && fs.sameDevice ==> OnlyDirsAdded(old(fs.tree), fs.tree)
    ensures var t, a := old(fs.tree), SourceLoc(old(fs.tree), source);
            (fs.reliable && Movable(t, source, destination) &&
             (fs.sameDevice || (NoLinksAt(t, a) && Settled(t, source)))) ==> ok
  {
    hide RealWay, End, Aimed, Walk, Gap, Crossed;
    ghost var a, b, start := SourceLoc(fs.tree, source), Goal(destination), fs.tree;
    ghost var aimed := FreeAim(start, destination);
    if aimed {
      FreeName(start, destination);
      GrownNothing(start, Parent(b));
      if OpenWay(start, Parent(b)) {
        OpenIsFree(start, destination);
      }
    }
    var status := fs.Lstat(source);
    if !status.Stat? {
      return false;
    }
    status := fs.Lstat(destination);
    if status.Stat? {
      return false;
    }
    ok := EnsureParentDirectories(fs, destination);
    ghost var grown := fs.tree;
    EnsuredAtOnce(start, grown, Comps(DirectoryOf(destination)), ok);
    BeforeMoving(start, grown, source, destination, ok);
    if !ok {
      return;
    }
    ok := RenameOrCopy(fs, source, destination);
    if aimed {
      MoveDone(start, grown, fs.tree, a, b);
    }
  }

  /** The operands once the directories of the destination were made, or not. */
  lemma BeforeMoving(t: Tree, g: Tree, source: string, destination: string, ok: bool)
    requires WellFormed(t) && WellFormed(g) && Found(t, source)
    requires Ensured(t, g, Comps(DirectoryOf(destination)), ok)
    ensures Found(g, source) && SourceLoc(g, source) == SourceLoc(t, source)
    ensures FreeAim(t, destination) ==>
              && Grown(t, g, Parent(Goal(destination))) && OnlyAt(t, g, SourceLoc(t, source), Goal(destination))
              && FreeAim(g, destination)
              && (OpenWay(t, Parent(Goal(destination))) ==> Clear(t, Comps(DirectoryOf(destination))))
    ensures FreeAim(t, destination) && !(SourceLoc(t, source) <= Goal(destination)) ==>
              && Apart(SourceLoc(t, source), Goal(destination))
              && SameBelow(t, g, SourceLoc(t, source))
              && (Losable(g, SourceLoc(t, source)) ==> Losable(t, SourceLoc(t, source)))
              && (NoLinksAt(t, SourceLoc(t, source)) ==> NoLinksAt(g, SourceLoc(t, source)))
    ensures Settled(t, source) ==> Settled(g, source)
  {
    DirsAddedExtends(t, g);
    FoundStays(t, g, source);
    var a := SourceLoc(t, source);
    if FreeAim(t, destination) {
      ParentsMade(t, g, destination, ok);
      GrownOnlyAt(t, g, a, Goal(destination));
      AimedStays(t, g, Comps(destination));
      if OpenWay(t, Parent(Goal(destination))) {
        ParentsClear(t, destination);
      }
      EmptySubtree(t, Goal(destination));
      if Apart(a, Goal(destination)) {
        SubtreeBesideMadeAt(t, g, a, Goal(destination));
        ChildrenSame(t, g, a);
        assert forall k | a <= k :: At(g, k) == At(t, k);
      }
    }
    if Settled(t, source) {
      forall k | k in Emptied(t, a) ensures k in Emptied(g, a) && Emptied(g, a)[k] == t[k] {
        assert At(g, k) == At(t, k);
      }
      FoundStays(Emptied(t, a), Emptied(g, a), source);
    }
  }

  /** The whole move, seen from before the directories were made. */
  lemma MoveDone(t: Tree, g: Tree, u: Tree, a: Path, b: Path)
    requires WellFormed(t) && b != [] && b !in t && a in t && Grown(t, g, Parent(b))
    requires MovedTo(g, u, a, b) || OnlyAt(g, u, a, b)
    ensures MovedTo(g, u, a, b) ==> MovedTo(t, u, a, b)
    ensures OnlyAt(g, u, a, b) && Apart(a, b) ==> OnlyAt(t, u, a, b)
    ensures u == g ==> Grown(t, u, Parent(b)) && OnlyAt(t, u, a, b)
  {
    GrownMadeAt(t, g, b);
    GrownOnlyAt(t, g, a, b);
    if Apart(a, b) {
      MovedFromGrown(t, g, u, a, b);
    }
  }
}
