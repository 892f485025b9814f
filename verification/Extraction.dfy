/** Rebuilding a tree from archive entries (src/archive_stream.cpp, src/raze_update.cpp). */
module Extraction {
  import opened Bytes
  import opened Paths
  import opened FileTree
  import opened PathWalk
  import opened FileSystem
  import opened PathSafety
  import opened FsOps

  datatype Kind = Directory | Regular | Unsupported

  /** One archive member; the archive's byte format is left to the library that reads it. */
  datatype ArchiveEntry = ArchiveEntry(path: string, kind: Kind, bytes: seq<byte>)

  const STREAM_BUFFER_SIZE: nat := 64 * 1024

  // ---- What extraction means, on trees relative to the extraction root ----

  function Prefixes(p: Path): set<Path> {
    set i | 0 <= i <= |p| :: p[..i]
  }

  /** All missing directories down to p. */
  function WithDirs(s: Tree, p: Path): (u: Tree)
    ensures forall k :: At(u, k) == if k in s then Some(s[k]) else if k <= p then Some(DirE) else None
  {
    assert forall k | k <= p :: k == p[..|k|];
    map k | k in s.Keys + Prefixes(p) :: if k in s then s[k] else DirE
  }

  predicate OpenTo(s: Tree, p: Path) {
    forall i | 0 <= i <= |p| && p[..i] in s :: s[p[..i]].DirE?
  }

  /** The tree after one entry, if the entry can be placed. */
  function Placing(s: Tree, e: ArchiveEntry): Option<Tree> {
    if !ValidRelative(e.path) then None
    else match e.kind
      case Unsupported => None
      case Directory =>
        if OpenTo(s, Comps(e.path)) then Some(WithDirs(s, Comps(e.path))) else None
      case Regular =>
        var lead := Lead(e.path, false);
        var s' := WithDirs(s, lead);
        if OpenTo(s, lead) && (Comps(e.path) in s' ==> s'[Comps(e.path)].FileE?)
        then Some(s'[Comps(e.path) := FileE(e.bytes)]) else None
  }

  /** The tree after all entries, if every one of them can be placed. */
  function Extracted(s: Tree, entries: seq<ArchiveEntry>): Option<Tree>
    decreases |entries|
  {
    if entries == [] then Some(s)
    else match Placing(s, entries[0])
      case None => None
      case Some(s') => Extracted(s', entries[1..])
  }

  /** Nothing outside r changed, and below r nothing was removed or replaced but file contents. */
  ghost predicate OnlyBelow(t: Tree, u: Tree, r: Path) {
    && Extends(t, u)
    && (forall k {:trigger At(u, k)} {:trigger At(t, k)} | !(r <= k) :: At(u, k) == At(t, k))
  }

  // ---- From growth in the file system to the relative tree ----

  lemma OpenWayBelow(t: Tree, r: Path, rel: Path)
    requires WellFormed(t) && IsDir(t, r)
    ensures OpenWay(t, r + rel) <==> OpenTo(Subtree(t, r), rel)
  {
    if OpenWay(t, r + rel) {
      forall i | 0 <= i <= |rel| && rel[..i] in Subtree(t, r) ensures Subtree(t, r)[rel[..i]].DirE? {
        assert r + rel[..i] <= r + rel;
        assert IsDir(t, r + rel[..i]);
      }
    }
    if OpenTo(Subtree(t, r), rel) {
      forall k | k <= r + rel && k in t ensures IsDir(t, k) {
        if |k| < |r| {
          assert k < r;
          AncestorIsDir(t, k, r);
        } else {
          var i := |k| - |r|;
          assert k == r + rel[..i];
          assert rel[..i] in Subtree(t, r);
        }
      }
    }
  }

  lemma GrownBelow(t: Tree, u: Tree, r: Path, rel: Path)
    requires WellFormed(t) && WellFormed(u) && IsDir(t, r) && Grown(t, u, r + rel)
    ensures OnlyBelow(t, u, r)
    ensures IsDir(u, r + rel) ==> OpenTo(Subtree(t, r), rel) && Subtree(u, r) == WithDirs(Subtree(t, r), rel)
  {
    GrownExtends(t, u, r + rel);
    forall k | !(r <= k) ensures At(u, k) == At(t, k) {
      if k <= r + rel {
        assert k < r;
        AncestorIsDir(t, k, r);
      }
    }
    if IsDir(u, r + rel) {
      GrownOpenWay(t, u, r + rel);
      OpenWayBelow(t, r, rel);
      forall q ensures At(Subtree(u, r), q) == At(WithDirs(Subtree(t, r), rel), q) {
        assert q in Subtree(u, r) <==> r + q in u;
        assert At(u, r + q) == At(t, r + q) || (r + q !in t && r + q <= r + rel && At(u, r + q) == Some(DirE));
        if q <= rel {
          assert r + q <= r + rel;
          if r + q != r + rel {
            AncestorIsDir(u, r + q, r + rel);
          }
        } else if r + q <= r + rel {
          assert q == (r + q)[|r|..] && rel == (r + rel)[|r|..];
        }
      }
      SameTree(Subtree(u, r), WithDirs(Subtree(t, r), rel));
    }
  }

  // ---- The operations ----

  method RestoreDirectory(fs: FileSystem, root: string, ghost r: Path, e: ArchiveEntry) returns (ok: bool)
    requires fs.Valid() && Where(fs.tree, root, true) == Spot(r) && IsDir(fs.tree, r)
    requires ValidRelative(e.path) && e.kind == Directory
    modifies fs
    ensures fs.Valid() && OnlyBelow(old(fs.tree), fs.tree, r)
    ensures ok ==> Placing(Subtree(old(fs.tree), r), e) == Some(Subtree(fs.tree, r))
    ensures fs.reliable ==> ok == Placing(Subtree(old(fs.tree), r), e).Some?
  {
    ghost var start := fs.tree;
    ok := EnsureArchiveEntryDirectory(fs, root, r, e.path, true);
    OpenWayBelow(start, r, Comps(e.path));
    GrownBelow(start, fs.tree, r, Comps(e.path));
  }

  /** The data of an entry, in the pieces the archive library hands out. */
  method CopyEntryData(fs: FileSystem, fd: Path, bytes: seq<byte>, intact: bool) returns (ok: bool)
    requires fs.Valid() && At(fs.tree, fd) == Some(FileE([]))
    modifies fs
    ensures fs.Valid() && OthersKept(old(fs.tree), fs.tree, fd)
    ensures fd in fs.tree && fs.tree[fd].FileE?
    ensures ok ==> fs.tree[fd] == FileE(bytes)
    ensures fs.reliable && intact ==> ok
  {
    var offset := 0;
    while true
      invariant fs.Valid() && offset <= |bytes| && OthersKept(old(fs.tree), fs.tree, fd)
      invariant fd in fs.tree && fs.tree[fd] == FileE(bytes[..offset])
      decreases |bytes| - offset
    {
      var fault: bool := *;
      if fault && !intact {
        return false;
      }
      var count: int := *;
      var most := if |bytes| - offset < STREAM_BUFFER_SIZE then |bytes| - offset else STREAM_BUFFER_SIZE;
      if count <= 0 || count > most {
        count := most;
      }
      if count == 0 {
        break;
      }
      ok := WriteBuffer(fs, fd, bytes[offset..offset + count]);
      if !ok {
        return;
      }
      assert bytes[..offset] + bytes[offset..offset + count] == bytes[..offset + count];
      offset := offset + count;
    }
    assert bytes[..offset] == bytes;
    ok := true;
  }

  /** The parents exist; what remains is the file itself. */
  method RestoreFileLeaf(fs: FileSystem, root: string, ghost r: Path, e: ArchiveEntry, intact: bool) returns (ok: bool)
    requires fs.Valid() && Where(fs.tree, root, true) == Spot(r) && IsDir(fs.tree, r)
    requires ValidRelative(e.path) && Comps(e.path) != [] && IsDir(fs.tree, Parent(r + Comps(e.path)))
    modifies fs
    ensures fs.Valid() && OthersKept(old(fs.tree), fs.tree, r + Comps(e.path))
    ensures Extends(old(fs.tree), fs.tree)
    ensures ok ==> At(fs.tree, r + Comps(e.path)) == Some(FileE(e.bytes))
    ensures var p := r + Comps(e.path);
            && (ok ==> p in old(fs.tree) ==> old(fs.tree)[p].FileE?)
            && (fs.reliable && intact && (p in old(fs.tree) ==> old(fs.tree)[p].FileE?) ==> ok)
  {
    hide Walk, Comps, ValidRelative;
    ghost var p, start := r + Comps(e.path), fs.tree;
    var destination := JoinPath(root, e.path);
    ValidRelativeMeaning(e.path);
    WhereBelow(start, root, r, destination, Comps(e.path), false);
    var status := fs.Lstat(destination);
    if status == Failed || (status.Stat? && status.entry.LinkE?) {
      return false;
    }
    WhereBelow(start, root, r, destination, Comps(e.path), true);
    var fd;
    ok, fd := fs.OpenWriteTrunc(destination);
    if !ok {
      return;
    }
    ghost var begun := fs.tree;
    ok := CopyEntryData(fs, fd, e.bytes, intact);
    forall k | k in start ensures k in fs.tree && (fs.tree[k] == start[k] || (start[k].FileE? && fs.tree[k].FileE?)) {
      if k != p {
        assert At(fs.tree, k) == At(begun, k);
      }
    }
  }

  method RestoreRegularFile(fs: FileSystem, root: string, ghost r: Path, e: ArchiveEntry, intact: bool)
    returns (ok: bool)
    requires fs.Valid() && Where(fs.tree, root, true) == Spot(r) && IsDir(fs.tree, r)
    requires ValidRelative(e.path) && e.kind == Regular
    modifies fs
    ensures fs.Valid() && OnlyBelow(old(fs.tree), fs.tree, r)
    ensures ok ==> Placing(Subtree(old(fs.tree), r), e) == Some(Subtree(fs.tree, r))
    ensures fs.reliable && intact ==> ok == Placing(Subtree(old(fs.tree), r), e).Some?
  {
    ghost var start, lead, names := fs.tree, Lead(e.path, false), Comps(e.path);
    ok := EnsureArchiveEntryDirectory(fs, root, r, e.path, false);
    ghost var grown := fs.tree;
    OpenWayBelow(start, r, lead);
    GrownBelow(start, grown, r, lead);
    if !ok {
      return;
    }
    RootStays(start, grown, root, r);
    LeadHoldsFile(grown, r, e.path);
    ok := RestoreFileLeaf(fs, root, r, e, intact);
    FileLeafBelow(start, grown, fs.tree, r, names);
    if ok {
      FileLeafSubtree(grown, fs.tree, r, names, e.bytes);
    }
  }

  lemma LeadHoldsFile(t: Tree, r: Path, path: string)
    requires WellFormed(t) && ValidRelative(path) && IsDir(t, r + Lead(path, false))
    ensures Comps(path) != [] && IsDir(t, Parent(r + Comps(path)))
  {
    ValidRelativeMeaning(path);
    var names := Comps(path);
    assert Parent(r + names) == r + Parent(names);
  }

  lemma FileLeafBelow(t: Tree, g: Tree, u: Tree, r: Path, names: Path)
    requires OnlyBelow(t, g, r) && Extends(g, u) && OthersKept(g, u, r + names)
    ensures OnlyBelow(t, u, r)
  {
    forall k | !(r <= k) ensures At(u, k) == At(t, k) {
      assert k != r + names;
      assert At(u, k) == At(g, k);
    }
  }

  lemma FileLeafSubtree(g: Tree, u: Tree, r: Path, names: Path, bytes: seq<byte>)
    requires OthersKept(g, u, r + names) && At(u, r + names) == Some(FileE(bytes))
    ensures Subtree(u, r) == Subtree(g, r)[names := FileE(bytes)]
  {
    var v := Subtree(g, r)[names := FileE(bytes)];
    forall q ensures At(Subtree(u, r), q) == At(v, q) {
      assert q in Subtree(u, r) <==> r + q in u;
      assert q in Subtree(g, r) <==> r + q in g;
      if q != names {
        assert (r + q)[|r|..] == q && (r + names)[|r|..] == names;
        assert At(u, r + q) == At(g, r + q);
      }
    }
    SameTree(Subtree(u, r), v);
  }

  method ExtractEntry(fs: FileSystem, root: string, ghost r: Path, e: ArchiveEntry, intact: bool) returns (ok: bool)
    requires fs.Valid() && Where(fs.tree, root, true) == Spot(r) && IsDir(fs.tree, r)
    modifies fs
    ensures fs.Valid() && OnlyBelow(old(fs.tree), fs.tree, r)
    ensures ok ==> Placing(Subtree(old(fs.tree), r), e) == Some(Subtree(fs.tree, r))
    ensures fs.reliable && intact ==> ok == Placing(Subtree(old(fs.tree), r), e).Some?
  {
    ok := ValidateArchiveRelativePath(e.path);
    if !ok {
      return;
    }
    match e.kind
    case Directory => ok := RestoreDirectory(fs, root, r, e);
    case Regular => ok := RestoreRegularFile(fs, root, r, e, intact);
    case Unsupported => ok := false;
  }

  /** extract_archive_to_directory and the entry loop of extract_raze_package: whatever links lie
      below the root, nothing outside it changes, and success means every entry was placed. */
  method ExtractArchive(fs: FileSystem, root: string, ghost r: Path, entries: seq<ArchiveEntry>, intact: bool)
    returns (ok: bool)
    requires fs.Valid() && Where(fs.tree, root, true) == Spot(r) && IsDir(fs.tree, r)
    modifies fs
    ensures fs.Valid() && OnlyBelow(old(fs.tree), fs.tree, r)
    ensures ok ==> Extracted(Subtree(old(fs.tree), r), entries) == Some(Subtree(fs.tree, r))
    ensures fs.reliable && intact ==> ok == Extracted(Subtree(old(fs.tree), r), entries).Some?
  {
    ghost var start := fs.tree;
    assert entries[0..] == entries;
    for i := 0 to |entries|
      invariant fs.Valid() && OnlyBelow(start, fs.tree, r)
      invariant Extracted(Subtree(start, r), entries) == Extracted(Subtree(fs.tree, r), entries[i..])
    {
      var fault: bool := *;
      if fault && !intact {
        return false;
      }
      assert entries[i..][0] == entries[i] && entries[i..][1..] == entries[i + 1..];
      ghost var before := fs.tree;
      RootStays(start, before, root, r);
      ok := ExtractEntry(fs, root, r, entries[i], intact);
      OnlyBelowTwice(start, before, fs.tree, r);
      if !ok {
        return;
      }
    }
    assert entries[|entries|..] == [];
    var fault: bool := *;
    ok := intact || !fault;
  }

  lemma OnlyBelowTwice(t: Tree, u: Tree, v: Tree, r: Path)
    requires OnlyBelow(t, u, r) && OnlyBelow(u, v, r)
    ensures OnlyBelow(t, v, r)
  {
    forall k | !(r <= k) ensures At(v, k) == At(t, k) {
      assert At(v, k) == At(u, k);
    }
  }

  // ---- What extraction means, told by the entries ----

  predicate Writes(e: ArchiveEntry, k: Path) {
    e.kind.Regular? && Comps(e.path) == k
  }

  /** Entry i is the last one that writes a file at k. */
  ghost predicate LastWriter(entries: seq<ArchiveEntry>, i: int, k: Path) {
    0 <= i < |entries| && Writes(entries[i], k) && forall j | i < j < |entries| :: !Writes(entries[j], k)
  }

  ghost predicate Unwritten(entries: seq<ArchiveEntry>, k: Path) {
    forall i | 0 <= i < |entries| :: !Writes(entries[i], k)
  }

  /** Every file is as its last entry has it, every directory is there, and all else is as before, but for
      directories on the way to an entry. */
  ghost predicate HoldsEntries(s: Tree, u: Tree, entries: seq<ArchiveEntry>) {
    && (forall i, k | LastWriter(entries, i, k) :: At(u, k) == Some(FileE(entries[i].bytes)))
    && (forall i | 0 <= i < |entries| && entries[i].kind.Directory? :: IsDir(u, Comps(entries[i].path)))
    && (forall k | Unwritten(entries, k) ::
          At(u, k) == if k in s then Some(s[k]) else if OnTheWay(entries, k) then Some(DirE) else None)
  }

  ghost predicate OnTheWay(entries: seq<ArchiveEntry>, k: Path) {
    exists i | 0 <= i < |entries| :: k <= Comps(entries[i].path)
  }

  /** The tree lets the entry be placed: directories on its way, and at its place what may be replaced. */
  ghost predicate Placeable(s: Tree, e: ArchiveEntry) {
    && ValidRelative(e.path) && !e.kind.Unsupported? && (e.kind.Regular? ==> e.path[|e.path| - 1] != '/')
    && (forall k | k in s && k <= Comps(e.path) ::
          if e.kind.Regular? && k == Comps(e.path) then s[k].FileE? else s[k].DirE?)
  }

  /** e is a file where f needs a directory. */
  predicate Blocks(e: ArchiveEntry, f: ArchiveEntry) {
    e.kind.Regular? && Comps(e.path) <= Comps(f.path) && (f.kind.Regular? ==> Comps(e.path) != Comps(f.path))
  }

  /** Every entry suits the tree and no two entries are at odds. */
  ghost predicate Extractable(s: Tree, entries: seq<ArchiveEntry>) {
    && (forall i | 0 <= i < |entries| :: Placeable(s, entries[i]))
    && (forall i, j | 0 <= i < |entries| && 0 <= j < |entries| :: !Blocks(entries[i], entries[j]))
  }

  lemma OpenToMeaning(s: Tree, p: Path)
    ensures OpenTo(s, p) <==> forall k | k in s && k <= p :: s[k].DirE?
  {
    assert forall k | k <= p :: k == p[..|k|];
  }

  lemma OpenToParent(s: Tree, p: Path)
    requires p != []
    ensures OpenTo(s, Parent(p)) <==> forall k | k in s && k <= p && k != p :: s[k].DirE?
  {
    hide OpenTo;
    OpenToMeaning(s, Parent(p));
    assert forall k | k in s :: k <= Parent(p) <==> k <= p && k != p;
  }

  /** One entry: whether it can be placed. */
  lemma PlacingIff(s: Tree, e: ArchiveEntry)
    ensures Placing(s, e).Some? <==> Placeable(s, e)
  {
    if ValidRelative(e.path) && !e.kind.Unsupported? {
      ValidRelativeMeaning(e.path);
      var p := Comps(e.path);
      hide OpenTo, ValidRelative, Comps;
      OpenToParent(s, p);
      OpenToMeaning(s, p);
      LeafInWay(s, p);
    }
  }

  /** The leaf after the directories in front of it were made. */
  lemma LeafInWay(s: Tree, p: Path)
    requires p != []
    ensures At(WithDirs(s, Parent(p)), p) == At(s, p)
    ensures At(WithDirs(s, p), p) == if p in s then Some(s[p]) else Some(DirE)
  {
  }

  /** One entry: every node afterwards. */
  lemma PlacingAt(s: Tree, e: ArchiveEntry, k: Path)
    requires Placing(s, e).Some?
    ensures At(Placing(s, e).value, k) ==
            if Writes(e, k) then Some(FileE(e.bytes)) else if k in s then Some(s[k])
            else if k <= Comps(e.path) then Some(DirE) else None
  {
    ValidRelativeMeaning(e.path);
    hide OpenTo, ValidRelative, Comps;
  }

  lemma PlaceableNext(s: Tree, e: ArchiveEntry, f: ArchiveEntry)
    requires Placing(s, e).Some?
    ensures Placeable(Placing(s, e).value, f) <==> Placeable(s, f) && !Blocks(e, f) && !Blocks(f, e)
  {
    var u, p, q := Placing(s, e).value, Comps(e.path), Comps(f.path);
    PlacingIff(s, e);
    forall k ensures At(u, k) == if Writes(e, k) then Some(FileE(e.bytes)) else if k in s then Some(s[k])
                                 else if k <= p then Some(DirE) else None {
      PlacingAt(s, e, k);
    }
    hide Placing, ValidRelative, Comps;
    assert At(u, p).Some? && At(u, q) == At(u, q);
    if Placeable(u, f) {
      forall k | k in s && k <= q ensures if f.kind.Regular? && k == q then s[k].FileE? else s[k].DirE? {
        assert At(u, k).Some?;
      }
    }
  }

  /** Extraction succeeds exactly if every entry suits the tree and no two entries are at odds. */
  lemma {:induction false} ExtractedIff(s: Tree, entries: seq<ArchiveEntry>)
    ensures Extracted(s, entries).Some? <==> Extractable(s, entries)
    decreases |entries|
  {
    if entries != [] {
      var e, rest := entries[0], entries[1..];
      PlacingIff(s, e);
      if Placing(s, e).Some? {
        ExtractedIff(Placing(s, e).value, rest);
        ExtractableNext(s, e, rest);
        assert entries == [e] + rest;
      }
    }
  }

  lemma ExtractableNext(s: Tree, e: ArchiveEntry, rest: seq<ArchiveEntry>)
    requires Placing(s, e).Some? && Placeable(s, e)
    ensures Extractable(s, [e] + rest) <==> Extractable(Placing(s, e).value, rest)
  {
    hide Placing, Placeable;
    var u, all := Placing(s, e).value, [e] + rest;
    forall i | 0 <= i < |rest|
      ensures Placeable(u, rest[i]) <==> Placeable(s, rest[i]) && !Blocks(e, rest[i]) && !Blocks(rest[i], e)
    {
      PlaceableNext(s, e, rest[i]);
    }
    assert !Blocks(e, e);
    hide Blocks;
    assert forall i | 0 <= i < |rest| :: all[i + 1] == rest[i];
    if Extractable(s, all) {
      forall i | 0 <= i < |rest| ensures Placeable(u, rest[i]) {
        assert Placeable(s, all[i + 1]) && !Blocks(all[0], all[i + 1]) && !Blocks(all[i + 1], all[0]);
      }
      forall i, j | 0 <= i < |rest| && 0 <= j < |rest| ensures !Blocks(rest[i], rest[j]) {
        assert !Blocks(all[i + 1], all[j + 1]);
      }
    }
    if Extractable(u, rest) {
      forall i | 0 <= i < |all| ensures Placeable(s, all[i]) {
        assert i > 0 ==> all[i] == rest[i - 1];
      }
      forall i, j | 0 <= i < |all| && 0 <= j < |all| ensures !Blocks(all[i], all[j]) {
        assert i > 0 ==> all[i] == rest[i - 1] && Placeable(u, rest[i - 1]);
        assert j > 0 ==> all[j] == rest[j - 1] && Placeable(u, rest[j - 1]);
      }
    }
  }

  /** What a successful extraction leaves. */
  lemma {:induction false} ExtractedMeaning(s: Tree, entries: seq<ArchiveEntry>, u: Tree)
    requires Extracted(s, entries) == Some(u)
    ensures HoldsEntries(s, u, entries)
    decreases |entries|
  {
    if entries != [] {
      var e, rest := entries[0], entries[1..];
      ExtractedMeaning(Placing(s, e).value, rest, u);
      ExtractedIff(Placing(s, e).value, rest);
      assert entries == [e] + rest;
      FilesNext(s, e, rest, u);
      DirectoriesNext(s, e, rest, u);
      OthersNext(s, e, rest, u);
    }
  }

  lemma FilesNext(s: Tree, e: ArchiveEntry, rest: seq<ArchiveEntry>, u: Tree)
    requires Placing(s, e).Some? && HoldsEntries(Placing(s, e).value, u, rest)
    ensures var all := [e] + rest; forall i, k | LastWriter(all, i, k) :: At(u, k) == Some(FileE(all[i].bytes))
  {
    hide Placing, Comps;
    var all := [e] + rest;
    assert forall i | 0 <= i < |rest| :: all[i + 1] == rest[i];
    forall i, k | LastWriter(all, i, k) ensures At(u, k) == Some(FileE(all[i].bytes)) {
      if i > 0 {
        assert LastWriter(rest, i - 1, k);
      } else {
        assert Unwritten(rest, k);
        PlacingAt(s, e, k);
      }
    }
  }

  lemma DirectoriesNext(s: Tree, e: ArchiveEntry, rest: seq<ArchiveEntry>, u: Tree)
    requires Placing(s, e).Some? && HoldsEntries(Placing(s, e).value, u, rest)
    requires Extractable(Placing(s, e).value, rest)
    ensures var all := [e] + rest;
            forall i | 0 <= i < |all| && all[i].kind.Directory? :: IsDir(u, Comps(all[i].path))
  {
    hide Placing, Comps;
    var all, v, p := [e] + rest, Placing(s, e).value, Comps(e.path);
    forall i | 0 <= i < |all| && all[i].kind.Directory? ensures IsDir(u, Comps(all[i].path)) {
      if i > 0 {
        assert all[i] == rest[i - 1];
      } else {
        PlacingIff(s, e);
        PlacingAt(s, e, p);
        assert Unwritten(rest, p) by {
          forall j | 0 <= j < |rest| ensures !Writes(rest[j], p) {
            assert Placeable(v, rest[j]) && At(v, p) == Some(DirE);
          }
        }
      }
    }
  }

  lemma OthersNext(s: Tree, e: ArchiveEntry, rest: seq<ArchiveEntry>, u: Tree)
    requires Placing(s, e).Some? && HoldsEntries(Placing(s, e).value, u, rest)
    ensures var all := [e] + rest;
            forall k | Unwritten(all, k) ::
              At(u, k) == if k in s then Some(s[k]) else if OnTheWay(all, k) then Some(DirE) else None
  {
    hide Placing, Comps;
    var all := [e] + rest;
    assert all[0] == e && forall i | 0 <= i < |rest| :: all[i + 1] == rest[i];
    forall k | Unwritten(all, k)
      ensures At(u, k) == if k in s then Some(s[k]) else if OnTheWay(all, k) then Some(DirE) else None
    {
      assert Unwritten(rest, k);
      PlacingAt(s, e, k);
      OnTheWayNext(e, rest, k);
    }
  }

  lemma OnTheWayNext(e: ArchiveEntry, rest: seq<ArchiveEntry>, k: Path)
    ensures OnTheWay([e] + rest, k) <==> k <= Comps(e.path) || OnTheWay(rest, k)
  {
    hide Comps;
    var all := [e] + rest;
    assert all[0] == e && forall i | 0 <= i < |rest| :: all[i + 1] == rest[i];
    if OnTheWay(all, k) {
      var i :| 0 <= i < |all| && k <= Comps(all[i].path);
      assert i > 0 ==> k <= Comps(rest[i - 1].path);
    }
    if OnTheWay(rest, k) {
      var i :| 0 <= i < |rest| && k <= Comps(rest[i].path);
      assert k <= Comps(all[i + 1].path);
    }
  }
}
