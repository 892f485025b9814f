/** Whole files through links. */
module Files {
  import opened Bytes
  import opened Paths
  import opened FileTree
  import opened PathWalk
  import opened FileSystem
  import opened PathSafety
  import opened FsOps
  import opened Extraction

  /** The content of the file that a path names, links followed. */
  function FileBytes(t: Tree, path: string): Option<seq<byte>> {
    var s := Where(t, path, true);
    if s.Spot? && s.loc in t && t[s.loc].FileE? then Some(t[s.loc].bytes) else None
  }

  /** Directories that are added do not hide a file. */
  lemma FileBytesKept(t: Tree, u: Tree, path: string)
    requires OnlyDirsAdded(t, u) && FileBytes(t, path).Some?
    ensures FileBytes(u, path) == FileBytes(t, path)
  {
    forall k | k in t ensures k in u && u[k] == t[k] {
      assert At(u, k) == At(t, k);
    }
    WalkStable(t, u, [], Comps(path), true, MAX_LINKS);
  }

  /** A walk that ends at a free place ends at the file that is created there. */
  lemma {:induction false} WalkCreated(t: Tree, u: Tree, at: Path, todo: seq<string>, hops: nat)
    requires var s := Walk(t, at, todo, true, hops); s.Spot? && s.loc in u && u[s.loc].FileE? && OthersKept(t, u, s.loc)
    requires var loc := Walk(t, at, todo, true, hops).loc; loc in t ==> t[loc].FileE?
    ensures Walk(u, at, todo, true, hops) == Walk(t, at, todo, true, hops)
    decreases hops, |todo|
  {
    hide Comps;
    if todo != [] {
      var loc, here := Walk(t, at, todo, true, hops).loc, at + [todo[0]];
      assert At(u, at) == At(t, at) || at == loc;
      assert At(u, here) == At(t, here) || here == loc;
      if todo[0] == "." {
        WalkCreated(t, u, at, todo[1..], hops);
      } else if todo[0] == ".." {
        WalkCreated(t, u, if at == [] then [] else Parent(at), todo[1..], hops);
      } else if IsLink(t, here) {
        var target := t[here].target;
        WalkCreated(t, u, LinkBase(at, target), Comps(target) + todo[1..], hops - 1);
      } else {
        WalkCreated(t, u, here, todo[1..], hops);
      }
    }
  }

  /** The path names a file or a free place. */
  predicate CanReplace(t: Tree, path: string) {
    var s := Where(t, path, true);
    s.Spot? && (s.loc in t ==> t[s.loc].FileE?)
  }

  function Replaced(t: Tree, path: string, bytes: seq<byte>): Tree
    requires CanReplace(t, path)
  {
    t[Where(t, path, true).loc := FileE(bytes)]
  }

  /** At most the content of the file that the path names is another. */
  ghost predicate Rewritten(t: Tree, u: Tree, path: string) {
    var s := Where(t, path, true);
    u == t || (CanReplace(t, path) && OthersKept(t, u, s.loc) && s.loc in u && u[s.loc].FileE?)
  }

  /** Where a file was written, a walk ends where it ended before, if it still ends. */
  lemma {:induction false} WalkRewritten(t: Tree, u: Tree, file: Path, at: Path, todo: seq<string>, hops: nat)
    requires OthersKept(t, u, file) && file in u && u[file].FileE? && (file in t ==> t[file].FileE?)
    requires Walk(u, at, todo, false, hops).Spot?
    ensures Walk(t, at, todo, false, hops) == Walk(u, at, todo, false, hops)
    decreases hops, |todo|
  {
    if todo != [] {
      var here := at + [todo[0]];
      assert At(u, at) == At(t, at);
      assert At(u, here) == At(t, here) || here == file;
      if todo[0] == "." {
        WalkRewritten(t, u, file, at, todo[1..], hops);
      } else if todo[0] == ".." {
        WalkRewritten(t, u, file, if at == [] then [] else Parent(at), todo[1..], hops);
      } else if IsLink(u, here) && |todo| > 1 {
        var target := u[here].target;
        WalkRewritten(t, u, file, LinkBase(at, target), Comps(target) + todo[1..], hops - 1);
      } else {
        assert |todo| == 1 ==> todo[1..] == [];
        WalkRewritten(t, u, file, here, todo[1..], hops);
      }
    }
  }

  /** An output file stream: truncates or creates the file and writes everything. */
  method ReplaceFile(fs: FileSystem, path: string, bytes: seq<byte>) returns (ok: bool)
    requires fs.Valid()
    modifies fs
    ensures fs.Valid()
    ensures ok ==> FileBytes(fs.tree, path) == Some(bytes)
    ensures ok ==> CanReplace(old(fs.tree), path) && fs.tree == Replaced(old(fs.tree), path, bytes)
    ensures Rewritten(old(fs.tree), fs.tree, path)
    ensures fs.reliable && CanReplace(old(fs.tree), path) ==> ok
  {
    ghost var start := fs.tree;
    var fd;
    ok, fd := fs.OpenWriteTrunc(path);
    if !ok {
      return;
    }
    ok := FsOps.WriteBuffer(fs, fd, bytes);
    assert [] + bytes == bytes;
    WalkCreated(start, fs.tree, [], Comps(path), MAX_LINKS);
    if ok {
      forall k ensures At(fs.tree, k) == At(start[fd := FileE(bytes)], k) {}
      SameTree(fs.tree, start[fd := FileE(bytes)]);
    }
  }
}

/** Digests as text (compute_file_sha256 and to_lower_ascii of src/raze_update.cpp). */
module HexText {
  import opened Bytes

  function LowerChar(c: char): char {
    if 'A' <= c <= 'Z' then (c as int + 32) as char else c
  }

  function Lower(s: string): (r: string)
    ensures |r| == |s|
  {
    seq(|s|, i requires 0 <= i < |s| => LowerChar(s[i]))
  }

  const CAPITALS := "ABCDEFGHIJKLMNOPQRSTUVWXYZ"
  const LETTERS := "abcdefghijklmnopqrstuvwxyz"

  /** c is a capital and d its small letter. */
  ghost predicate CapitalOf(c: char, d: char) {
    exists k | 0 <= k < 26 :: c == CAPITALS[k] && d == LETTERS[k]
  }

  ghost predicate SameLetter(c: char, d: char) {
    c == d || CapitalOf(c, d) || CapitalOf(d, c)
  }

  lemma Alphabet(k: nat)
    requires k < 26
    ensures CAPITALS[k] as int == 'A' as int + k && LETTERS[k] as int == 'a' as int + k
  {
  }

  lemma CapitalRange(c: char, d: char)
    ensures CapitalOf(c, d) <==> 'A' <= c <= 'Z' && d as int == c as int + 32
  {
    forall k: nat | k < 26 ensures CAPITALS[k] as int == 'A' as int + k && LETTERS[k] as int == 'a' as int + k {
      Alphabet(k);
    }
    if 'A' <= c <= 'Z' && d as int == c as int + 32 {
      assert c == CAPITALS[c as int - 'A' as int] && d == LETTERS[c as int - 'A' as int];
    }
  }

  /** The texts differ in the case of letters only. */
  ghost predicate SameText(a: string, b: string) {
    |a| == |b| && forall i | 0 <= i < |a| :: SameLetter(a[i], b[i])
  }

  /** Texts are equal in small letters exactly if they differ in the case of letters only. */
  lemma LowerMeaning(a: string, b: string)
    ensures Lower(a) == Lower(b) <==> SameText(a, b)
  {
    forall c: char, d: char ensures SameLetter(c, d) <==> LowerChar(c) == LowerChar(d) {
      CapitalRange(c, d);
      CapitalRange(d, c);
    }
    hide LowerChar, SameLetter;
    if Lower(a) == Lower(b) {
      forall i | 0 <= i < |a| ensures SameLetter(a[i], b[i]) {
        assert Lower(a)[i] == Lower(b)[i];
      }
    }
  }

  method ToLowerAscii(value: string) returns (lowered: string)
    ensures lowered == Lower(value)
  {
    lowered := value;
    for index := 0 to |lowered|
      invariant |lowered| == |value|
      invariant forall i | 0 <= i < index :: lowered[i] == LowerChar(value[i])
      invariant forall i | index <= i < |value| :: lowered[i] == value[i]
    {
      if 'A' <= lowered[index] <= 'Z' {
        lowered := lowered[index := (lowered[index] as int - 'A' as int + 'a' as int) as char];
      }
    }
  }

  function Digit(n: nat): char
    requires n < 16
  {
    if n < 10 then ('0' as int + n) as char else ('a' as int + (n - 10)) as char
  }

  /** Two lower-case hexadecimal digits for each byte. */
  function Hex(bytes: seq<byte>): (s: string)
    ensures |s| == 2 * |bytes|
  {
    if bytes == [] then "" else [Digit(bytes[0] as int / 16), Digit(bytes[0] as int % 16)] + Hex(bytes[1..])
  }

  const DIGITS := "0123456789abcdef"

  /** Each byte gives its high digit and then its low digit. */
  lemma {:induction false} HexDigits(bytes: seq<byte>, i: nat)
    requires i < |bytes|
    ensures Hex(bytes)[2 * i] == DIGITS[bytes[i] as int / 16] && Hex(bytes)[2 * i + 1] == DIGITS[bytes[i] as int % 16]
  {
    DigitShown(bytes[i] as int / 16);
    DigitShown(bytes[i] as int % 16);
    hide Digit;
    if i > 0 {
      HexDigits(bytes[1..], i - 1);
    }
  }

  lemma DigitShown(n: nat)
    requires n < 16
    ensures Digit(n) == DIGITS[n]
  {
  }

  /** Different byte strings have different texts, even when case is ignored. */
  lemma {:induction false} HexInjective(a: seq<byte>, b: seq<byte>)
    requires Lower(Hex(a)) == Lower(Hex(b))
    ensures a == b
  {
    LowerHex(a);
    LowerHex(b);
    assert |a| == |b|;
    if a != [] {
      assert Hex(a)[..2] == Hex(b)[..2];
      assert Hex(a)[2..] == Hex(a[1..]) && Hex(b)[2..] == Hex(b[1..]);
      assert Hex(a)[0] == Hex(b)[0] && Hex(a)[1] == Hex(b)[1];
      LowerHex(a[1..]);
      LowerHex(b[1..]);
      HexInjective(a[1..], b[1..]);
    }
  }

  lemma {:induction false} LowerHex(bytes: seq<byte>)
    ensures Lower(Hex(bytes)) == Hex(bytes)
  {
    if bytes != [] {
      LowerHex(bytes[1..]);
      assert forall i | 2 <= i < |Hex(bytes)| ::
             Hex(bytes)[i] == Hex(bytes[1..])[i - 2] == Lower(Hex(bytes[1..]))[i - 2];
    }
  }
}

/** Planning and carrying out an update (src/raze_update.cpp, cli/main.cpp). */
module RazeUpdate {
  import opened Bytes
  import opened Paths
  import opened FileTree
  import opened PathWalk
  import opened FileSystem
  import opened PathSafety
  import opened FsOps
  import opened Extraction
  import opened Sorting
  import opened RestoreStage
  import opened Sha256Standard
  import opened Sha256
  import opened Files
  import opened HexText

  datatype PackageInfo = PackageInfo(name: string, file: string, hash: string)

  /** version.json, parsed, with its text. */
  datatype Manifest = Manifest(hashAlgorithm: string, packages: map<string, PackageInfo>, raw: seq<byte>)

  datatype Update = Update(name: string, file: string, downloadUrl: string, remoteHash: string, needsDownload: bool)

  // ---- Planning ----

  /** The local manifest has the package with the same hash, letter case aside. */
  predicate Unchanged(hasLocal: bool, local: Manifest, p: PackageInfo) {
    hasLocal && p.name in local.packages && Lower(local.packages[p.name].hash) == Lower(p.hash)
  }

  lemma UnchangedMeaning(hasLocal: bool, local: Manifest, p: PackageInfo)
    ensures Unchanged(hasLocal, local, p) <==>
            hasLocal && p.name in local.packages && SameText(local.packages[p.name].hash, p.hash)
  {
    if p.name in local.packages {
      LowerMeaning(local.packages[p.name].hash, p.hash);
    }
  }

  /** What is planned for one package, given the files of the release. */
  predicate Plans(u: Update, hasLocal: bool, local: Manifest, assets: map<string, string>, p: PackageInfo) {
    && u.name == p.name && u.file == p.file && u.remoteHash == p.hash
    && u.needsDownload == !Unchanged(hasLocal, local, p)
    && (u.needsDownload ==> p.file in assets)
    && u.downloadUrl == if p.file in assets then assets[p.file] else ""
  }

  /** One update per remote package, in the order of the map. */
  ghost predicate IsPlan(updates: seq<Update>, remote: Manifest, hasLocal: bool, local: Manifest,
                         assets: map<string, string>) {
    var keys := Sorted(remote.packages.Keys);
    && |updates| == |keys|
    && forall i | 0 <= i < |keys| ::
         keys[i] in remote.packages && Plans(updates[i], hasLocal, local, assets, remote.packages[keys[i]])
  }

  /** The release has a file for every package that changed. */
  ghost predicate Plannable(remote: Manifest, hasLocal: bool, local: Manifest, assets: map<string, string>) {
    forall k | k in remote.packages ::
      Unchanged(hasLocal, local, remote.packages[k]) || remote.packages[k].file in assets
  }

  method PlanOne(p: PackageInfo, hasLocal: bool, local: Manifest, assets: map<string, string>)
    returns (ok: bool, u: Update)
    ensures ok ==> Plans(u, hasLocal, local, assets, p)
    ensures ok <==> Unchanged(hasLocal, local, p) || p.file in assets
  {
    var needsDownload := true;
    if hasLocal && p.name in local.packages {
      var localHash := ToLowerAscii(local.packages[p.name].hash);
      var remoteHash := ToLowerAscii(p.hash);
      needsDownload := localHash != remoteHash;
    }
    u := Update(p.name, p.file, "", p.hash, needsDownload);
    if needsDownload && p.file !in assets {
      return false, u;
    }
    if p.file in assets {
      u := u.(downloadUrl := assets[p.file]);
    }
    ok := true;
  }

  method PlanPackageUpdates(remote: Manifest, hasLocal: bool, local: Manifest, assets: map<string, string>)
    returns (ok: bool, updates: seq<Update>)
    ensures ok ==> IsPlan(updates, remote, hasLocal, local, assets)
    ensures ok <==> Plannable(remote, hasLocal, local, assets)
  {
    var keys := KeysInOrder(remote.packages);
    updates := [];
    for i := 0 to |keys|
      invariant |updates| == i
      invariant forall j | 0 <= j < i :: Plans(updates[j], hasLocal, local, assets, remote.packages[keys[j]])
    {
      var u;
      ok, u := PlanOne(remote.packages[keys[i]], hasLocal, local, assets);
      if !ok {
        return;
      }
      updates := updates + [u];
    }
    ok := true;
    forall k | k in remote.packages
      ensures Unchanged(hasLocal, local, remote.packages[k]) || remote.packages[k].file in assets
    {
      assert k in Elems(keys);
      var j :| 0 <= j < |keys| && keys[j] == k;
      assert Plans(updates[j], hasLocal, local, assets, remote.packages[keys[j]]);
    }
  }

  /** A std::map is iterated in the order of its keys. */
  method KeysInOrder(packages: map<string, PackageInfo>) returns (keys: seq<string>)
    ensures keys == Sorted(packages.Keys) && forall i | 0 <= i < |keys| :: keys[i] in packages
  {
    var listed := AnyOrder(packages.Keys);
    assert Elems(listed) == packages.Keys;
    keys := Sort(listed);
    AscendingUnique(keys, Sorted(packages.Keys));
    forall i | 0 <= i < |keys| ensures keys[i] in packages {
      assert keys[i] in Elems(keys);
    }
  }

  /** Packages are filed under their own names; the parser sees to that. */
  ghost predicate Filed(m: Manifest) {
    forall k | k in m.packages :: m.packages[k].name == k
  }

  /** Planning with the remote manifest as the local one succeeds and downloads nothing, whatever the
      release offers. */
  lemma ReplanNeedsNothing(m: Manifest, assets: map<string, string>, updates: seq<Update>)
    requires Filed(m)
    ensures Plannable(m, true, m, assets)
    ensures IsPlan(updates, m, true, m, assets) ==> forall i | 0 <= i < |updates| :: !updates[i].needsDownload
  {
    if IsPlan(updates, m, true, m, assets) {
      var keys := Sorted(m.packages.Keys);
      forall i | 0 <= i < |updates| ensures !updates[i].needsDownload {
        assert Plans(updates[i], true, m, assets, m.packages[keys[i]]);
      }
    }
  }

  // ---- One package ----

  method ComputeFileSha256(fs: FileSystem, path: string) returns (ok: bool, hashHex: string, ghost bytes: seq<byte>)
    ensures ok ==> FileBytes(fs.tree, path) == Some(bytes) && hashHex == Hex(Digest(bytes))
    ensures fs.reliable && FileBytes(fs.tree, path).Some? ==> ok
  {
    hashHex, bytes := "", [];
    var fd;
    ok, fd := fs.OpenRead(path);
    if !ok || !fs.tree[fd].FileE? {
      ok := false;
      return;
    }
    bytes := fs.tree[fd].bytes;
    var context := new Context();
    ok := DigestFile(fs, fd, context);
    if ok {
      var hash := new byte[32];
      context.Final(hash);
      hashHex := Hex(hash[..]);
    }
  }

  /** The read loop: the pieces in which the file arrives do not matter. */
  method DigestFile(fs: FileSystem, fd: Path, context: Context) returns (ok: bool)
    requires fd in fs.tree && fs.tree[fd].FileE? && context.Valid() && context.message == []
    modifies context, context.data, context.state
    ensures ok ==> context.Valid() && context.message == fs.tree[fd].bytes
    ensures fs.reliable ==> ok
  {
    assert STREAM_BUFFER_SIZE > 0;
    hide *;
    ghost var content := fs.tree[fd].bytes;
    var offset := 0;
    ok := true;
    while ok
      invariant ok ==> offset <= |content| && context.Valid() && context.message == content[..offset]
      decreases |content| - offset
    {
      var chunk;
      ok, chunk := fs.Read(fd, offset, STREAM_BUFFER_SIZE);
      if !ok {
        return;
      }
      if chunk == [] {
        assert content[..offset] == content;
        return;
      }
      context.Update(chunk);
      NextPiece(content, offset, chunk);
      offset := offset + |chunk|;
    }
  }

  lemma NextPiece(content: seq<byte>, offset: nat, chunk: seq<byte>)
    requires offset + |chunk| <= |content| && chunk == content[offset..offset + |chunk|]
    ensures content[..offset] + chunk == content[..offset + |chunk|]
  {
  }

  /** verify_raze_package_file. */
  method VerifyPackageFile(fs: FileSystem, path: string, hashAlgorithm: string, expected: string)
    returns (ok: bool, ghost bytes: seq<byte>)
    ensures ok ==> FileBytes(fs.tree, path) == Some(bytes) && Lower(Hex(Digest(bytes))) == Lower(expected)
    ensures ok ==> Lower(hashAlgorithm) == "sha256"
    ensures fs.reliable && FileBytes(fs.tree, path).Some? && Lower(hashAlgorithm) == "sha256" ==>
              (ok <==> Lower(Hex(Digest(FileBytes(fs.tree, path).value))) == Lower(expected))
  {
    bytes := [];
    var algorithm := ToLowerAscii(hashAlgorithm);
    if algorithm != "sha256" {
      return false, bytes;
    }
    var actual;
    ok, actual, bytes := ComputeFileSha256(fs, path);
    if !ok {
      return;
    }
    var actualLower := ToLowerAscii(actual);
    var expectedLower := ToLowerAscii(expected);
    ok := actualLower == expectedLower;
  }

  /** normalize_archive_path. */
  function Slashes(path: string): (r: string)
    ensures |r| == |path| && '\\' !in r
    ensures forall i | 0 <= i < |path| :: r[i] == path[i] || (path[i] == '\\' && r[i] == '/')
  {
    seq(|path|, i requires 0 <= i < |path| => if path[i] == '\\' then '/' else path[i])
  }

  function Normalized(entries: seq<ArchiveEntry>): (r: seq<ArchiveEntry>)
    ensures |r| == |entries|
    ensures forall i | 0 <= i < |entries| ::
              r[i] == ArchiveEntry(Slashes(entries[i].path), entries[i].kind, entries[i].bytes)
  {
    seq(|entries|, i requires 0 <= i < |entries| => entries[i].(path := Slashes(entries[i].path)))
  }

  /** A package archive and its unpacking below r. */
  datatype Install = Install(name: string, bytes: seq<byte>, r: Path, before: Tree, after: Tree)

  type Opener = seq<byte> -> Archive

  ghost predicate Unpacked(open: Opener, x: Install) {
    && OnlyBelow(x.before, x.after, x.r)
    && Extracted(Subtree(x.before, x.r), Normalized(open(x.bytes).entries)) == Some(Subtree(x.after, x.r))
  }

  /** Where a package entry goes, below the root. */
  function PlaceOf(e: ArchiveEntry): Path {
    Comps(Slashes(e.path))
  }

  /** No later file entry goes to the place of this one. */
  ghost predicate LastAt(entries: seq<ArchiveEntry>, i: nat)
    requires i < |entries|
  {
    forall j | i < j < |entries| && entries[j].kind.Regular? :: PlaceOf(entries[j]) != PlaceOf(entries[i])
  }

  /** The files and directories of a package are in the tree u, and all else is as it was in s, but for new
      directories. */
  ghost predicate PackageThere(entries: seq<ArchiveEntry>, s: Tree, u: Tree) {
    && (forall i | 0 <= i < |entries| && entries[i].kind.Regular? && LastAt(entries, i) ::
          At(u, PlaceOf(entries[i])) == Some(FileE(entries[i].bytes)))
    && (forall i | 0 <= i < |entries| && entries[i].kind.Directory? :: IsDir(u, PlaceOf(entries[i])))
    && (forall k: Path | forall i | 0 <= i < |entries| && entries[i].kind.Regular? :: PlaceOf(entries[i]) != k ::
          At(u, k) == At(s, k) || (k !in s && At(u, k) == Some(DirE)))
  }

  lemma FilesThere(entries: seq<ArchiveEntry>, s: Tree, u: Tree, i: nat)
    requires HoldsEntries(s, u, Normalized(entries)) && i < |entries|
    requires entries[i].kind.Regular? && LastAt(entries, i)
    ensures At(u, PlaceOf(entries[i])) == Some(FileE(entries[i].bytes))
  {
    hide Comps, Slashes, OnTheWay, Unwritten;
    assert LastWriter(Normalized(entries), i, PlaceOf(entries[i]));
  }

  lemma DirectoriesThere(entries: seq<ArchiveEntry>, s: Tree, u: Tree, i: nat)
    requires HoldsEntries(s, u, Normalized(entries)) && i < |entries| && entries[i].kind.Directory?
    ensures IsDir(u, PlaceOf(entries[i]))
  {
    hide Comps, Slashes, OnTheWay, Unwritten, LastWriter;
    assert IsDir(u, Comps(Normalized(entries)[i].path));
  }

  lemma OthersThere(entries: seq<ArchiveEntry>, s: Tree, u: Tree, k: Path)
    requires HoldsEntries(s, u, Normalized(entries))
    requires forall i | 0 <= i < |entries| && entries[i].kind.Regular? :: PlaceOf(entries[i]) != k
    ensures At(u, k) == At(s, k) || (k !in s && At(u, k) == Some(DirE))
  {
    hide Comps, Slashes, OnTheWay, LastWriter;
    assert Unwritten(Normalized(entries), k);
  }

  /** What was unpacked is there, told of the paths as they are in the package. */
  lemma UnpackedMeaning(entries: seq<ArchiveEntry>, s: Tree, u: Tree)
    requires Extracted(s, Normalized(entries)) == Some(u)
    ensures PackageThere(entries, s, u)
  {
    ExtractedMeaning(s, Normalized(entries), u);
    hide Extracted, PlaceOf, LastAt, Normalized, HoldsEntries;
    forall i | 0 <= i < |entries| && entries[i].kind.Regular? && LastAt(entries, i)
      ensures At(u, PlaceOf(entries[i])) == Some(FileE(entries[i].bytes))
    {
      FilesThere(entries, s, u, i);
    }
    forall i | 0 <= i < |entries| && entries[i].kind.Directory? ensures IsDir(u, PlaceOf(entries[i])) {
      DirectoriesThere(entries, s, u, i);
    }
    forall k: Path | forall i | 0 <= i < |entries| && entries[i].kind.Regular? :: PlaceOf(entries[i]) != k
      ensures At(u, k) == At(s, k) || (k !in s && At(u, k) == Some(DirE))
    {
      OthersThere(entries, s, u, k);
    }
  }

  /** The package is there below the root, which holds what it held before otherwise. */
  ghost predicate PackageBelow(entries: seq<ArchiveEntry>, x: Install) {
    PackageThere(entries, Subtree(x.before, x.r), Subtree(x.after, x.r))
  }

  /** The root is there, the archive can be read, every entry suits the tree below the root, and no two
      entries are at odds. */
  ghost predicate Unpackable(open: Opener, t: Tree, root: string, bytes: seq<byte>) {
    && root != "" && NamesDir(t, root) && open(bytes).readable && open(bytes).intact
    && Extractable(Subtree(t, Where(t, root, true).loc), Normalized(open(bytes).entries))
  }

  /** extract_raze_package; the archive is the file as it was verified. */
  method ExtractPackage(fs: FileSystem, file: string, root: string, open: Opener, name: string, ghost bytes: seq<byte>)
    returns (ok: bool, ghost x: Install)
    requires fs.Valid() && FileBytes(fs.tree, file) == Some(bytes)
    modifies fs
    ensures fs.Valid() && x.name == name && x.bytes == bytes && x.after == fs.tree
    ensures OnlyDirsAdded(old(fs.tree), x.before) && OnlyBelow(x.before, x.after, x.r)
    ensures FileBytes(x.before, file) == Some(bytes)
    ensures ok || x.after != x.before ==> Where(x.before, root, true) == Spot(x.r)
    ensures ok ==> Unpacked(open, x) && PackageBelow(open(bytes).entries, x)
    ensures fs.reliable && Unpackable(open, old(fs.tree), root, bytes) ==> ok
  {
    ghost var start := fs.tree;
    ok := EnsureDirectoryTreeFollowing(fs, root);
    FileBytesKept(start, fs.tree, file);
    x := Install(name, bytes, [], fs.tree, fs.tree);
    if !ok {
      return;
    }
    var found, fd := fs.OpenRead(file);
    if !found || !open(fs.tree[fd].bytes).readable {
      ok := false;
      return;
    }
    var archive := open(fs.tree[fd].bytes);
    ghost var r, before := Where(fs.tree, root, true).loc, fs.tree;
    ExtractedIff(Subtree(before, r), Normalized(archive.entries));
    ok := ExtractArchive(fs, root, r, Normalized(archive.entries), archive.intact);
    x := Install(name, bytes, r, before, fs.tree);
    if ok {
      UnpackedMeaning(archive.entries, Subtree(before, r), Subtree(fs.tree, r));
    }
  }

  /** What a GET of a url delivers, if it succeeds. */
  type Network = string -> Option<seq<byte>>

  /** The directory of the path is there, and the path names a file or a free place. */
  predicate CanDownload(t: Tree, path: string) {
    path != "" && CanReplace(t, path) && (LastSlash(path) > 0 ==> NamesDir(t, path[..LastSlash(path)]))
  }

  /** The file that the path names, and the link to it if the path names one. */
  predicate IsDownload(t: Tree, path: string, k: Path) {
    Where(t, path, true) == Spot(k) || Where(t, path, false) == Spot(k)
  }

  /** Directories were added; only the download is another, as it was named in v. */
  ghost predicate Fetched(t: Tree, v: Tree, u: Tree, path: string) {
    && OnlyDirsAdded(t, v)
    && forall k {:trigger At(u, k)} ::
         At(u, k) == At(v, k) || IsDownload(v, path, k) || (k !in v && At(u, k) == Some(DirE))
  }

  /** http_download_file; a failed download may leave a file behind. */
  method DownloadPackage(fs: FileSystem, network: Network, url: string, path: string) returns (ok: bool, ghost v: Tree)
    requires fs.Valid()
    modifies fs
    ensures fs.Valid() && Fetched(old(fs.tree), v, fs.tree, path)
    ensures ok ==> url != "" && network(url).Some? && FileBytes(fs.tree, path) == network(url)
    ensures fs.reliable && url != "" && network(url).Some? && CanDownload(old(fs.tree), path) ==>
              ok && fs.tree == Replaced(old(fs.tree), path, network(url).value)
  {
    v := fs.tree;
    if url == "" || path == "" {
      return false, v;
    }
    var index := LastSlash(path);
    if index > 0 {
      ok := EnsureDirectoryTreeFollowing(fs, path[..index]);
      v := fs.tree;
      if !ok {
        return;
      }
    }
    var received: seq<byte> := *;
    var response := network(url);
    if response.Some? {
      received := response.value;
    }
    ok := ReplaceFile(fs, path, received);
    if ok && response.None? {
      WrittenThere(v, fs.tree, path);
      var _ := fs.Unlink(path);
      ok := false;
    }
  }

  lemma WrittenThere(v: Tree, u: Tree, path: string)
    requires Rewritten(v, u, path)
    ensures Where(u, path, false).Spot? ==> IsDownload(v, path, Where(u, path, false).loc)
  {
    if u != v && Where(u, path, false).Spot? {
      WalkRewritten(v, u, Where(v, path, true).loc, [], Comps(path), MAX_LINKS);
    }
  }

  // ---- The run ----

  /** Where an update takes its files from and puts them. */
  datatype Setting = Setting(network: Network, open: Opener, root: string, cacheDir: string)

  /** What the network delivers for the package has the digest of the manifest. */
  ghost predicate Verified(s: Setting, u: Update, bytes: seq<byte>) {
    s.network(u.downloadUrl) == Some(bytes) && Lower(Hex(Digest(bytes))) == Lower(u.remoteHash)
  }

  /** One step of a run that was at tree t: nothing but the download changed before it was verified,
      and after that nothing outside the root. */
  ghost predicate Stepped(s: Setting, u: Update, t: Tree, x: Install) {
    && (exists v :: Fetched(t, v, x.before, JoinPath(s.cacheDir, u.file)))
    && OnlyBelow(x.before, x.after, x.r)
    && (x.after != x.before ==>
          Verified(s, u, x.bytes) && FileBytes(x.before, JoinPath(s.cacheDir, u.file)) == Some(x.bytes) &&
          Where(x.before, s.root, true) == Spot(x.r))
  }

  /** The package was downloaded in this step, its digest is the one of the manifest, and it was
      unpacked below the root. */
  ghost predicate InstalledFrom(s: Setting, u: Update, t: Tree, x: Install) {
    && Stepped(s, u, t, x)
    && x.name == u.name && Verified(s, u, x.bytes) && FileBytes(x.before, JoinPath(s.cacheDir, u.file)) == Some(x.bytes)
    && Where(x.before, s.root, true) == Spot(x.r) && Unpacked(s.open, x)
  }

  /** The download is there, is what the manifest says, and can be unpacked. */
  ghost predicate CanInstall(t: Tree, s: Setting, algorithm: string, u: Update) {
    && u.downloadUrl != "" && s.network(u.downloadUrl).Some? && CanDownload(t, JoinPath(s.cacheDir, u.file))
    && Lower(algorithm) == "sha256" && Verified(s, u, s.network(u.downloadUrl).value)
    && Unpackable(s.open, Replaced(t, JoinPath(s.cacheDir, u.file), s.network(u.downloadUrl).value), s.root,
                  s.network(u.downloadUrl).value)
  }

  lemma FetchedFurther(t: Tree, v: Tree, u: Tree, w: Tree, path: string)
    requires Fetched(t, v, u, path) && OnlyDirsAdded(u, w)
    ensures Fetched(t, v, w, path)
  {
    forall k ensures At(w, k) == At(v, k) || IsDownload(v, path, k) || (k !in v && At(w, k) == Some(DirE)) {
      assert At(w, k) == At(u, k) || (k !in u && At(w, k) == Some(DirE));
      assert At(u, k) == At(v, k) || IsDownload(v, path, k) || (k !in v && At(u, k) == Some(DirE));
    }
  }

  method InstallPackage(fs: FileSystem, s: Setting, hashAlgorithm: string, u: Update)
    returns (ok: bool, ghost x: Install)
    requires fs.Valid()
    modifies fs
    ensures fs.Valid() && x.after == fs.tree && Stepped(s, u, old(fs.tree), x)
    ensures ok ==> InstalledFrom(s, u, old(fs.tree), x) && PackageBelow(s.open(x.bytes).entries, x)
    ensures fs.reliable && CanInstall(old(fs.tree), s, hashAlgorithm, u) ==> ok
  {
    hide Hex, Lower, Digest, Unpacked, PackageBelow, Unpackable, FileBytes, Fetched, OnlyDirsAdded;
    ghost var start := fs.tree;
    var packagePath := JoinPath(s.cacheDir, u.file);
    ghost var v;
    ok, v := DownloadPackage(fs, s.network, u.downloadUrl, packagePath);
    x := Install(u.name, [], [], fs.tree, fs.tree);
    if !ok {
      return;
    }
    ghost var bytes, downloaded := s.network(u.downloadUrl).value, fs.tree;
    ok, bytes := VerifyPackageFile(fs, packagePath, hashAlgorithm, u.remoteHash);
    if !ok {
      return;
    }
    ok, x := ExtractPackage(fs, packagePath, s.root, s.open, u.name, bytes);
    FetchedFurther(start, v, downloaded, x.before, packagePath);
  }

  /** The tree after the installations in the log. */
  ghost function TreeAfter(t: Tree, log: seq<Install>): Tree {
    if log == [] then t else log[|log| - 1].after
  }

  /** The updates among the first n that need a download, each with its installation, in order; each
      begins with the tree that the one before it left. */
  ghost predicate Carried(s: Setting, t: Tree, updates: seq<Update>, n: nat, log: seq<Install>)
    requires n <= |updates|
  {
    if n == 0 then log == []
    else if updates[n - 1].needsDownload then
      && log != []
      && InstalledFrom(s, updates[n - 1], TreeAfter(t, log[..|log| - 1]), log[|log| - 1])
      && Carried(s, t, updates, n - 1, log[..|log| - 1])
    else Carried(s, t, updates, n - 1, log)
  }

  predicate ManifestWritable(t: Tree, root: string) {
    root != "" && NamesDir(t, root) && CanReplace(t, JoinPath(root, "version.json"))
  }

  /** Writing the manifest, as far as it came: directories on its way, and its content. */
  ghost predicate ManifestStep(t: Tree, u: Tree, root: string) {
    exists v :: OnlyDirsAdded(t, v) && Rewritten(v, u, JoinPath(root, "version.json"))
  }

  method WriteLocalManifest(fs: FileSystem, root: string, remote: Manifest) returns (ok: bool)
    requires fs.Valid()
    modifies fs
    ensures fs.Valid() && ManifestStep(old(fs.tree), fs.tree, root)
    ensures ok ==> FileBytes(fs.tree, JoinPath(root, "version.json")) == Some(remote.raw)
    ensures fs.reliable && ManifestWritable(old(fs.tree), root) ==> ok
  {
    hide FileBytes, CanReplace;
    ok := EnsureDirectoryTreeFollowing(fs, root);
    ghost var v := fs.tree;
    assert Rewritten(v, v, JoinPath(root, "version.json"));
    if ok {
      ok := ReplaceFile(fs, JoinPath(root, "version.json"), remote.raw);
    }
  }

  /** The steps of a run from tree t to tree u: all, or some and then one attempt that failed. */
  ghost predicate StepsTo(s: Setting, t: Tree, updates: seq<Update>, n: nat, log: seq<Install>, u: Tree)
    requires n <= |updates|
  {
    && Carried(s, t, updates, n, log)
    && if n == |updates| then u == TreeAfter(t, log)
       else exists x: Install :: x.after == u && Stepped(s, updates[n], TreeAfter(t, log), x)
  }

  /** From update n on, each one that needs a download can be installed, whatever tree the installations before
      it leave, and the manifest can be written behind the last. */
  ghost predicate CanRun(s: Setting, algorithm: string, t: Tree, updates: seq<Update>, n: nat)
    requires n <= |updates|
    decreases |updates| - n
  {
    if n == |updates| then ManifestWritable(t, s.root)
    else if !updates[n].needsDownload then CanRun(s, algorithm, t, updates, n + 1)
    else
      && CanInstall(t, s, algorithm, updates[n])
      && forall x: Install | InstalledFrom(s, updates[n], t, x) :: CanRun(s, algorithm, x.after, updates, n + 1)
  }

  /** The loop of update_sillytavern_command. */
  method RunSteps(fs: FileSystem, s: Setting, hashAlgorithm: string, updates: seq<Update>)
    returns (ok: bool, downloaded: nat, skipped: nat, ghost log: seq<Install>)
    requires fs.Valid()
    modifies fs
    ensures fs.Valid() && downloaded == |log| && downloaded + skipped <= |updates|
    ensures StepsTo(s, old(fs.tree), updates, downloaded + skipped, log, fs.tree)
    ensures ok <==> downloaded + skipped == |updates|
    ensures (forall i | 0 <= i < |updates| :: !updates[i].needsDownload) ==> ok && log == []
    ensures fs.reliable && CanRun(s, hashAlgorithm, old(fs.tree), updates, 0) ==>
              ok && ManifestWritable(fs.tree, s.root)
  {
    hide *;
    ok, downloaded, skipped, log := true, 0, 0, [];
    ghost var start := fs.tree;
    CarriedNothing(s, start, updates);
    for i := 0 to |updates|
      invariant fs.Valid() && downloaded == |log| && downloaded + skipped == i && ok
      invariant Carried(s, start, updates, i, log) && fs.tree == TreeAfter(start, log)
      invariant (forall j | 0 <= j < |updates| :: !updates[j].needsDownload) ==> log == []
      invariant CanRun(s, hashAlgorithm, start, updates, 0) ==> CanRun(s, hashAlgorithm, fs.tree, updates, i)
    {
      CarriedFurther(s, start, updates, i, log);
      CanRunFurther(s, hashAlgorithm, fs.tree, updates, i);
      if !updates[i].needsDownload {
        skipped := skipped + 1;
        continue;
      }
      ghost var x;
      ok, x := InstallPackage(fs, s, hashAlgorithm, updates[i]);
      if !ok {
        StoppedAt(s, start, updates, i, log, x);
        return;
      }
      CarriedInstall(s, start, updates, i, log, x);
      log := log + [x];
      downloaded := downloaded + 1;
    }
    CanRunThrough(s, hashAlgorithm, fs.tree, updates);
    StepsDone(s, start, updates, log);
  }

  lemma CanRunFurther(s: Setting, algorithm: string, t: Tree, updates: seq<Update>, n: nat)
    requires n < |updates|
    ensures CanRun(s, algorithm, t, updates, n) ==>
              if updates[n].needsDownload then
                && CanInstall(t, s, algorithm, updates[n])
                && forall x: Install | InstalledFrom(s, updates[n], t, x) ::
                     CanRun(s, algorithm, x.after, updates, n + 1)
              else CanRun(s, algorithm, t, updates, n + 1)
  {
    hide CanInstall, InstalledFrom;
  }

  lemma CanRunThrough(s: Setting, algorithm: string, t: Tree, updates: seq<Update>)
    ensures CanRun(s, algorithm, t, updates, |updates|) ==> ManifestWritable(t, s.root)
  {
  }

  lemma CarriedNothing(s: Setting, t: Tree, updates: seq<Update>)
    ensures Carried(s, t, updates, 0, []) && TreeAfter(t, []) == t
  {
  }

  lemma CarriedFurther(s: Setting, t: Tree, updates: seq<Update>, n: nat, log: seq<Install>)
    requires n < |updates| && Carried(s, t, updates, n, log)
    ensures !updates[n].needsDownload ==> Carried(s, t, updates, n + 1, log)
  {
  }

  lemma CarriedInstall(s: Setting, t: Tree, updates: seq<Update>, n: nat, log: seq<Install>, x: Install)
    requires n < |updates| && Carried(s, t, updates, n, log) && updates[n].needsDownload
    requires InstalledFrom(s, updates[n], TreeAfter(t, log), x)
    ensures Carried(s, t, updates, n + 1, log + [x]) && TreeAfter(t, log + [x]) == x.after
  {
    hide InstalledFrom;
    assert (log + [x])[..|log|] == log;
  }

  lemma StoppedAt(s: Setting, t: Tree, updates: seq<Update>, n: nat, log: seq<Install>, x: Install)
    requires n < |updates| && Carried(s, t, updates, n, log) && Stepped(s, updates[n], TreeAfter(t, log), x)
    ensures StepsTo(s, t, updates, n, log, x.after)
  {
    hide Carried, Stepped;
  }

  lemma StepsDone(s: Setting, t: Tree, updates: seq<Update>, log: seq<Install>)
    requires Carried(s, t, updates, |updates|, log)
    ensures StepsTo(s, t, updates, |updates|, log, TreeAfter(t, log))
  {
    hide Carried;
  }

  lemma AllSteps(s: Setting, t: Tree, updates: seq<Update>, log: seq<Install>, u: Tree)
    requires StepsTo(s, t, updates, |updates|, log, u)
    ensures u == TreeAfter(t, log) && (log == [] ==> u == t)
  {
  }

  /** The loop, and the manifest behind it: that is written only when every update is through. */
  method RunUpdates(fs: FileSystem, s: Setting, remote: Manifest, updates: seq<Update>)
    returns (ok: bool, downloaded: nat, skipped: nat, ghost log: seq<Install>)
    requires fs.Valid()
    modifies fs
    ensures fs.Valid() && downloaded == |log| && downloaded + skipped <= |updates|
    ensures downloaded + skipped < |updates| ==>
              !ok && StepsTo(s, old(fs.tree), updates, downloaded + skipped, log, fs.tree)
    ensures downloaded + skipped == |updates| ==>
              && StepsTo(s, old(fs.tree), updates, |updates|, log, TreeAfter(old(fs.tree), log))
              && ManifestStep(TreeAfter(old(fs.tree), log), fs.tree, s.root)
    ensures ok ==> downloaded + skipped == |updates|
    ensures ok ==> FileBytes(fs.tree, JoinPath(s.root, "version.json")) == Some(remote.raw)
    ensures (fs.reliable && ManifestWritable(old(fs.tree), s.root) &&
             (forall i | 0 <= i < |updates| :: !updates[i].needsDownload)) ==> ok && skipped == |updates|
    ensures fs.reliable && CanRun(s, remote.hashAlgorithm, old(fs.tree), updates, 0) ==> ok
  {
    hide *;
    ghost var start := fs.tree;
    ok, downloaded, skipped, log := RunSteps(fs, s, remote.hashAlgorithm, updates);
    if ok {
      AllSteps(s, start, updates, log, fs.tree);
      ok := WriteLocalManifest(fs, s.root, remote);
    }
  }

  lemma {:induction false} CarriedEach(s: Setting, t: Tree, updates: seq<Update>, n: nat, log: seq<Install>, i: nat)
    requires n <= |updates| && Carried(s, t, updates, n, log) && i < n && updates[i].needsDownload
    ensures exists j | 0 <= j < |log| :: InstalledFrom(s, updates[i], TreeAfter(t, log[..j]), log[j])
  {
    hide InstalledFrom;
    if i == n - 1 {
      assert log[|log| - 1] in log;
    } else if updates[n - 1].needsDownload {
      var before := log[..|log| - 1];
      CarriedEach(s, t, updates, n - 1, before, i);
      var j :| 0 <= j < |before| && InstalledFrom(s, updates[i], TreeAfter(t, before[..j]), before[j]);
      assert before[..j] == log[..j] && before[j] == log[j];
    } else {
      CarriedEach(s, t, updates, n - 1, log, i);
    }
  }

  /** Planning and running: on success every remote package is accounted for. */
  method UpdateAll(fs: FileSystem, s: Setting, remote: Manifest, hasLocal: bool, local: Manifest,
                   assets: map<string, string>)
    returns (ok: bool, downloaded: nat, skipped: nat, ghost updates: seq<Update>, ghost log: seq<Install>)
    requires fs.Valid()
    modifies fs
    ensures fs.Valid()
    ensures !Plannable(remote, hasLocal, local, assets) ==> !ok && fs.tree == old(fs.tree)
    ensures (fs.reliable && Plannable(remote, hasLocal, local, assets) &&
             (forall plan | IsPlan(plan, remote, hasLocal, local, assets) ::
                CanRun(s, remote.hashAlgorithm, old(fs.tree), plan, 0))) ==> ok
    ensures ok ==> downloaded + skipped == |remote.packages.Keys| && downloaded == |log|
    ensures ok ==> IsPlan(updates, remote, hasLocal, local, assets) &&
                   Carried(s, old(fs.tree), updates, |updates|, log) &&
                   ManifestStep(TreeAfter(old(fs.tree), log), fs.tree, s.root)
    ensures ok ==> FileBytes(fs.tree, JoinPath(s.root, "version.json")) == Some(remote.raw)
    ensures ok ==> forall k | k in remote.packages ::
              Unchanged(hasLocal, local, remote.packages[k]) ||
              InstalledIn(s, old(fs.tree), log, assets, remote.packages[k])
  {
    hide FileBytes, Stepped, ManifestStep, InstalledIn;
    downloaded, skipped, log := 0, 0, [];
    var plan;
    ok, plan := PlanPackageUpdates(remote, hasLocal, local, assets);
    updates := plan;
    if !ok {
      return;
    }
    ok, downloaded, skipped, log := RunUpdates(fs, s, remote, plan);
    if ok {
      AllAccounted(s, old(fs.tree), remote, hasLocal, local, assets, updates, log);
      KeyCount(Sorted(remote.packages.Keys));
    }
  }

  /** The package came from the release's file for it, has the digest of the manifest, and was unpacked
      below the root, in a step that began where the step before it ended. */
  ghost predicate InstalledIn(s: Setting, t: Tree, log: seq<Install>, assets: map<string, string>, p: PackageInfo) {
    p.file in assets &&
    exists j | 0 <= j < |log| ::
      InstalledFrom(s, Update(p.name, p.file, assets[p.file], p.hash, true), TreeAfter(t, log[..j]), log[j])
  }

  lemma AllAccounted(s: Setting, t: Tree, remote: Manifest, hasLocal: bool, local: Manifest,
                     assets: map<string, string>, updates: seq<Update>, log: seq<Install>)
    requires IsPlan(updates, remote, hasLocal, local, assets) && Carried(s, t, updates, |updates|, log)
    ensures forall k | k in remote.packages ::
              Unchanged(hasLocal, local, remote.packages[k]) || InstalledIn(s, t, log, assets, remote.packages[k])
  {
    hide InstalledFrom, Lower;
    var keys := Sorted(remote.packages.Keys);
    forall k | k in remote.packages && !Unchanged(hasLocal, local, remote.packages[k])
      ensures InstalledIn(s, t, log, assets, remote.packages[k])
    {
      assert k in Elems(keys);
      var i :| 0 <= i < |keys| && keys[i] == k;
      assert Plans(updates[i], hasLocal, local, assets, remote.packages[keys[i]]);
      CarriedEach(s, t, updates, |updates|, log, i);
    }
  }

  lemma {:induction false} KeyCount(names: seq<string>)
    requires Ascending(names)
    ensures |Elems(names)| == |names|
  {
    if names == [] {
      assert Elems(names) == {};
    } else {
      TailNames(names, names[0]);
      KeyCount(names[1..]);
      assert names == [names[0]] + names[1..];
      assert Elems(names) == {names[0]} + Elems(names[1..]);
    }
  }
}
