/** write_backup_archive: data, third-party extensions and the git manifest (src/archive_stream.cpp). */
module WriteBackup {
  import opened Bytes
  import opened Paths
  import opened FileTree
  import opened PathWalk
  import opened FileSystem
  import opened PathSafety
  import opened FsOps
  import opened Extraction
  import opened Sorting
  import opened Backup
  import opened RestorePlaces
  import opened RestoreStage
  import opened RoundTrip
  import opened BackupImage
  import opened GitConfig
  import opened GitManifest

  /** build_git_manifest_json; the JSON text is left to its library. */
  type Renderer = seq<GitExtension> -> seq<byte>

  /** The path names a directory, and not through a link at its last name. */
  ghost predicate NamesPlainDir(t: Tree, source: string) {
    Found(t, source) && IsDir(t, SourceLoc(t, source))
  }

  /** write_directory_recursive for the extensions directory; write_entry_header has no kind for a link. */
  method WriteExtensions(fs: FileSystem, w: ArchiveWriter, source: string, skipped: set<string>) returns (ok: bool)
    requires fs.Valid()
    modifies w
    ensures Found(fs.tree, source) && IsLink(fs.tree, SourceLoc(fs.tree, source)) ==> !ok && w.entries == old(w.entries)
    ensures var p := SourceLoc(fs.tree, source);
            && (ok ==> Found(fs.tree, source) && IsDir(fs.tree, p))
            && (ok ==> w.entries == old(w.entries) + ListExtensions(fs.tree, p, EXTENSIONS_ENTRY, skipped))
            && (ok ==> ChildrenArchivable(fs.tree, p, ChildNames(fs.tree, p) - skipped))
            && ((fs.reliable && w.reliable && Found(fs.tree, source) && IsDir(fs.tree, p) &&
                 ChildrenArchivable(fs.tree, p, ChildNames(fs.tree, p) - skipped)) ==> ok)
  {
    var status := fs.Lstat(source);
    if !status.Stat? {
      return false;
    }
    if status.entry.LinkE? {
      return false;
    }
    if status.entry.FileE? {
      var _ := w.WriteHeader(EXTENSIONS_ENTRY, Regular);
      return false;
    }
    FoundNoLink(fs.tree, source);
    ok := WriteDirectoryRecursive(fs, w, source, SourceLoc(fs.tree, source), EXTENSIONS_ENTRY, skipped);
  }

  /** write_manifest_file. */
  method WriteManifestFile(w: ArchiveWriter, manifest: seq<byte>) returns (ok: bool)
    modifies w
    ensures ok ==> w.entries == old(w.entries) + [ManifestEntry(manifest)]
    ensures w.reliable ==> ok
  {
    ghost var before := w.entries;
    ok := w.WriteHeader(Unsplit(GIT_MANIFEST), Regular);
    if !ok {
      return;
    }
    if manifest != [] {
      ok := Backup.WriteBuffer(w, manifest, before, ArchiveEntry(Unsplit(GIT_MANIFEST), Regular, []));
      if !ok {
        return;
      }
    }
    assert [] + manifest == manifest;
    ok := w.FinishEntry();
  }

  /** The records that go into the manifest, and the names they keep out of the archive. */
  ghost predicate GitPart(t: Tree, ext: string, reliable: bool, gitMode: bool, infos: seq<GitExtension>,
                          skipped: set<string>) {
    if gitMode
    then Collected(t, reliable, ext, ChildNames(t, SourceLoc(t, ext)), infos, skipped) && Ascending(NamesOf(infos))
    else infos == [] && skipped == {}
  }

  function ManifestOf(gitMode: bool, render: Renderer, infos: seq<GitExtension>): Option<seq<byte>> {
    if gitMode then Some(render(infos)) else None
  }

  method CollectFor(fs: FileSystem, ext: string, gitMode: bool)
    returns (ok: bool, infos: seq<GitExtension>, skipped: set<string>)
    requires fs.Valid()
    ensures ok && NamesPlainDir(fs.tree, ext) ==> GitPart(fs.tree, ext, fs.reliable, gitMode, infos, skipped)
    ensures fs.reliable && NamesPlainDir(fs.tree, ext) ==> ok
  {
    ok, infos, skipped := true, [], {};
    if gitMode {
      if NamesPlainDir(fs.tree, ext) {
        FoundNoLink(fs.tree, ext);
      }
      ok, infos, skipped := CollectGitExtensionInfo(fs, ext);
    }
  }

  /** The trees that two path strings name can be archived. */
  ghost predicate Writable(t: Tree, data: string, ext: string, skipped: set<string>) {
    var d, e := SourceLoc(t, data), SourceLoc(t, ext);
    && Found(t, data) && Archivable(t, d)
    && Found(t, ext) && IsDir(t, e) && ChildrenArchivable(t, e, ChildNames(t, e) - skipped)
  }

  method WriteTrees(fs: FileSystem, w: ArchiveWriter, data: string, ext: string, skipped: set<string>)
    returns (ok: bool)
    requires fs.Valid() && w.entries == []
    modifies w
    ensures ok ==> Writable(fs.tree, data, ext, skipped)
    ensures ok ==> w.entries == ListNode(fs.tree, SourceLoc(fs.tree, data), DATA_ENTRY) +
                                ListExtensions(fs.tree, SourceLoc(fs.tree, ext), EXTENSIONS_ENTRY, skipped)
    ensures fs.reliable && w.reliable && Writable(fs.tree, data, ext, skipped) ==> ok
  {
    ok := WriteFileOrDirectory(fs, w, data, DATA_ENTRY);
    if ok {
      assert w.entries == ListNode(fs.tree, SourceLoc(fs.tree, data), DATA_ENTRY);
      ok := WriteExtensions(fs, w, ext, skipped);
    }
  }

  method WriteBackupArchive(fs: FileSystem, w: ArchiveWriter, data: string, ext: string, gitMode: bool,
                            render: Renderer)
    returns (ok: bool, infos: seq<GitExtension>, skipped: set<string>)
    requires fs.Valid() && w.entries == []
    modifies w
    ensures ok ==>
              && Writable(fs.tree, data, ext, skipped)
              && GitPart(fs.tree, ext, fs.reliable, gitMode, infos, skipped)
              && w.entries == BackupEntries(fs.tree, SourceLoc(fs.tree, data), SourceLoc(fs.tree, ext), skipped,
                                            ManifestOf(gitMode, render, infos))
    ensures Found(fs.tree, ext) && IsLink(fs.tree, SourceLoc(fs.tree, ext)) ==> !ok
    ensures fs.reliable && w.reliable && Writable(fs.tree, data, ext, skipped) ==> ok
  {
    ok, infos, skipped := CollectFor(fs, ext, gitMode);
    if !ok {
      return;
    }
    ok := WriteTrees(fs, w, data, ext, skipped);
    if !ok {
      return;
    }
    if gitMode {
      ok := WriteManifestFile(w, render(infos));
      if !ok {
        return;
      }
    }
    assert !gitMode ==> w.entries + [] == w.entries;
    ok := w.FinishEntry();
  }

  // ---- What git mode does to the extensions ----

  /** Every extension is either archived with everything below it, or listed exactly once with
      its first origin url; never both. Only the top level is concerned. */
  lemma GitPartition(t: Tree, d: Path, ext: string, reliable: bool, infos: seq<GitExtension>, skipped: set<string>,
                     manifest: Option<seq<byte>>, image: Tree, name: string)
    requires GitPart(t, ext, reliable, true, infos, skipped)
    requires IsImage(t, d, SourceLoc(t, ext), ChildNames(t, SourceLoc(t, ext)) - skipped, manifest, image)
    requires name in ChildNames(t, SourceLoc(t, ext))
    ensures name in skipped ==>
              && (exists i | 0 <= i < |infos| :: infos[i].name == name && GitUrl(t, ext, name) == Url(infos[i].url))
              && (forall i, j | 0 <= i < |infos| && 0 <= j < |infos| &&
                    infos[i].name == name && infos[j].name == name :: i == j)
              && Subtree(image, STAGED_EXTENSIONS + [name]) == map[]
    ensures name !in skipped ==>
              && (forall i | 0 <= i < |infos| :: infos[i].name != name)
              && Subtree(image, STAGED_EXTENSIONS + [name]) == Subtree(t, SourceLoc(t, ext) + [name])
    ensures reliable ==> (name in skipped <==> GitUrl(t, ext, name).Url?)
  {
    hide Kept, Subtree;
    ListedOnce(infos, name);
    if name in skipped {
      var i :| 0 <= i < |infos| && infos[i].name == name;
      assert GitUrl(t, ext, infos[i].name) == Url(infos[i].url);
    }
    ExtensionInImage(t, SourceLoc(t, ext), ChildNames(t, SourceLoc(t, ext)) - skipped, image, name);
  }

  lemma ListedOnce(infos: seq<GitExtension>, name: string)
    requires Ascending(NamesOf(infos))
    ensures name in Elems(NamesOf(infos)) <==> exists i | 0 <= i < |infos| :: infos[i].name == name
    ensures forall i, j | 0 <= i < |infos| && 0 <= j < |infos| &&
            infos[i].name == name && infos[j].name == name :: i == j
  {
    AscendingDistinct(NamesOf(infos));
    InfoNames(infos);
    if name in Elems(NamesOf(infos)) {
      var i :| 0 <= i < |NamesOf(infos)| && NamesOf(infos)[i] == name;
    }
    forall i, j | 0 <= i < |infos| && 0 <= j < |infos| && infos[i].name == name && infos[j].name == name
      ensures i == j
    {
      assert NamesOf(infos)[i] == NamesOf(infos)[j];
    }
  }

  lemma ExtensionInImage(t: Tree, e: Path, names: set<string>, image: Tree, name: string)
    requires Subtree(image, STAGED_EXTENSIONS) == Kept(t, e, names)
    ensures Subtree(image, STAGED_EXTENSIONS + [name]) == if name in names then Subtree(t, e + [name]) else map[]
  {
    SubtreeOfSubtree(image, STAGED_EXTENSIONS, [name]);
    var found := Subtree(Kept(t, e, names), [name]);
    var expected: Tree := if name in names then Subtree(t, e + [name]) else map[];
    forall q ensures At(found, q) == At(expected, q) {
      Regroup(e, name, q);
      KeptAt(t, e, names, [name] + q);
      InSubtree(Kept(t, e, names), [name], q);
      InSubtree(t, e + [name], q);
    }
    SameTree(found, expected);
  }

  lemma Regroup(e: Path, name: string, q: Path)
    ensures e + [name] + q == e + ([name] + q)
  {
  }

  lemma InSubtree(t: Tree, p: Path, q: Path)
    ensures At(Subtree(t, p), q) == At(t, p + q)
  {
  }
}
