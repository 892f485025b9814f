/** Flattening directory trees into archive entries (src/archive_stream.cpp). */
module Backup {
  import opened Bytes
  import opened Paths
  import opened FileTree
  import opened PathWalk
  import opened FileSystem
  import opened PathSafety
  import opened FsOps
  import opened Extraction
  import opened Sorting

  /** The archive under construction. */
  class ArchiveWriter {
    var entries: seq<ArchiveEntry>
    /** No call fails. */
    const reliable: bool

    constructor (reliable: bool)
      ensures entries == [] && this.reliable == reliable
    {
      entries := [];
      this.reliable := reliable;
    }

    /** archive_write_header. */
    method WriteHeader(path: string, kind: Kind) returns (ok: bool)
      modifies this
      ensures entries == if ok then old(entries) + [ArchiveEntry(path, kind, [])] else old(entries)
      ensures reliable ==> ok
    {
      var fault: bool := *;
      ok := reliable || !fault;
      if ok {
        entries := entries + [ArchiveEntry(path, kind, [])];
      }
    }

    /** archive_write_data: takes at least one and at most all of the bytes for the last entry. */
    method WriteData(bytes: seq<byte>) returns (count: int)
      requires entries != [] && bytes != []
      modifies this
      ensures count <= 0 ==> entries == old(entries) && !reliable
      ensures count > 0 ==> count <= |bytes| &&
                            entries == WithMore(old(entries), bytes[..count])
    {
      count := *;
      if count > |bytes| || count <= 0 {
        count := if reliable then |bytes| else 0;
      }
      if count > 0 {
        entries := WithMore(entries, bytes[..count]);
      }
    }

    /** archive_write_finish_entry and archive_write_close. */
    method FinishEntry() returns (ok: bool)
      ensures reliable ==> ok
    {
      var fault: bool := *;
      ok := reliable || !fault;
    }
  }

  function WithMore(entries: seq<ArchiveEntry>, bytes: seq<byte>): seq<ArchiveEntry>
    requires entries != []
  {
    var last := entries[|entries| - 1];
    entries[..|entries| - 1] + [last.(bytes := last.bytes + bytes)]
  }

  // ---- What the writer emits ----

  /** Preorder, children by ascending name. */
  ghost function ListNode(t: Tree, p: Path, path: string): seq<ArchiveEntry>
    requires WellFormed(t) && p in t
    decreases Below(t, p), 1, 0
  {
    match t[p]
    case FileE(bytes) => [ArchiveEntry(path, Regular, bytes)]
    case LinkE(_) => []
    case DirE => [ArchiveEntry(path, Directory, [])] + ListChildren(t, p, path, Sorted(ChildNames(t, p)))
  }

  ghost function ListChildren(t: Tree, p: Path, path: string, names: seq<string>): seq<ArchiveEntry>
    requires WellFormed(t) && p in t && Elems(names) <= ChildNames(t, p)
    decreases Below(t, p), 0, |names|
  {
    if names == [] then []
    else
      assert names[0] in Elems(names);
      ChildBelow(t, p, names[0]);
      assert Elems(names[1..]) <= Elems(names);
      ListNode(t, p + [names[0]], JoinPath(path, names[0])) + ListChildren(t, p, path, names[1..])
  }

  lemma ChildBelow(t: Tree, p: Path, name: string)
    requires WellFormed(t) && p in t && name in ChildNames(t, p)
    ensures p + [name] in t && SafeName(name) && Below(t, p + [name]) < Below(t, p)
  {
    ChildIsThere(t, p, name);
    assert p in Below(t, p) && p !in Below(t, p + [name]);
    forall k | k in Below(t, p + [name]) ensures k in Below(t, p) {
      assert p <= p + [name];
    }
  }

  /** The extensions directory: the children in skipped are left out, at this level only. */
  ghost function ListExtensions(t: Tree, p: Path, path: string, skipped: set<string>): seq<ArchiveEntry>
    requires WellFormed(t) && p in t
  {
    [ArchiveEntry(path, Directory, [])] + ListChildren(t, p, path, Sorted(ChildNames(t, p) - skipped))
  }

  // ---- The writer ----

  lemma WithMoreLast(entries: seq<ArchiveEntry>, e: ArchiveEntry, more: seq<byte>)
    ensures WithMore(entries + [e], more) == entries + [e.(bytes := e.bytes + more)]
  {
    assert (entries + [e])[..|entries|] == entries;
  }

  method WriteBuffer(w: ArchiveWriter, buffer: seq<byte>, ghost before: seq<ArchiveEntry>, ghost e: ArchiveEntry)
    returns (ok: bool)
    requires w.entries == before + [e]
    modifies w
    ensures ok ==> w.entries == before + [e.(bytes := e.bytes + buffer)]
    ensures w.reliable ==> ok
  {
    var total := 0;
    assert e.bytes + buffer[..0] == e.bytes;
    while total < |buffer|
      invariant total <= |buffer| && w.entries == before + [e.(bytes := e.bytes + buffer[..total])]
    {
      var count := w.WriteData(buffer[total..]);
      if count <= 0 {
        return false;
      }
      WithMoreLast(before, e.(bytes := e.bytes + buffer[..total]), buffer[total..][..count]);
      assert e.bytes + buffer[..total] + buffer[total..][..count] == e.bytes + buffer[..total + count];
      total := total + count;
    }
    assert buffer[..total] == buffer;
    ok := true;
  }

  /** write_regular_file_data; the file does not change meanwhile. */
  method WriteRegularFileData(fs: FileSystem, w: ArchiveWriter, source: string, ghost p: Path, expected: nat,
                              ghost before: seq<ArchiveEntry>, ghost path: string)
    returns (ok: bool)
    requires Where(fs.tree, source, true) == Spot(p) && p in fs.tree && fs.tree[p].FileE?
    requires expected == |fs.tree[p].bytes|
    requires w.entries == before + [ArchiveEntry(path, Regular, [])]
    modifies w
    ensures ok ==> w.entries == before + [ArchiveEntry(path, Regular, fs.tree[p].bytes)]
    ensures fs.reliable && w.reliable ==> ok
  {
    var fd;
    ok, fd := fs.OpenRead(source);
    if !ok {
      return;
    }
    ghost var content := fs.tree[fd].bytes;
    var total := 0;
    while total < expected
      invariant total <= expected && fd in fs.tree && fs.tree[fd] == FileE(content)
      invariant w.entries == before + [ArchiveEntry(path, Regular, content[..total])]
    {
      var remaining := expected - total;
      var size := if remaining < STREAM_BUFFER_SIZE then remaining else STREAM_BUFFER_SIZE;
      var chunk;
      ok, chunk := fs.Read(fd, total, size);
      if !ok || chunk == [] {
        return false;
      }
      ok := WriteBuffer(w, chunk, before, ArchiveEntry(path, Regular, content[..total]));
      if !ok {
        return;
      }
      assert content[..total] + chunk == content[..total + |chunk|];
      total := total + |chunk|;
    }
    assert content[..total] == content;
    ok := w.FinishEntry();
  }

  /** Nothing at or below p is a link. */
  ghost predicate Archivable(t: Tree, p: Path) {
    p in t && NoLinksAt(t, p)
  }

  ghost predicate ChildrenArchivable(t: Tree, p: Path, names: set<string>) {
    forall name | name in names :: Archivable(t, p + [name])
  }

  lemma ArchivableDirectory(t: Tree, p: Path)
    requires WellFormed(t) && IsDir(t, p)
    ensures Archivable(t, p) <==> ChildrenArchivable(t, p, ChildNames(t, p))
  {
    if NoLinksAt(t, p) {
      forall name | name in ChildNames(t, p) ensures Archivable(t, p + [name]) {
        ChildIsThere(t, p, name);
        NoLinksAbove(t, p, name);
      }
    }
    if ChildrenArchivable(t, p, ChildNames(t, p)) {
      forall name | name in ChildNames(t, p) ensures NoLinksAt(t, p + [name]) {
        assert Archivable(t, p + [name]);
      }
      NoLinksInChildren(t, p);
    }
  }

  method WriteFileOrDirectory(fs: FileSystem, w: ArchiveWriter, source: string, path: string) returns (ok: bool)
    requires fs.Valid()
    modifies w
    ensures var p := SourceLoc(fs.tree, source);
            && (ok ==> Found(fs.tree, source) && Archivable(fs.tree, p))
            && (ok ==> w.entries == old(w.entries) + ListNode(fs.tree, p, path))
            && (fs.reliable && w.reliable && Found(fs.tree, source) && Archivable(fs.tree, p) ==> ok)
    decreases Below(fs.tree, SourceLoc(fs.tree, source)), 3
  {
    ghost var p, before := SourceLoc(fs.tree, source), w.entries;
    var status := fs.Lstat(source);
    if !status.Stat? {
      return false;
    }
    match status.entry
    case DirE =>
      FoundNoLink(fs.tree, source);
      ArchivableDirectory(fs.tree, p);
      assert ChildNames(fs.tree, p) - {} == ChildNames(fs.tree, p);
      ok := WriteDirectoryRecursive(fs, w, source, p, path, {});
    case LinkE(_) =>
      assert IsLink(fs.tree, p);
      ok := false;
    case FileE(bytes) =>
      FoundNoLink(fs.tree, source);
      FileHasNothingBelow(fs.tree, p);
      ok := w.WriteHeader(path, Regular);
      if ok {
        ok := WriteRegularFileData(fs, w, source, p, |bytes|, before, path);
      }
  }

  /** The readdir loop and the sort: the order the names were read in does not matter. */
  method ListSorted(fs: FileSystem, source: string, ghost p: Path, skipped: set<string>)
    returns (ok: bool, names: seq<string>)
    requires Where(fs.tree, source, true) == Spot(p) && IsDir(fs.tree, p)
    ensures ok ==> names == Sorted(ChildNames(fs.tree, p) - skipped)
    ensures fs.reliable ==> ok
  {
    ok, names := fs.ListDirectory(source);
    if ok {
      assert Elems(names) == ChildNames(fs.tree, p);
      names := WithoutSkipped(names, skipped);
      names := Sort(names);
      AscendingUnique(names, Sorted(ChildNames(fs.tree, p) - skipped));
    }
  }

  /** write_directory_recursive on a directory; skipped is not empty only for the extensions. */
  method WriteDirectoryRecursive(fs: FileSystem, w: ArchiveWriter, source: string, ghost p: Path, path: string,
                                 skipped: set<string>)
    returns (ok: bool)
    requires fs.Valid() && Where(fs.tree, source, true) == Spot(p) && IsDir(fs.tree, p)
    modifies w
    ensures ok ==> w.entries == old(w.entries) + ListExtensions(fs.tree, p, path, skipped)
    ensures ok ==> ChildrenArchivable(fs.tree, p, ChildNames(fs.tree, p) - skipped)
    ensures fs.reliable && w.reliable && ChildrenArchivable(fs.tree, p, ChildNames(fs.tree, p) - skipped) ==> ok
    decreases Below(fs.tree, p), 2
  {
    ghost var before, head := w.entries, [ArchiveEntry(path, Directory, [])];
    ok := w.WriteHeader(path, Directory);
    if !ok {
      return;
    }
    ok := w.FinishEntry();
    if !ok {
      return;
    }
    var names;
    ok, names := ListSorted(fs, source, p, skipped);
    if !ok {
      return;
    }
    ok := WriteChildren(fs, w, source, p, path, names, before + head);
    AppendedNext(before, head, if ok then ListChildren(fs.tree, p, path, names) else []);
  }

  method WithoutSkipped(listed: seq<string>, skipped: set<string>) returns (names: seq<string>)
    requires forall i, j | 0 <= i < j < |listed| :: listed[i] != listed[j]
    ensures forall i, j | 0 <= i < j < |names| :: names[i] != names[j]
    ensures Elems(names) == Elems(listed) - skipped
  {
    names := [];
    for i := 0 to |listed|
      invariant forall j, k | 0 <= j < k < |names| :: names[j] != names[k]
      invariant Elems(names) == Elems(listed[..i]) - skipped
    {
      assert listed[..i + 1] == listed[..i] + [listed[i]];
      assert Elems(listed[..i + 1]) == Elems(listed[..i]) + {listed[i]};
      if listed[i] in skipped {
        continue;
      }
      assert listed[i] !in Elems(listed[..i]);
      assert forall k | 0 <= k < |names| :: names[k] in Elems(names);
      ghost var before := names;
      names := names + [listed[i]];
      assert Elems(names) == Elems(before) + {listed[i]};
    }
    assert listed[..|listed|] == listed;
  }

  /** One child more: what the loop over the children appends. */
  lemma NextChild(t: Tree, p: Path, path: string, names: seq<string>, i: nat)
    requires WellFormed(t) && p in t && i < |names| && Elems(names[i..]) <= ChildNames(t, p)
    ensures SafeName(names[i]) && p + [names[i]] in t
    ensures Below(t, p + [names[i]]) < Below(t, p) && Elems(names[i + 1..]) <= ChildNames(t, p)
    ensures ListChildren(t, p, path, names[i..]) ==
            ListNode(t, p + [names[i]], JoinPath(path, names[i])) + ListChildren(t, p, path, names[i + 1..])
  {
    var rest := names[i..];
    assert rest[1..] == names[i + 1..] && rest[0] == names[i];
    assert rest[0] in Elems(rest);
    forall n | n in Elems(rest[1..]) ensures n in Elems(rest) {
      assert n in rest;
    }
    ChildBelow(t, p, rest[0]);
  }

  method WriteChildren(fs: FileSystem, w: ArchiveWriter, source: string, ghost p: Path, path: string,
                       names: seq<string>, ghost before: seq<ArchiveEntry>)
    returns (ok: bool)
    requires fs.Valid() && Where(fs.tree, source, true) == Spot(p) && IsDir(fs.tree, p)
    requires Elems(names) <= ChildNames(fs.tree, p) && w.entries == before
    modifies w
    ensures ok ==> w.entries == before + ListChildren(fs.tree, p, path, names)
    ensures ok ==> ChildrenArchivable(fs.tree, p, Elems(names))
    ensures fs.reliable && w.reliable && ChildrenArchivable(fs.tree, p, Elems(names)) ==> ok
    decreases Below(fs.tree, p), 1
  {
    ok := true;
    var i := 0;
    assert names[0..] == names;
    while i < |names|
      invariant i <= |names| && Elems(names[i..]) <= ChildNames(fs.tree, p)
      invariant before + ListChildren(fs.tree, p, path, names) == w.entries + ListChildren(fs.tree, p, path, names[i..])
      invariant forall j | 0 <= j < i :: Archivable(fs.tree, p + [names[j]])
    {
      NextChild(fs.tree, p, path, names, i);
      ChildFound(fs.tree, source, p, names[i]);
      ghost var sofar := w.entries;
      ok := WriteFileOrDirectory(fs, w, JoinPath(source, names[i]), JoinPath(path, names[i]));
      if !ok {
        assert names[i] in Elems(names);
        return;
      }
      AppendedNext(sofar, ListNode(fs.tree, p + [names[i]], JoinPath(path, names[i])),
                   ListChildren(fs.tree, p, path, names[i + 1..]));
      i := i + 1;
    }
    assert names[i..] == [];
    assert w.entries + [] == w.entries;
  }

  lemma AppendedNext(sofar: seq<ArchiveEntry>, node: seq<ArchiveEntry>, rest: seq<ArchiveEntry>)
    ensures sofar + (node + rest) == (sofar + node) + rest
  {
  }
}
