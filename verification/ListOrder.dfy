/** The order of the entries that the backup writer emits, told by their paths. */
module ListOrder {
  import opened Bytes
  import opened Paths
  import opened FileTree
  import opened FileSystem
  import opened FsOps
  import opened Extraction
  import opened Sorting
  import opened Backup

  /** The paths part at d, and a has the smaller name there. */
  ghost predicate PartsAt(a: Path, b: Path, d: nat) {
    d < |a| && d < |b| && a[..d] == b[..d] && Sorting.Less(a[d], b[d])
  }

  /** A directory comes before what is in it, and what is in a smaller name before what is in a larger one. */
  ghost predicate Before(a: Path, b: Path) {
    a < b || exists d: nat :: PartsAt(a, b, d)
  }

  ghost predicate InOrder(entries: seq<ArchiveEntry>) {
    forall i, j | 0 <= i < j < |entries| :: Before(Comps(entries[i].path), Comps(entries[j].path))
  }

  ghost predicate AllBelow(entries: seq<ArchiveEntry>, c: Path) {
    forall i | 0 <= i < |entries| :: c <= Comps(entries[i].path)
  }

  /** Every entry is in one of the names below c. */
  ghost predicate BelowNames(entries: seq<ArchiveEntry>, c: Path, names: seq<string>) {
    forall i | 0 <= i < |entries| :: exists n | 0 <= n < |names| :: c + [names[n]] <= Comps(entries[i].path)
  }

  /** The entries of a tree come in the order of their paths. */
  lemma {:induction false} NodeInOrder(t: Tree, p: Path, path: string)
    requires WellFormed(t) && p in t
    ensures InOrder(ListNode(t, p, path)) && AllBelow(ListNode(t, p, path), Comps(path))
    decreases Below(t, p), 1, 0
  {
    hide Comps;
    if t[p].DirE? {
      var names := Sorted(ChildNames(t, p));
      ChildrenInOrder(t, p, path, names);
      FirstBefore(ArchiveEntry(path, Directory, []), ListChildren(t, p, path, names), names);
    }
  }

  lemma {:induction false} ChildrenInOrder(t: Tree, p: Path, path: string, names: seq<string>)
    requires WellFormed(t) && p in t && Elems(names) <= ChildNames(t, p) && Ascending(names)
    ensures InOrder(ListChildren(t, p, path, names)) && BelowNames(ListChildren(t, p, path, names), Comps(path), names)
    decreases Below(t, p), 0, |names|
  {
    hide Comps;
    if names != [] {
      var name, rest := names[0], names[1..];
      assert name in Elems(names) && Elems(rest) <= Elems(names);
      ChildBelow(t, p, name);
      var child := JoinPath(path, name);
      CompsOfName(name);
      assert Comps(child) == Comps(path) + [name];
      NodeInOrder(t, p + [name], child);
      ChildrenInOrder(t, p, path, rest);
      FirstChild(ListNode(t, p + [name], child), ListChildren(t, p, path, rest), Comps(path), names);
    }
  }

  lemma FirstBefore(e: ArchiveEntry, entries: seq<ArchiveEntry>, names: seq<string>)
    requires InOrder(entries) && BelowNames(entries, Comps(e.path), names)
    ensures InOrder([e] + entries) && AllBelow([e] + entries, Comps(e.path))
  {
    hide Comps;
    var all := [e] + entries;
    forall i | 0 <= i < |entries| ensures Comps(e.path) < Comps(entries[i].path) {
      var n :| 0 <= n < |names| && Comps(e.path) + [names[n]] <= Comps(entries[i].path);
    }
    assert forall i | 0 < i < |all| :: all[i] == entries[i - 1];
  }

  /** The entries of the first child come before those of the others. */
  lemma FirstChild(a: seq<ArchiveEntry>, b: seq<ArchiveEntry>, c: Path, names: seq<string>)
    requires names != [] && Ascending(names) && InOrder(a) && AllBelow(a, c + [names[0]])
    requires InOrder(b) && BelowNames(b, c, names[1..])
    ensures InOrder(a + b) && BelowNames(a + b, c, names)
  {
    hide Comps, Sorting.Less;
    var all := a + b;
    forall i | 0 <= i < |all| ensures exists n | 0 <= n < |names| :: c + [names[n]] <= Comps(all[i].path) {
      if i < |a| {
        assert c + [names[0]] <= Comps(all[i].path);
      } else {
        var n :| 0 <= n < |names[1..]| && c + [names[1..][n]] <= Comps(b[i - |a|].path);
        assert c + [names[n + 1]] <= Comps(all[i].path);
      }
    }
    forall i, j | 0 <= i < j < |all| ensures Before(Comps(all[i].path), Comps(all[j].path)) {
      if i < |a| <= j {
        var n :| 0 <= n < |names[1..]| && c + [names[1..][n]] <= Comps(b[j - |a|].path);
        Parted(Comps(all[i].path), Comps(all[j].path), c, names[0], names[n + 1]);
      } else if j < |a| {
        assert all[i] == a[i] && all[j] == a[j];
      } else {
        assert all[i] == b[i - |a|] && all[j] == b[j - |a|];
      }
    }
  }

  lemma Parted(a: Path, b: Path, c: Path, m: string, n: string)
    requires c + [m] <= a && c + [n] <= b && Sorting.Less(m, n)
    ensures Before(a, b)
  {
    assert a[..|c|] == c && b[..|c|] == c && a[|c|] == m && b[|c|] == n;
    assert PartsAt(a, b, |c|);
  }

  /** So do those of the extensions. */
  lemma ExtensionsInOrder(t: Tree, e: Path, path: string, skipped: set<string>)
    requires WellFormed(t) && e in t
    ensures InOrder(ListExtensions(t, e, path, skipped))
  {
    hide Comps;
    var names := Sorted(ChildNames(t, e) - skipped);
    ChildrenInOrder(t, e, path, names);
    FirstBefore(ArchiveEntry(path, Directory, []), ListChildren(t, e, path, names), names);
  }
}
