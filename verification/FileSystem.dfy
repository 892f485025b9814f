/** How the kernel finds the node a path string names (path_resolution(7)). */
module PathWalk {
  import opened Paths
  import opened FileTree

  /** A node or a free place; a free place with names behind it; or a file or too many links in the way. */
  datatype Spot = Spot(loc: Path) | Missing(loc: Path) | Blocked

  /** Linux follows at most this many symbolic links in one lookup. */
  const MAX_LINKS: nat := 40

  /** Walks the names in todo, starting in the directory at. Symbolic links on the way are
      followed, the last name only if follow is set. The result may be a free place. */
  function Walk(t: Tree, at: Path, todo: seq<string>, follow: bool, hops: nat): Spot
    decreases hops, |todo|
  {
    if todo == [] then Spot(at)
    else if at !in t then Missing(at)
    else if !t[at].DirE? then Blocked
    else if todo[0] == "." then Walk(t, at, todo[1..], follow, hops)
    else if todo[0] == ".." then Walk(t, if at == [] then [] else Parent(at), todo[1..], follow, hops)
    else
      var here := at + [todo[0]];
      if IsLink(t, here) && (|todo| > 1 || follow) then
        if hops == 0 then Blocked
        else Walk(t, LinkBase(at, t[here].target), Comps(t[here].target) + todo[1..], follow, hops - 1)
      else Walk(t, here, todo[1..], follow, hops)
  }

  /** Where a link's target is looked up from. */
  function LinkBase(at: Path, target: string): Path {
    if target != "" && target[0] == '/' then [] else at
  }

  /** The node or free place a path string names. */
  function Where(t: Tree, path: string, follow: bool): Spot {
    Walk(t, [], Comps(path), follow, MAX_LINKS)
  }

  /** A node, or a free place in a directory. */
  ghost predicate Placed(t: Tree, p: Path) {
    SafeNames(p) && (p in t || (p != [] && IsDir(t, Parent(p))))
  }

  ghost predicate Names(todo: seq<string>) {
    forall i | 0 <= i < |todo| :: todo[i] != "" && '/' !in todo[i]
  }

  lemma PlacedBelow(t: Tree, at: Path, name: string)
    requires WellFormed(t) && IsDir(t, at) && SafeName(name)
    ensures Placed(t, at + [name])
  {
    assert Parent(at + [name]) == at && SafeNames(at);
  }

  lemma {:induction false} WalkPlaced(t: Tree, at: Path, todo: seq<string>, follow: bool, hops: nat)
    requires WellFormed(t) && Placed(t, at) && Names(todo)
    ensures var s := Walk(t, at, todo, follow, hops); s.Spot? ==> Placed(t, s.loc)
    decreases hops, |todo|
  {
    if todo == [] || !IsDir(t, at) {
      return;
    }
    var name, rest := todo[0], todo[1..];
    assert Names(rest);
    if name == "." {
      WalkPlaced(t, at, rest, follow, hops);
    } else if name == ".." {
      WalkPlaced(t, if at == [] then [] else Parent(at), rest, follow, hops);
    } else {
      var here := at + [name];
      PlacedBelow(t, at, name);
      if !IsLink(t, here) || (rest == [] && !follow) {
        WalkPlaced(t, here, rest, follow, hops);
      } else if hops > 0 {
        var target := t[here].target;
        assert Placed(t, []);
        WalkPlaced(t, LinkBase(at, target), Comps(target) + rest, follow, hops - 1);
      }
    }
  }

  lemma WherePlaced(t: Tree, path: string, follow: bool)
    requires WellFormed(t)
    ensures var s := Where(t, path, follow); s.Spot? ==> Placed(t, s.loc)
  {
    WalkPlaced(t, [], Comps(path), follow, MAX_LINKS);
  }

  /** Without symbolic links and dots on the way, a walk just goes down. */
  lemma {:induction false} WalkDown(t: Tree, at: Path, todo: seq<string>, follow: bool, hops: nat)
    requires WellFormed(t) && NoDots(todo)
    requires todo == [] || IsDir(t, Parent(at + todo))
    requires follow ==> todo == [] || !IsLink(t, at + todo)
    ensures Walk(t, at, todo, follow, hops) == Spot(at + todo)
    decreases |todo|
  {
    if todo == [] {
      assert at + todo == at;
    } else {
      var here := at + [todo[0]];
      assert here + todo[1..] == at + todo;
      if at != Parent(at + todo) {
        assert at < Parent(at + todo);
        AncestorIsDir(t, at, Parent(at + todo));
      }
      if |todo| > 1 {
        if here != Parent(at + todo) {
          assert here < Parent(at + todo);
          AncestorIsDir(t, here, Parent(at + todo));
        }
      } else {
        assert here == at + todo;
      }
      WalkDown(t, here, todo[1..], follow, hops);
    }
  }

  /** A walk that passes through a directory continues from there. */
  lemma {:induction false} WalkThrough(t: Tree, at: Path, first: seq<string>, rest: seq<string>, follow: bool,
                                       hops: nat)
    returns (left: nat)
    requires Walk(t, at, first, true, hops).Spot?
    requires IsDir(t, Walk(t, at, first, true, hops).loc) && rest != []
    ensures Walk(t, at, first + rest, follow, hops) == Walk(t, Walk(t, at, first, true, hops).loc, rest, follow, left)
    decreases hops, |first|
  {
    left := hops;
    if first == [] {
      assert first + rest == rest;
    } else {
      assert (first + rest)[1..] == first[1..] + rest;
      if first[0] == "." {
        left := WalkThrough(t, at, first[1..], rest, follow, hops);
      } else if first[0] == ".." {
        left := WalkThrough(t, if at == [] then [] else Parent(at), first[1..], rest, follow, hops);
      } else {
        var here := at + [first[0]];
        if IsLink(t, here) {
          var target := t[here].target;
          assert Comps(target) + (first[1..] + rest) == (Comps(target) + first[1..]) + rest;
          left := WalkThrough(t, LinkBase(at, target), Comps(target) + first[1..], rest, follow, hops - 1);
        } else {
          left := WalkThrough(t, here, first[1..], rest, follow, hops);
        }
      }
    }
  }

  /** Everything in t is still there in u, except that files may have new contents. */
  ghost predicate Extends(t: Tree, u: Tree) {
    forall k | k in t :: k in u && (u[k] == t[k] || (t[k].FileE? && u[k].FileE?))
  }

  /** Adding nodes and changing file contents does not redirect a walk to an existing node. */
  lemma {:induction false} WalkStable(t: Tree, u: Tree, at: Path, todo: seq<string>, follow: bool, hops: nat)
    requires Extends(t, u)
    requires Walk(t, at, todo, follow, hops).Spot? && Walk(t, at, todo, follow, hops).loc in t
    ensures Walk(u, at, todo, follow, hops) == Walk(t, at, todo, follow, hops)
    decreases hops, |todo|
  {
    hide Comps;
    if todo != [] {
      var here := at + [todo[0]];
      if todo[0] == "." {
        WalkStable(t, u, at, todo[1..], follow, hops);
      } else if todo[0] == ".." {
        WalkStable(t, u, if at == [] then [] else Parent(at), todo[1..], follow, hops);
      } else if IsLink(t, here) && (|todo| > 1 || follow) {
        var target := t[here].target;
        WalkStable(t, u, LinkBase(at, target), Comps(target) + todo[1..], follow, hops - 1);
      } else {
        assert |todo| == 1 ==> todo[1..] == [];
        WalkStable(t, u, here, todo[1..], follow, hops);
      }
    }
  }

  /** What a walk to a directory passes on its way are directories. */
  lemma {:induction false} WalkPrefix(t: Tree, at: Path, first: seq<string>, rest: seq<string>, hops: nat)
    requires Walk(t, at, first + rest, true, hops).Spot? && IsDir(t, Walk(t, at, first + rest, true, hops).loc)
    ensures Walk(t, at, first, true, hops).Spot? && IsDir(t, Walk(t, at, first, true, hops).loc)
    decreases hops, |first|
  {
    if rest == [] {
      assert first + rest == first;
    } else if first == [] {
      assert first + rest == rest;
    } else {
      var here := at + [first[0]];
      assert (first + rest)[1..] == first[1..] + rest;
      if first[0] == "." {
        WalkPrefix(t, at, first[1..], rest, hops);
      } else if first[0] == ".." {
        WalkPrefix(t, if at == [] then [] else Parent(at), first[1..], rest, hops);
      } else if IsLink(t, here) {
        var target := t[here].target;
        assert Comps(target) + (first[1..] + rest) == Comps(target) + first[1..] + rest;
        WalkPrefix(t, LinkBase(at, target), Comps(target) + first[1..], rest, hops - 1);
      } else {
        WalkPrefix(t, here, first[1..], rest, hops);
      }
    }
  }

  /** What is there with the last link followed is there without following it. */
  lemma {:induction false} WalkNotFollowing(t: Tree, at: Path, todo: seq<string>, hops: nat)
    requires Walk(t, at, todo, true, hops).Spot? && Walk(t, at, todo, true, hops).loc in t
    ensures Walk(t, at, todo, false, hops).Spot? && Walk(t, at, todo, false, hops).loc in t
    decreases hops, |todo|
  {
    if todo != [] {
      var here := at + [todo[0]];
      if todo[0] == "." {
        WalkNotFollowing(t, at, todo[1..], hops);
      } else if todo[0] == ".." {
        WalkNotFollowing(t, if at == [] then [] else Parent(at), todo[1..], hops);
      } else if IsLink(t, here) && |todo| > 1 {
        var target := t[here].target;
        WalkNotFollowing(t, LinkBase(at, target), Comps(target) + todo[1..], hops - 1);
      } else if IsLink(t, here) {
        assert todo[1..] == [];
      } else {
        WalkNotFollowing(t, here, todo[1..], hops);
      }
    }
  }

  /** If the last name is no link, it makes no difference whether it would be followed. */
  lemma {:induction false} WalkNoLinkAtEnd(t: Tree, at: Path, todo: seq<string>, hops: nat)
    requires Walk(t, at, todo, false, hops).Spot? && !IsLink(t, Walk(t, at, todo, false, hops).loc)
    ensures Walk(t, at, todo, true, hops) == Walk(t, at, todo, false, hops)
    decreases hops, |todo|
  {
    if todo != [] {
      var here := at + [todo[0]];
      if todo[0] == "." {
        WalkNoLinkAtEnd(t, at, todo[1..], hops);
      } else if todo[0] == ".." {
        WalkNoLinkAtEnd(t, if at == [] then [] else Parent(at), todo[1..], hops);
      } else if IsLink(t, here) && |todo| > 1 {
        var target := t[here].target;
        WalkNoLinkAtEnd(t, LinkBase(at, target), Comps(target) + todo[1..], hops - 1);
      } else {
        assert |todo| == 1 ==> todo[1..] == [];
        WalkNoLinkAtEnd(t, here, todo[1..], hops);
      }
    }
  }

  /** What is in both trees is the same in both, file contents aside. */
  ghost predicate Agree(t: Tree, u: Tree) {
    forall k | k in t && k in u :: t[k] == u[k] || (t[k].FileE? && u[k].FileE?)
  }

  /** Two such trees in which a walk finds something: it finds the same place. */
  lemma {:induction false} WalkCommon(t: Tree, u: Tree, at: Path, todo: seq<string>, follow: bool, hops: nat)
    requires Agree(t, u)
    requires Walk(t, at, todo, follow, hops).Spot? && Walk(t, at, todo, follow, hops).loc in t
    requires Walk(u, at, todo, follow, hops).Spot? && Walk(u, at, todo, follow, hops).loc in u
    ensures Walk(u, at, todo, follow, hops) == Walk(t, at, todo, follow, hops)
    decreases hops, |todo|
  {
    hide Comps;
    if todo != [] {
      var here := at + [todo[0]];
      if todo[0] == "." {
        WalkCommon(t, u, at, todo[1..], follow, hops);
      } else if todo[0] == ".." {
        WalkCommon(t, u, if at == [] then [] else Parent(at), todo[1..], follow, hops);
      } else if IsLink(t, here) && IsLink(u, here) && (|todo| > 1 || follow) {
        var target := t[here].target;
        WalkCommon(t, u, LinkBase(at, target), Comps(target) + todo[1..], follow, hops - 1);
      } else {
        assert |todo| == 1 ==> todo[1..] == [];
        assert |todo| > 1 || follow ==> !IsLink(t, here) && !IsLink(u, here);
        WalkCommon(t, u, here, todo[1..], follow, hops);
      }
    }
  }

  /** Where a walk goes from a directory: the next place, the names to come, and whether a link was followed. */
  function Onward(t: Tree, at: Path, todo: seq<string>, follow: bool): (r: (Path, seq<string>, bool))
    requires todo != []
    ensures !r.2 ==> |r.1| < |todo|
  {
    var here := at + [todo[0]];
    if todo[0] == "." then (at, todo[1..], false)
    else if todo[0] == ".." then (if at == [] then [] else Parent(at), todo[1..], false)
    else if IsLink(t, here) && (|todo| > 1 || follow)
    then (LinkBase(at, t[here].target), Comps(t[here].target) + todo[1..], true)
    else (here, todo[1..], false)
  }

  lemma WalkOnward(t: Tree, at: Path, todo: seq<string>, follow: bool, hops: nat)
    requires todo != [] && IsDir(t, at) && (Onward(t, at, todo, follow).2 ==> hops > 0)
    ensures var (next, rest, linked) := Onward(t, at, todo, follow);
            Walk(t, at, todo, follow, hops) == Walk(t, next, rest, follow, if linked then hops - 1 else hops)
  {
  }

  /** A walk that finds something begins at a node, and goes on if names are left. */
  lemma WalkStarts(t: Tree, at: Path, todo: seq<string>, follow: bool, hops: nat)
    requires Walk(t, at, todo, follow, hops).Spot? && Walk(t, at, todo, follow, hops).loc in t
    ensures at in t
    ensures todo != [] ==> IsDir(t, at) && (Onward(t, at, todo, follow).2 ==> hops > 0)
  {
  }

  /** What a walk finds in both of two trees, it finds in any tree that has what they share. */
  lemma {:induction false} WalkMeet(t: Tree, u: Tree, v: Tree, at: Path, todo: seq<string>, follow: bool, hops: nat)
    requires Agree(t, u) && forall k | k in t && k in u :: k in v && v[k] == t[k]
    requires Walk(t, at, todo, follow, hops).Spot? && Walk(t, at, todo, follow, hops).loc in t
    requires Walk(u, at, todo, follow, hops).Spot? && Walk(u, at, todo, follow, hops).loc in u
    ensures Walk(v, at, todo, follow, hops) == Walk(t, at, todo, follow, hops)
    decreases hops, |todo|
  {
    hide Onward;
    if todo != [] {
      WalkStarts(t, at, todo, follow, hops);
      WalkStarts(u, at, todo, follow, hops);
      WalkOnward(t, at, todo, follow, hops);
      WalkOnward(u, at, todo, follow, hops);
      OnwardMeets(t, u, v, at, todo, follow, hops);
      WalkOnward(v, at, todo, follow, hops);
      var (next, rest, linked) := Onward(t, at, todo, follow);
      WalkMeet(t, u, v, next, rest, follow, if linked then hops - 1 else hops);
    }
  }

  lemma OnwardMeets(t: Tree, u: Tree, v: Tree, at: Path, todo: seq<string>, follow: bool, hops: nat)
    requires Agree(t, u) && forall k | k in t && k in u :: k in v && v[k] == t[k]
    requires todo != [] && IsDir(t, at) && IsDir(u, at)
    requires Onward(t, at, todo, follow).2 || Onward(u, at, todo, follow).2 ==> hops > 0
    requires Walk(t, at, todo, follow, hops).Spot? && Walk(t, at, todo, follow, hops).loc in t
    requires Walk(u, at, todo, follow, hops).Spot? && Walk(u, at, todo, follow, hops).loc in u
    ensures IsDir(v, at)
    ensures Onward(u, at, todo, follow) == Onward(t, at, todo, follow)
    ensures Onward(v, at, todo, follow) == Onward(t, at, todo, follow)
  {
    hide Walk;
    WalkOnward(t, at, todo, follow, hops);
    WalkOnward(u, at, todo, follow, hops);
    var here := at + [todo[0]];
    if todo[0] != "." && todo[0] != ".." {
      if !Onward(t, at, todo, follow).2 {
        WalkStarts(t, here, todo[1..], follow, hops);
      }
      if !Onward(u, at, todo, follow).2 {
        WalkStarts(u, here, todo[1..], follow, hops);
      }
      assert here in t && here in u;
    }
  }

  /** A walk that does not follow its last name ends at that name. */
  lemma {:induction false} WalkLast(t: Tree, at: Path, todo: seq<string>, hops: nat)
    requires todo != [] && todo[|todo| - 1] != "." && todo[|todo| - 1] != ".."
    requires Walk(t, at, todo, false, hops).Spot?
    ensures var p := Walk(t, at, todo, false, hops).loc; p != [] && p[|p| - 1] == todo[|todo| - 1]
    decreases hops, |todo|
  {
    var here := at + [todo[0]];
    if |todo| == 1 {
      assert todo[1..] == [];
    } else if todo[0] == "." {
      WalkLast(t, at, todo[1..], hops);
    } else if todo[0] == ".." {
      WalkLast(t, if at == [] then [] else Parent(at), todo[1..], hops);
    } else if IsLink(t, here) {
      var target := t[here].target;
      WalkLast(t, LinkBase(at, target), Comps(target) + todo[1..], hops - 1);
    } else {
      WalkLast(t, here, todo[1..], hops);
    }
  }

  lemma PrefixOfNext(s: Path, at: Path, name: string)
    ensures s <= at + [name] <==> s <= at || s == at + [name]
  {
    if s <= at + [name] && |s| <= |at| {
      assert s == (at + [name])[..|s|] == at[..|s|];
    }
  }

  /** Trees that differ only at and below a place at which the walk does not stop. */
  lemma {:induction false} WalkBeside(t: Tree, u: Tree, s: Path, at: Path, todo: seq<string>, follow: bool, hops: nat)
    requires s !in t && !(s < at) && (forall k | !(s <= k) :: At(u, k) == At(t, k)) && !IsLink(u, s)
    requires var w := Walk(t, at, todo, follow, hops); w.Blocked? || w.loc != s
    ensures Walk(u, at, todo, follow, hops) == Walk(t, at, todo, follow, hops)
    ensures var w := Walk(t, at, todo, follow, hops); w.Spot? ==> !(s <= w.loc)
    decreases hops, |todo|
  {
    hide Comps, Onward;
    assert todo != [] ==> at != s;
    assert todo != [] ==> !(s <= at) && At(u, at) == At(t, at);
    if todo != [] && IsDir(t, at) {
      OnwardBeside(t, u, s, at, todo, follow);
      var (next, rest, linked) := Onward(t, at, todo, follow);
      LinkedOnward(t, at, todo, follow, hops);
      LinkedOnward(u, at, todo, follow, hops);
      if !linked || hops > 0 {
        WalkOnward(t, at, todo, follow, hops);
        WalkOnward(u, at, todo, follow, hops);
        WalkBeside(t, u, s, next, rest, follow, if linked then hops - 1 else hops);
      }
    }
  }

  lemma LinkedOnward(t: Tree, at: Path, todo: seq<string>, follow: bool, hops: nat)
    requires todo != [] && IsDir(t, at)
    ensures Onward(t, at, todo, follow).2 && hops == 0 ==> Walk(t, at, todo, follow, hops) == Blocked
  {
    hide Comps;
  }

  lemma OnwardBeside(t: Tree, u: Tree, s: Path, at: Path, todo: seq<string>, follow: bool)
    requires todo != [] && s !in t && !(s <= at) && (forall k | !(s <= k) :: At(u, k) == At(t, k)) && !IsLink(u, s)
    ensures Onward(u, at, todo, follow) == Onward(t, at, todo, follow) && !(s < Onward(t, at, todo, follow).0)
  {
    hide Comps;
    var here := at + [todo[0]];
    PrefixOfNext(s, at, todo[0]);
    assert s != here ==> At(u, here) == At(t, here);
  }

  // ---- What a path names, its last name not followed ----

  ghost predicate Found(t: Tree, source: string) {
    var s := Where(t, source, false);
    s.Spot? && s.loc in t
  }

  ghost function SourceLoc(t: Tree, source: string): Path {
    var s := Where(t, source, false);
    if s.Spot? then s.loc else []
  }

  lemma FoundNoLink(t: Tree, source: string)
    requires Found(t, source) && !IsLink(t, SourceLoc(t, source))
    ensures Where(t, source, true) == Spot(SourceLoc(t, source))
  {
    WalkNoLinkAtEnd(t, [], Comps(source), MAX_LINKS);
  }

  lemma FoundStays(t: Tree, u: Tree, source: string)
    requires Extends(t, u) && Found(t, source)
    ensures Found(u, source) && SourceLoc(u, source) == SourceLoc(t, source)
  {
    WalkStable(t, u, [], Comps(source), false, MAX_LINKS);
  }

  lemma FoundSame(t: Tree, u: Tree, source: string)
    requires Agree(t, u) && Found(t, source) && Found(u, source)
    ensures SourceLoc(u, source) == SourceLoc(t, source)
  {
    WalkCommon(t, u, [], Comps(source), false, MAX_LINKS);
  }

  lemma ChildFound(t: Tree, source: string, p: Path, name: string)
    requires WellFormed(t) && Where(t, source, true) == Spot(p) && IsDir(t, p) && SafeName(name) && p + [name] in t
    ensures Found(t, JoinPath(source, name)) && SourceLoc(t, JoinPath(source, name)) == p + [name]
  {
    CompsOfName(name);
    assert Parent(p + [name]) == p;
    WhereBelow(t, source, p, JoinPath(source, name), [name], false);
  }

  /** No symbolic link on the way to p; p itself may be one. */
  predicate Direct(t: Tree, p: Path) {
    forall i | 0 <= i < |p| :: !IsLink(t, p[..i])
  }

  /** With no link and no dots on the way, a walk ends at the named place if it ends at all. */
  lemma {:induction false} WalkDirect(t: Tree, at: Path, todo: seq<string>, follow: bool, hops: nat)
    requires WellFormed(t) && NoDots(todo) && Direct(t, at + todo) && (follow ==> !IsLink(t, at + todo))
    ensures var s := Walk(t, at, todo, follow, hops);
            && (s.Spot? ==> s.loc == at + todo)
            && (at + todo in t ==> s.Spot?)
    decreases |todo|
  {
    if todo == [] {
      assert at + todo == at;
    } else {
      var here := at + [todo[0]];
      assert here + todo[1..] == at + todo;
      assert |todo| > 1 ==> (at + todo)[..|at| + 1] == here;
      if at + todo in t {
        AncestorIsDir(t, at, at + todo);
      }
      WalkDirect(t, here, todo[1..], follow, hops);
    }
  }

  /** Below a directory that a root string names, a plain relative path leads straight down. */
  lemma WhereBelow(t: Tree, root: string, r: Path, path: string, rel: Path, follow: bool)
    requires WellFormed(t) && Where(t, root, true) == Spot(r) && IsDir(t, r)
    requires Comps(path) == Comps(root) + rel
    requires rel != [] && NoDots(rel) && IsDir(t, Parent(r + rel))
    requires follow ==> !IsLink(t, r + rel)
    ensures Where(t, path, follow) == Spot(r + rel)
  {
    var left := WalkThrough(t, [], Comps(root), rel, follow, MAX_LINKS);
    WalkDown(t, r, rel, follow, left);
  }
}

/** The system calls the program uses. Each may fail at any time, unless `reliable` is set;
    a failed call changes nothing. */
module FileSystem {
  import opened Bytes
  import opened Paths
  import opened FileTree
  import opened PathWalk

  datatype StatResult = Stat(entry: Entry) | NoEntry | Failed

  function StatOf(t: Tree, path: string, follow: bool): StatResult {
    match Where(t, path, follow)
    case Spot(loc) => if loc in t then Stat(t[loc]) else NoEntry
    case Missing(_) => NoEntry
    case Blocked => Failed
  }

  predicate Exists(t: Tree, path: string) {
    StatOf(t, path, false).Stat?
  }

  datatype RenameResult = Renamed | CrossDevice | Refused

  /** What may be overwritten with what. */
  predicate Replaceable(t: Tree, a: Path, b: Path) {
    a in t && b in t && (IsDir(t, a) <==> IsDir(t, b)) && (IsDir(t, b) ==> ChildNames(t, b) == {})
  }

  lemma NodeBelowIsChild(t: Tree, p: Path, k: Path)
    requires WellFormed(t) && p < k && k in t
    ensures IsDir(t, p) && ChildNames(t, p) != {}
  {
    AncestorIsDir(t, p, k);
    var child := k[..|p| + 1];
    if child != k {
      AncestorIsDir(t, child, k);
    }
    assert child[|p|] in ChildNames(t, p);
  }

  lemma RenameWellFormed(t: Tree, a: Path, b: Path)
    requires WellFormed(t) && a in t && !(a <= b) && Placed(t, b)
    requires b in t ==> Replaceable(t, a, b)
    ensures WellFormed(Moved(t - {b}, a, b))
  {
    if b < a {
      NodeBelowIsChild(t, b, a);
    }
    assert b != [];
    if b in t {
      DropWellFormed(t, b);
    } else {
      assert t - {b} == t;
    }
    var u := t - {b};
    assert IsDir(t, Parent(b)) && |Parent(b)| < |b|;
    MovedWellFormed(u, a, b);
  }

  function ChildNames(t: Tree, p: Path): set<string> {
    set k | k in t && |k| == |p| + 1 && p <= k :: k[|p|]
  }

  class FileSystem {
    var tree: Tree
    /** Source and destination of every rename are on one device. */
    const sameDevice: bool
    /** No call fails unless its operands forbid it. */
    const reliable: bool

    ghost predicate Valid()
      reads this
    {
      WellFormed(tree)
    }

    constructor (tree: Tree, sameDevice: bool, reliable: bool)
      requires WellFormed(tree)
      ensures Valid() && this.tree == tree
      ensures this.sameDevice == sameDevice && this.reliable == reliable
    {
      this.tree := tree;
      this.sameDevice := sameDevice;
      this.reliable := reliable;
    }

    method Lstat(path: string) returns (r: StatResult)
      ensures r == StatOf(tree, path, false)
    {
      r := StatOf(tree, path, false);
    }

    method Stat(path: string) returns (r: StatResult)
      ensures r == StatOf(tree, path, true)
    {
      r := StatOf(tree, path, true);
    }

    method Mkdir(path: string) returns (ok: bool)
      requires Valid()
      modifies this
      ensures Valid()
      ensures !ok ==> tree == old(tree)
      ensures var s := Where(old(tree), path, false);
              && (ok ==> s.Spot? && s.loc !in old(tree) && tree == old(tree)[s.loc := DirE])
              && (reliable && s.Spot? && s.loc !in old(tree) ==> ok)
    {
      var fault: bool := *;
      var s := Where(tree, path, false);
      WherePlaced(tree, path, false);
      ok := s.Spot? && s.loc !in tree && (reliable || !fault);
      if ok {
        PutWellFormed(tree, s.loc, DirE);
        tree := tree[s.loc := DirE];
      }
    }

    /** open with O_WRONLY, O_CREAT and O_TRUNC: follows a symbolic link at the last name. */
    method OpenWriteTrunc(path: string) returns (ok: bool, fd: Path)
      requires Valid()
      modifies this
      ensures Valid()
      ensures !ok ==> tree == old(tree)
      ensures var s := Where(old(tree), path, true);
              var open := s.Spot? && (s.loc in old(tree) ==> old(tree)[s.loc].FileE?);
              && (ok ==> open && fd == s.loc && tree == old(tree)[fd := FileE([])])
              && (reliable && open ==> ok)
    {
      var fault: bool := *;
      var s := Where(tree, path, true);
      WherePlaced(tree, path, true);
      ok := s.Spot? && (s.loc in tree ==> tree[s.loc].FileE?) && (reliable || !fault);
      fd := [];
      if ok {
        fd := s.loc;
        PutWellFormed(tree, fd, FileE([]));
        tree := tree[fd := FileE([])];
      }
    }

    /** Appends at least one and at most all of the bytes to an open file. */
    method Write(fd: Path, bytes: seq<byte>) returns (count: int)
      requires Valid() && fd in tree && tree[fd].FileE? && bytes != []
      modifies this
      ensures Valid()
      ensures count < 0 ==> tree == old(tree) && !reliable
      ensures count >= 0 ==> 0 < count <= |bytes| &&
                             tree == old(tree)[fd := FileE(old(tree)[fd].bytes + bytes[..count])]
    {
      count := *;
      if count > |bytes| || count <= 0 {
        count := if reliable then |bytes| else -1;
      }
      if count > 0 {
        PutWellFormed(tree, fd, FileE(tree[fd].bytes + bytes[..count]));
        tree := tree[fd := FileE(tree[fd].bytes + bytes[..count])];
      }
    }

    method OpenRead(path: string) returns (ok: bool, fd: Path)
      ensures var s := Where(tree, path, true);
              && (ok ==> s.Spot? && s.loc in tree && fd == s.loc)
              && (reliable && s.Spot? && s.loc in tree ==> ok)
    {
      var fault: bool := *;
      var s := Where(tree, path, true);
      ok := s.Spot? && s.loc in tree && (reliable || !fault);
      fd := if ok then s.loc else [];
    }

    /** Reads some of the bytes from an offset on; none only at the end of the file. */
    method Read(fd: Path, offset: nat, size: nat) returns (ok: bool, chunk: seq<byte>)
      requires fd in tree && tree[fd].FileE? && offset <= |tree[fd].bytes| && size > 0
      ensures ok ==> |chunk| <= size && offset + |chunk| <= |tree[fd].bytes|
      ensures ok ==> chunk == tree[fd].bytes[offset..offset + |chunk|]
      ensures ok ==> (chunk == [] <==> offset == |tree[fd].bytes|)
      ensures reliable ==> ok
    {
      var fault: bool := *;
      var count: int := *;
      ok := reliable || !fault;
      var most := |tree[fd].bytes| - offset;
      if count <= 0 || count > size || count > most {
        count := if most < size then most else size;
      }
      chunk := tree[fd].bytes[offset..offset + count];
    }

    method Unlink(path: string) returns (ok: bool)
      requires Valid()
      modifies this
      ensures Valid()
      ensures !ok ==> tree == old(tree)
      ensures var s := Where(old(tree), path, false);
              var plain := s.Spot? && s.loc in old(tree) && !old(tree)[s.loc].DirE?;
              && (ok ==> plain && tree == old(tree) - {s.loc})
              && (reliable && plain ==> ok)
    {
      var fault: bool := *;
      var s := Where(tree, path, false);
      ok := s.Spot? && s.loc in tree && !tree[s.loc].DirE? && (reliable || !fault);
      if ok {
        DropWellFormed(tree, s.loc);
        tree := tree - {s.loc};
      }
    }

    method Rmdir(path: string) returns (ok: bool)
      requires Valid()
      modifies this
      ensures Valid()
      ensures !ok ==> tree == old(tree)
      ensures var s := Where(old(tree), path, false);
              var empty := s.Spot? && s.loc != [] && IsDir(old(tree), s.loc) && ChildNames(old(tree), s.loc) == {};
              && (ok ==> empty && tree == old(tree) - {s.loc})
              && (reliable && empty ==> ok)
    {
      var fault: bool := *;
      var s := Where(tree, path, false);
      ok := s.Spot? && s.loc != [] && IsDir(tree, s.loc) && ChildNames(tree, s.loc) == {} && (reliable || !fault);
      if ok {
        DropWellFormed(tree, s.loc);
        tree := tree - {s.loc};
      }
    }

    /** opendir and all readdir calls: the names of the children, in any order. */
    method ListDirectory(path: string) returns (ok: bool, names: seq<string>)
      ensures var s := Where(tree, path, true);
              && (ok ==> s.Spot? && IsDir(tree, s.loc) && Enumerates(names, ChildNames(tree, s.loc)))
              && (reliable && s.Spot? && IsDir(tree, s.loc) ==> ok)
    {
      var fault: bool := *;
      var s := Where(tree, path, true);
      ok := s.Spot? && IsDir(tree, s.loc) && (reliable || !fault);
      names := [];
      if ok {
        names := AnyOrder(ChildNames(tree, s.loc));
      }
    }

    /** rename: a file or link replaces a file or link, a directory an empty directory. */
    method Rename(source: string, destination: string) returns (r: RenameResult)
      requires Valid()
      modifies this
      ensures Valid()
      ensures r != Renamed ==> tree == old(tree)
      ensures sameDevice ==> r != CrossDevice
      ensures var t, a, b := old(tree), Where(old(tree), source, false), Where(old(tree), destination, false);
              var feasible := a.Spot? && b.Spot? && a.loc in t && !(a.loc <= b.loc);
              && (r == Renamed ==> (a == b && a.Spot? && tree == t) ||
                                   (feasible && tree == Moved(t - {b.loc}, a.loc, b.loc)))
              && (r == Renamed && b.Spot? && b.loc in t && a != b ==> Replaceable(t, a.loc, b.loc))
              && (r == CrossDevice ==> feasible)
              && (reliable && feasible && b.loc !in t ==> r != Refused)
    {
      var a, b := Where(tree, source, false), Where(tree, destination, false);
      var fault: bool, crosses: bool := *, *;
      if a == b && a.Spot? && a.loc in tree && !fault {
        return Renamed;
      }
      if !a.Spot? || !b.Spot? || a.loc !in tree || a.loc <= b.loc || (fault && !reliable) {
        return Refused;
      }
      if crosses && !sameDevice {
        return CrossDevice;
      }
      if b.loc in tree && !Replaceable(tree, a.loc, b.loc) {
        return Refused;
      }
      WherePlaced(tree, destination, false);
      RenameWellFormed(tree, a.loc, b.loc);
      tree := Moved(tree - {b.loc}, a.loc, b.loc);
      r := Renamed;
    }

    /** mkdtemp: a new directory from a template that ends in six characters to fill in. */
    method Mkdtemp(base: string, prefix: string) returns (ok: bool, path: string, ghost name: string)
      requires Valid() && SafeName(prefix)
      modifies this
      ensures Valid()
      ensures !ok ==> tree == old(tree)
      ensures var s := Where(old(tree), base, true);
              ok ==> s.Spot? && TempName(prefix, name) && path == JoinPath(base, name) &&
                     s.loc + [name] !in old(tree) && IsDir(old(tree), s.loc) &&
                     tree == old(tree)[s.loc + [name] := DirE]
      ensures var s := Where(old(tree), base, true);
              reliable && s.Spot? && IsDir(old(tree), s.loc) && RoomFor(old(tree), s.loc, prefix) ==> ok
    {
      hide Suffixes;
      var suffix: string := *;
      if reliable && Where(tree, base, true).Spot? && RoomFor(tree, Where(tree, base, true).loc, prefix) {
        suffix :| suffix in Suffixes(6) && Where(tree, base, true).loc + [prefix + "-" + suffix] !in tree;
      }
      var filled := prefix + "-" + suffix;
      name := filled;
      var s := Where(tree, base, true);
      path := JoinPath(base, filled);
      ok := |suffix| == 6 && '/' !in suffix && s.Spot? && IsDir(tree, s.loc) && s.loc + [filled] !in tree;
      if ok {
        PlacedBelow(tree, s.loc, filled);
        PutWellFormed(tree, s.loc + [filled], DirE);
        tree := tree[s.loc + [filled] := DirE];
      }
    }
  }

  /** A name made from a template. */
  predicate TempName(prefix: string, name: string) {
    SafeName(name) && |name| == |prefix| + 7 && prefix + "-" <= name
  }

  const LETTERS := "abcdefghijklmnopqrstuvwxyzABCDEFGHIJKLMNOPQRSTUVWXYZ0123456789"

  /** All strings of n letters or digits. */
  function Suffixes(n: nat): (r: set<string>)
    ensures forall s | s in r :: |s| == n && '/' !in s
  {
    if n == 0 then {""} else set c, s | c in LETTERS && c != '/' && s in Suffixes(n - 1) :: [c] + s
  }

  /** Not every name that mkdtemp can make from the template is taken. */
  predicate RoomFor(t: Tree, p: Path, prefix: string) {
    exists s | s in Suffixes(6) :: p + [prefix + "-" + s] !in t
  }

  lemma PutWellFormed(t: Tree, p: Path, e: Entry)
    requires WellFormed(t) && Placed(t, p)
    requires p in t ==> t[p].FileE? && e.FileE?
    ensures WellFormed(t[p := e])
  {
    var u := t[p := e];
    forall k | k in u && k != [] ensures IsDir(u, Parent(k)) {
      assert |Parent(k)| < |k|;
    }
  }

  lemma ChildIsNamed(t: Tree, k: Path)
    requires k != [] && k in t
    ensures k[|k| - 1] in ChildNames(t, Parent(k))
  {
  }

  lemma DropWellFormed(t: Tree, p: Path)
    requires WellFormed(t) && p != [] && p in t
    requires t[p].DirE? ==> ChildNames(t, p) == {}
    ensures WellFormed(t - {p})
  {
    var u := t - {p};
    forall k | k in u && k != [] ensures IsDir(u, Parent(k)) {
      ChildIsNamed(t, k);
    }
  }

  /** The list names every member of the set once and nothing else. */
  ghost predicate Enumerates(names: seq<string>, s: set<string>) {
    && (forall i | 0 <= i < |names| :: names[i] in s)
    && (forall n | n in s :: n in names)
    && (forall i, j | 0 <= i < j < |names| :: names[i] != names[j])
  }

  method AnyOrder(s: set<string>) returns (names: seq<string>)
    ensures Enumerates(names, s)
  {
    names := [];
    var rest := s;
    while rest != {}
      invariant rest <= s && Enumerates(names, s - rest)
    {
      var name :| name in rest;
      names := names + [name];
      rest := rest - {name};
    }
  }
}
