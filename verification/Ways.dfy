/** Paths that are walked without following a link (src/path_safety.cpp). The names `.` and `..`
    may occur in them. */
module Ways {
  import opened Paths
  import opened FileTree
  import opened PathWalk

  predicate IsDots(name: string) {
    name == "." || name == ".."
  }

  /** One name further. */
  function Step(p: Path, name: string): Path {
    if name == "." then p
    else if name == ".." then if p == [] then [] else Parent(p)
    else p + [name]
  }

  /** Where the names lead from the root if no link is among them. */
  function End(names: seq<string>): Path {
    if names == [] then [] else Step(End(names[..|names| - 1]), names[|names| - 1])
  }

  /** Every name on the way leads to a directory that is no link. */
  ghost predicate RealWay(t: Tree, names: seq<string>) {
    forall i | 0 <= i <= |names| :: IsDir(t, End(names[..i]))
  }

  /** Up to a place where nothing is. */
  ghost predicate Gap(t: Tree, names: seq<string>) {
    exists i | 0 <= i < |names| :: RealWay(t, names[..i]) && End(names[..i + 1]) !in t
  }

  /** Up to a link or a file. */
  ghost predicate Crossed(t: Tree, names: seq<string>) {
    exists i | 0 <= i < |names| ::
      RealWay(t, names[..i]) && End(names[..i + 1]) in t && !IsDir(t, End(names[..i + 1]))
  }

  /** Every node that exists on the way is a directory. */
  ghost predicate Clear(t: Tree, names: seq<string>) {
    forall i | 0 <= i <= |names| && End(names[..i]) in t :: IsDir(t, End(names[..i]))
  }

  /** Dots come only where everything exists, so that the rest of the path goes straight down. */
  ghost predicate Aimed(t: Tree, names: seq<string>) {
    forall i | 0 <= i < |names| && IsDots(names[i]) :: RealWay(t, names[..i + 1])
  }

  /** The place, or something below it, is on the way. */
  ghost predicate OnWay(names: seq<string>, p: Path) {
    exists i | 0 <= i <= |names| :: p <= End(names[..i])
  }

  // ---- Where a way ends ----

  lemma EndNext(names: seq<string>, name: string)
    ensures End(names + [name]) == Step(End(names), name)
  {
    assert (names + [name])[..|names|] == names;
  }

  lemma {:induction false} EndDown(names: seq<string>, rel: Path)
    requires NoDots(rel)
    ensures End(names + rel) == End(names) + rel
  {
    if rel == [] {
      assert names + rel == names && End(names) + rel == End(names);
    } else {
      var above, last := rel[..|rel| - 1], rel[|rel| - 1];
      EndDown(names, above);
      assert names + rel == (names + above) + [last];
      EndNext(names + above, last);
      assert End(names) + rel == End(names) + above + [last];
    }
  }

  // ---- Ways and their beginnings ----

  lemma Whole(names: seq<string>)
    ensures names[..|names|] == names
  {
  }

  lemma RealPrefix(t: Tree, names: seq<string>, i: nat)
    requires i <= |names| && RealWay(t, names)
    ensures RealWay(t, names[..i]) && IsDir(t, End(names[..i]))
  {
    forall j | 0 <= j <= i ensures IsDir(t, End(names[..i][..j])) {
      assert names[..i][..j] == names[..j];
    }
  }

  lemma RealNext(t: Tree, names: seq<string>, name: string)
    ensures RealWay(t, names + [name]) <==> RealWay(t, names) && IsDir(t, Step(End(names), name))
  {
    hide End, Step;
    var longer := names + [name];
    EndNext(names, name);
    Whole(longer);
    forall i | 0 <= i <= |names| ensures longer[..i] == names[..i] {}
  }

  /** Adding directories leaves ways as they are. */
  lemma RealStays(t: Tree, u: Tree, names: seq<string>)
    requires Extends(t, u) && RealWay(t, names)
    ensures RealWay(u, names)
  {
    forall i | 0 <= i <= |names| ensures IsDir(u, End(names[..i])) {
      assert IsDir(t, End(names[..i]));
    }
  }

  lemma AimedStays(t: Tree, u: Tree, names: seq<string>)
    requires Extends(t, u) && Aimed(t, names)
    ensures Aimed(u, names)
  {
    forall i | 0 <= i < |names| && IsDots(names[i]) ensures RealWay(u, names[..i + 1]) {
      RealStays(t, u, names[..i + 1]);
    }
  }

  lemma AimedPrefix(t: Tree, names: seq<string>, i: nat)
    requires i <= |names| && Aimed(t, names)
    ensures Aimed(t, names[..i])
  {
    forall j | 0 <= j < i && IsDots(names[..i][j]) ensures RealWay(t, names[..i][..j + 1]) {
      assert names[..i][..j + 1] == names[..j + 1];
    }
  }

  lemma AimedDown(t: Tree, names: seq<string>, rel: Path)
    requires Aimed(t, names) && NoDots(rel)
    ensures Aimed(t, names + rel) && End(names + rel) == End(names) + rel
  {
    EndDown(names, rel);
    assert forall i | |names| <= i < |names + rel| :: (names + rel)[i] == rel[i - |names|];
    forall i | 0 <= i < |names + rel| && IsDots((names + rel)[i]) ensures RealWay(t, (names + rel)[..i + 1]) {
      assert (names + rel)[..i + 1] == names[..i + 1];
    }
  }

  lemma RealIsAimed(t: Tree, names: seq<string>)
    requires RealWay(t, names)
    ensures Aimed(t, names)
  {
    forall i | 0 <= i < |names| && IsDots(names[i]) ensures RealWay(t, names[..i + 1]) {
      RealPrefix(t, names, i + 1);
    }
  }

  lemma {:induction false} EndAbove(names: seq<string>, i: nat)
    requires i <= |names| && forall j | i <= j < |names| :: !IsDots(names[j])
    ensures End(names[..i]) <= End(names)
  {
    var rel := names[i..];
    assert names == names[..i] + rel;
    assert NoDots(rel);
    EndDown(names[..i], rel);
  }

  /** At each point of an aimed path all is real so far, or it only goes down from here. */
  lemma AimedAt(t: Tree, names: seq<string>, i: nat)
    requires Aimed(t, names) && i <= |names|
    ensures RealWay(t, names[..i]) || End(names[..i]) <= End(names)
  {
    if j: nat :| i <= j < |names| && IsDots(names[j]) {
      RealPrefix(t, names[..j + 1], i);
      assert names[..j + 1][..i] == names[..i];
    } else {
      EndAbove(names, i);
    }
  }

  lemma AimedDots(t: Tree, names: seq<string>)
    requires Aimed(t, names) && names != [] && IsDots(names[|names| - 1])
    ensures RealWay(t, names) && End(names) in t
  {
    Whole(names);
    assert names[..|names| - 1 + 1] == names;
    RealPrefix(t, names, |names|);
  }

  lemma AimedClear(t: Tree, names: seq<string>)
    requires Aimed(t, names) && forall k | k <= End(names) && k in t :: IsDir(t, k)
    ensures Clear(t, names)
  {
    forall i | 0 <= i <= |names| && End(names[..i]) in t ensures IsDir(t, End(names[..i])) {
      AimedAt(t, names, i);
      if RealWay(t, names[..i]) {
        RealPrefix(t, names[..i], i);
        Whole(names[..i]);
      }
    }
  }

  // ---- The first obstacle ----

  lemma CrossedIsNoGap(t: Tree, names: seq<string>)
    requires Crossed(t, names)
    ensures !Gap(t, names) && !RealWay(t, names)
  {
    var i :| 0 <= i < |names| && RealWay(t, names[..i]) && End(names[..i + 1]) in t && !IsDir(t, End(names[..i + 1]));
    assert !RealWay(t, names);
    forall j | 0 <= j < |names| ensures RealWay(t, names[..j]) ==> End(names[..j + 1]) in t {
      if i < j {
        assert names[..j][..i + 1] == names[..i + 1];
        assert !RealWay(t, names[..j]);
      } else if j < i {
        assert names[..i][..j + 1] == names[..j + 1];
        assert IsDir(t, End(names[..i][..j + 1]));
      }
    }
  }

  lemma GapIsNotReal(t: Tree, names: seq<string>)
    requires Gap(t, names)
    ensures !RealWay(t, names)
  {
  }

  /** On an aimed path that meets no link and no file, whatever exists above its end is a directory. */
  lemma OpenUnlessCrossed(t: Tree, names: seq<string>, k: Path)
    requires WellFormed(t) && Aimed(t, names) && !Crossed(t, names) && k <= End(names) && k in t
    ensures IsDir(t, k)
  {
    WayIs(t, names);
    if RealWay(t, names) {
      RealPrefix(t, names, |names|);
      Whole(names);
      if k != End(names) {
        AncestorIsDir(t, k, End(names));
      }
    } else {
      var i :| 0 <= i < |names| && RealWay(t, names[..i]) && End(names[..i + 1]) !in t;
      var free := End(names[..i + 1]);
      BehindGap(t, names, i);
      if free <= k {
        EmptySubtree(t, free);
      } else {
        assert k < free && k <= Parent(free);
        RealPrefix(t, names[..i], i);
        Whole(names[..i]);
        if k != Parent(free) {
          AncestorIsDir(t, k, Parent(free));
        }
      }
    }
  }

  /** Behind a gap, an aimed path goes straight down. */
  lemma BehindGap(t: Tree, names: seq<string>, i: nat)
    requires WellFormed(t) && Aimed(t, names) && i < |names| && RealWay(t, names[..i]) && End(names[..i + 1]) !in t
    ensures End(names[..i + 1]) <= End(names)
    ensures End(names[..i + 1]) != [] && Parent(End(names[..i + 1])) == End(names[..i])
  {
    hide End, RealWay, Aimed;
    assert names[..i + 1] == names[..i] + [names[i]];
    EndNext(names[..i], names[i]);
    RealPrefix(t, names[..i], i);
    Whole(names[..i]);
    forall j | i + 1 <= j < |names| ensures !IsDots(names[j]) {
      if IsDots(names[j]) {
        DotsBehind(t, names, i, j);
      }
    }
    EndAbove(names, i + 1);
  }

  lemma DotsBehind(t: Tree, names: seq<string>, i: nat, j: nat)
    requires Aimed(t, names) && i < j < |names| && IsDots(names[j])
    ensures End(names[..i + 1]) in t
  {
    hide End, RealWay;
    RealPrefix(t, names[..j + 1], i + 1);
    assert names[..j + 1][..i + 1] == names[..i + 1];
  }

  /** A link or a file on the way stays there when directories are added. */
  lemma CrossedStays(t: Tree, u: Tree, names: seq<string>)
    requires Crossed(t, names) && Extends(t, u)
    ensures Crossed(u, names)
  {
    var i :| 0 <= i < |names| && RealWay(t, names[..i]) && End(names[..i + 1]) in t && !IsDir(t, End(names[..i + 1]));
    RealStays(t, u, names[..i]);
  }

  lemma CrossedFurther(t: Tree, names: seq<string>, rest: seq<string>)
    requires Crossed(t, names)
    ensures Crossed(t, names + rest)
  {
    var i :| 0 <= i < |names| && RealWay(t, names[..i]) && End(names[..i + 1]) in t && !IsDir(t, End(names[..i + 1]));
    assert (names + rest)[..i] == names[..i] && (names + rest)[..i + 1] == names[..i + 1];
  }

  lemma {:induction false} WayIs(t: Tree, names: seq<string>)
    requires WellFormed(t)
    ensures RealWay(t, names) || Gap(t, names) || Crossed(t, names)
  {
    if names == [] {
      assert RealWay(t, []);
    } else {
      var above, last := names[..|names| - 1], names[|names| - 1];
      assert names == above + [last];
      WayIs(t, above);
      if RealWay(t, above) {
        RealNext(t, above, last);
        Whole(names);
        EndNext(above, last);
        if !RealWay(t, names) {
          assert names[..|names| - 1] == above && names[..|names| - 1 + 1] == names;
        }
      } else if Gap(t, above) {
        GapFurther(t, above, [last]);
      } else {
        CrossedFurther(t, above, [last]);
      }
    }
  }

  lemma GapFurther(t: Tree, names: seq<string>, rest: seq<string>)
    requires Gap(t, names)
    ensures Gap(t, names + rest)
  {
    var i :| 0 <= i < |names| && RealWay(t, names[..i]) && End(names[..i + 1]) !in t;
    assert (names + rest)[..i] == names[..i] && (names + rest)[..i + 1] == names[..i + 1];
  }

  // ---- A way and what is taken from the tree ----

  lemma WayKept(t: Tree, u: Tree, names: seq<string>, p: Path)
    requires RealWay(t, names) && !OnWay(names, p) && forall k | IsDir(t, k) && !(p <= k) :: IsDir(u, k)
    ensures RealWay(u, names)
  {
    forall i | 0 <= i <= |names| ensures IsDir(u, End(names[..i])) {
      assert IsDir(t, End(names[..i]));
    }
  }

  /** If directories are only removed, a way that does not exist any more ends in a gap. */
  lemma WayLost(t: Tree, u: Tree, names: seq<string>)
    requires RealWay(t, names) && WellFormed(u) && forall k | IsDir(t, k) :: k in u ==> IsDir(u, k)
    ensures RealWay(u, names) || Gap(u, names)
  {
    WayIs(u, names);
  }

  lemma WayGone(u: Tree, names: seq<string>, p: Path)
    requires OnWay(names, p) && WellFormed(u) && p !in u
    ensures !RealWay(u, names)
  {
    var i :| 0 <= i <= |names| && p <= End(names[..i]);
    EmptySubtree(u, p);
  }

  // ---- The kernel agrees ----

  lemma {:induction false} RealWalk(t: Tree, names: seq<string>, follow: bool, hops: nat)
    requires RealWay(t, names)
    ensures Walk(t, [], names, follow, hops) == Spot(End(names))
  {
    if names != [] {
      var above, last := names[..|names| - 1], names[|names| - 1];
      assert names == above + [last];
      RealNext(t, above, last);
      RealWalk(t, above, true, hops);
      NextWalk(t, above, last, follow, hops);
      EndNext(above, last);
    }
  }

  /** One name behind a real way; the last name is not followed, or no link. */
  lemma NextWalk(t: Tree, names: seq<string>, name: string, follow: bool, hops: nat)
    requires RealWay(t, names) && Walk(t, [], names, true, hops) == Spot(End(names))
    requires follow ==> !IsLink(t, Step(End(names), name))
    ensures Walk(t, [], names + [name], follow, hops) == Spot(Step(End(names), name))
  {
    Whole(names);
    assert IsDir(t, End(names[..|names|]));
    var left := WalkThrough(t, [], names, [name], follow, hops);
    assert [name][1..] == [];
  }

  /** A real way costs a walk no links. */
  lemma {:induction false} RealThrough(t: Tree, names: seq<string>, rest: seq<string>, follow: bool, hops: nat)
    requires RealWay(t, names) && rest != []
    ensures Walk(t, [], names + rest, follow, hops) == Walk(t, End(names), rest, follow, hops)
    decreases |names|
  {
    if names == [] {
      assert names + rest == rest;
    } else {
      var above, last := names[..|names| - 1], names[|names| - 1];
      assert names == above + [last];
      assert names + rest == above + ([last] + rest);
      RealNext(t, above, last);
      RealThrough(t, above, [last] + rest, follow, hops);
      EndNext(above, last);
      RealPrefix(t, above, |above|);
      Whole(above);
      assert ([last] + rest)[1..] == rest;
    }
  }

  /** Behind a gap nothing is found. */
  lemma GapIsMissing(t: Tree, names: seq<string>, rest: seq<string>, follow: bool)
    requires WellFormed(t) && Gap(t, names) && rest != []
    ensures Walk(t, [], names + rest, follow, MAX_LINKS).Missing?
  {
    var i :| 0 <= i < |names| && RealWay(t, names[..i]) && End(names[..i + 1]) !in t;
    var above, behind := names[..i], names[i..] + rest;
    assert names + rest == above + behind;
    assert names[..i + 1] == above + [names[i]];
    EndNext(above, names[i]);
    RealWalk(t, above, true, MAX_LINKS);
    RealPrefix(t, above, |above|);
    Whole(above);
    assert !IsDots(names[i]);
    var left := WalkThrough(t, [], above, behind, follow, MAX_LINKS);
    assert behind[0] == names[i] && behind[1..] == names[i + 1..] + rest;
  }

  /** A walk to a directory goes along a real way, or follows a link. */
  lemma {:induction false} DirIsRealOrCrossed(t: Tree, names: seq<string>)
    requires WellFormed(t) && Walk(t, [], names, true, MAX_LINKS).Spot?
    requires IsDir(t, Walk(t, [], names, true, MAX_LINKS).loc)
    ensures RealWay(t, names) || Crossed(t, names)
  {
    if names == [] {
      assert RealWay(t, []);
    } else {
      var above, last := names[..|names| - 1], names[|names| - 1];
      assert names == above + [last];
      WalkPrefix(t, [], above, [last], MAX_LINKS);
      DirIsRealOrCrossed(t, above);
      if RealWay(t, above) {
        RealWalk(t, above, true, MAX_LINKS);
        var left := WalkThrough(t, [], above, [last], true, MAX_LINKS);
        assert [last][1..] == [];
        RealNext(t, above, last);
        EndNext(above, last);
        if !RealWay(t, names) {
          assert names[..|names| - 1] == above && names[..|names| - 1 + 1] == names;
        }
      } else {
        CrossedFurther(t, above, [last]);
      }
    }
  }
}
