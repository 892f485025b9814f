module Bytes {
  newtype byte = x: int | 0 <= x < 256
}

/** File systems as values: a map from locations to what is there. */
module FileTree {
  import opened Paths
  import opened Bytes

  datatype Entry = FileE(bytes: seq<byte>) | DirE | LinkE(target: string)

  type Tree = map<Path, Entry>

  datatype Option<+T> = None | Some(value: T)

  function At(t: Tree, p: Path): Option<Entry> {
    if p in t then Some(t[p]) else None
  }

  function Parent(p: Path): Path
    requires p != []
  {
    p[..|p| - 1]
  }

  predicate IsDir(t: Tree, p: Path) {
    p in t && t[p].DirE?
  }

  predicate IsLink(t: Tree, p: Path) {
    p in t && t[p].LinkE?
  }

  /** Everything but the root hangs in a directory, under a safe name. */
  ghost predicate WellFormed(t: Tree) {
    && IsDir(t, [])
    && (forall p {:trigger Parent(p)} | p in t && p != [] :: IsDir(t, Parent(p)))
    && (forall p {:trigger SafeNames(p)} | p in t :: SafeNames(p))
  }

  lemma {:induction false} AncestorIsDir(t: Tree, a: Path, p: Path)
    requires WellFormed(t) && p in t && a < p
    ensures IsDir(t, a)
  {
    if a == Parent(p) {
    } else {
      assert a < Parent(p);
      AncestorIsDir(t, a, Parent(p));
    }
  }

  /** Only directories were added, all of them on the way to p. */
  ghost predicate Grown(t: Tree, u: Tree, p: Path) {
    forall k {:trigger At(u, k)} :: At(u, k) == At(t, k) || (k !in t && k <= p && At(u, k) == Some(DirE))
  }

  // ---- Subtrees ----

  /** The tree below p, with locations relative to p; empty when nothing is at p. */
  function Subtree(t: Tree, p: Path): (s: Tree)
    ensures forall q :: q in s <==> p + q in t
    ensures forall q :: q in s ==> s[q] == t[p + q]
  {
    var keys := set k | k in t && p <= k :: k[|p|..];
    assert forall k | k in t && p <= k :: p + k[|p|..] == k;
    assert forall q | p + q in t :: (p + q)[|p|..] == q;
    map q | q in keys :: t[p + q]
  }

  function Without(t: Tree, p: Path): Tree {
    map k | k in t && !(p <= k) :: t[k]
  }

  lemma WithoutWellFormed(t: Tree, p: Path)
    requires WellFormed(t) && p != []
    ensures WellFormed(Without(t, p))
  {
    var u := Without(t, p);
    forall k | k in u && k != [] ensures IsDir(u, Parent(k)) {
      assert p <= Parent(k) ==> p <= k;
    }
    forall k | k in u ensures SafeNames(k) {
      assert k in t;
    }
  }

  /** Puts the tree s at p. */
  function Graft(t: Tree, p: Path, s: Tree): (r: Tree)
    ensures forall k :: At(r, k) == if p <= k && k[|p|..] in s then Some(s[k[|p|..]]) else At(t, k)
  {
    var placed := set q | q in s :: p + q;
    assert forall q :: (p + q)[|p|..] == q;
    assert forall k | p <= k && k[|p|..] in s :: k == p + k[|p|..];
    map k | k in t.Keys + placed :: if p <= k && k[|p|..] in s then s[k[|p|..]] else t[k]
  }

  /** The tree after a successful rename of a to b. */
  function Moved(t: Tree, a: Path, b: Path): Tree {
    Graft(Without(t, a), b, Subtree(t, a))
  }

  /** Neither location lies at or below the other. */
  predicate Apart(a: Path, b: Path) {
    !(a <= b) && !(b <= a)
  }

  lemma SameSubtree(t: Tree, u: Tree, p: Path)
    requires forall k | p <= k :: At(t, k) == At(u, k)
    ensures Subtree(t, p) == Subtree(u, p)
  {
    forall q ensures At(t, p + q) == At(u, p + q) {}
    assert forall q :: q in Subtree(t, p) <==> q in Subtree(u, p);
  }

  lemma SubtreeOfSubtree(t: Tree, s: Path, q: Path)
    ensures Subtree(t, s + q) == Subtree(Subtree(t, s), q)
  {
    forall k ensures At(Subtree(t, s + q), k) == At(Subtree(Subtree(t, s), q), k) {
      assert s + (q + k) == s + q + k;
      assert k in Subtree(t, s + q) <==> s + q + k in t;
      assert q + k in Subtree(t, s) <==> s + (q + k) in t;
      assert k in Subtree(Subtree(t, s), q) <==> q + k in Subtree(t, s);
    }
    SameTree(Subtree(t, s + q), Subtree(Subtree(t, s), q));
  }

  lemma EmptySubtree(t: Tree, p: Path)
    requires WellFormed(t) && p !in t
    ensures Subtree(t, p) == map[]
    ensures forall k | p <= k :: k !in t
  {
    forall k | p <= k ensures k !in t {
      if |k| == |p| {
        assert k == p;
      } else if k in t {
        AncestorIsDir(t, p, k);
      }
    }
    assert forall q :: q !in Subtree(t, p);
  }

  lemma SameTree(t: Tree, u: Tree)
    requires forall k :: At(t, k) == At(u, k)
    ensures t == u
  {
    assert forall k :: k in t <==> At(t, k).Some?;
    assert forall k :: k in u <==> At(u, k).Some?;
    assert forall k :: k in t ==> t[k] == At(t, k).value;
    assert forall k :: k in u ==> u[k] == At(u, k).value;
  }

  /** Where everything is after a move to a free place. */
  lemma MovedAt(t: Tree, a: Path, b: Path, k: Path)
    requires WellFormed(t) && b !in t && Apart(a, b)
    ensures b <= k ==> At(Moved(t, a, b), k) == At(t, a + k[|b|..])
    ensures a <= k ==> At(Moved(t, a, b), k) == None
    ensures !(a <= k) && !(b <= k) ==> At(Moved(t, a, b), k) == At(t, k)
  {
    EmptySubtree(t, b);
    if a <= k && b <= k {
      PrefixesMeet(a, b, k);
    }
  }

  lemma MovedWellFormed(t: Tree, a: Path, b: Path)
    requires WellFormed(t) && a in t && b !in t && Apart(a, b)
    requires b != [] && IsDir(t, Parent(b)) && SafeNames(b)
    ensures WellFormed(Moved(t, a, b))
  {
    var u := Moved(t, a, b);
    MovedAt(t, a, b, []);
    assert a != [];
    forall k | k in u ensures SafeNames(k) && (k != [] ==> IsDir(u, Parent(k))) {
      MovedAt(t, a, b, k);
      if k != [] {
        MovedAt(t, a, b, Parent(k));
        if b <= k {
          MovedNodeHangs(t, a, b, k);
        } else {
          assert k in t && !(a <= k);
        }
      }
    }
  }

  lemma NamesBelow(a: Path, b: Path, q: Path)
    requires SafeNames(b) && SafeNames(a + q)
    ensures SafeNames(b + q)
  {
    assert forall i | 0 <= i < |q| :: q[i] == (a + q)[|a| + i];
  }

  lemma MovedNodeHangs(t: Tree, a: Path, b: Path, k: Path)
    requires WellFormed(t) && a in t && b !in t && Apart(a, b)
    requires b != [] && IsDir(t, Parent(b)) && SafeNames(b)
    requires b <= k && a + k[|b|..] in t
    ensures SafeNames(k) && IsDir(Moved(t, a, b), Parent(k))
  {
    var q := k[|b|..];
    MovedAt(t, a, b, Parent(k));
    NamesBelow(a, b, q);
    assert k == b + q;
    if q == [] {
      assert k == b;
    } else {
      assert Parent(a + q) == a + Parent(q);
      assert Parent(k)[|b|..] == Parent(q);
    }
  }

  lemma PrefixesMeet(a: Path, b: Path, k: Path)
    requires a <= k && b <= k
    ensures a <= b || b <= a
  {
    assert a == k[..|a|] && b == k[..|b|];
  }
}
