/** Path strings: splitting at '/', joining, and the check that an archive path is a safe
    relative path (src/path_safety.cpp). */
module Paths {

  /** A location is the list of names on the way from the root of the file system. */
  type Path = seq<string>

  /** A name the kernel accepts for a directory entry that is neither "." nor "..". */
  predicate SafeName(name: string) {
    name != "" && name != "." && name != ".." && '/' !in name
  }

  /** The parts of a string between its slashes, empty parts included. */
  function Split(path: string): (parts: seq<string>)
    ensures parts != []
    ensures forall i | 0 <= i < |parts| :: '/' !in parts[i]
  {
    if path == "" then [""]
    else if path[0] == '/' then [""] + Split(path[1..])
    else Glue([path[0]], Split(path[1..]))
  }

  /** Puts a prefix in front of the first part. */
  function Glue(prefix: string, parts: seq<string>): (glued: seq<string>)
    requires parts != []
    ensures |glued| == |parts|
  {
    [prefix + parts[0]] + parts[1..]
  }

  /** The inverse of Split: the parts with one slash between neighbours. */
  function Unsplit(parts: seq<string>): string {
    if parts == [] then ""
    else if |parts| == 1 then parts[0]
    else parts[0] + "/" + Unsplit(parts[1..])
  }

  function NonEmpty(parts: seq<string>): (names: seq<string>)
    ensures forall i | 0 <= i < |names| :: names[i] != ""
  {
    if parts == [] then []
    else if parts[0] == "" then NonEmpty(parts[1..])
    else [parts[0]] + NonEmpty(parts[1..])
  }

  lemma {:induction false} NonEmptyFrom(parts: seq<string>)
    ensures forall i | 0 <= i < |NonEmpty(parts)| :: NonEmpty(parts)[i] in parts
  {
    if parts != [] {
      NonEmptyFrom(parts[1..]);
    }
  }

  /** What the kernel makes of a path string: repeated and trailing slashes do not count. */
  function Comps(path: string): (names: Path)
    ensures forall i | 0 <= i < |names| :: names[i] != "" && '/' !in names[i]
  {
    NonEmptyFrom(Split(path));
    NonEmpty(Split(path))
  }

  predicate NoDots(p: Path) {
    forall i | 0 <= i < |p| :: p[i] != "." && p[i] != ".."
  }

  /** Joins a directory string and the string of a path below it. */
  function JoinPath(lhs: string, rhs: string): (joined: string)
    ensures Comps(joined) == Comps(lhs) + Comps(rhs)
    ensures NoTrailingSlash(rhs) ==> NoTrailingSlash(joined)
  {
    CompsOfJoin(lhs, rhs);
    if lhs == "" then rhs
    else if lhs[|lhs| - 1] == '/' then lhs + rhs
    else lhs + "/" + rhs
  }

  /** A path string that does not end in a slash. */
  predicate NoTrailingSlash(path: string) {
    path != "" && path[|path| - 1] != '/'
  }

  method SplitPath(path: string) returns (parts: seq<string>)
    ensures parts == Split(path)
  {
    parts := [];
    var current := "";
    GlueNothing(Split(path));
    assert path[0..] == path;
    for i := 0 to |path|
      invariant Split(path) == parts + Glue(current, Split(path[i..]))
    {
      SplitStep(current, path, i);
      if path[i] == '/' {
        parts := parts + [current];
        current := "";
        continue;
      }
      current := current + [path[i]];
    }
    GlueFirst(current, []);
    parts := parts + [current];
  }

  lemma GlueNothing(parts: seq<string>)
    requires parts != []
    ensures Glue("", parts) == parts
  {
    assert "" + parts[0] == parts[0];
  }

  lemma GlueFirst(current: string, tail: seq<string>)
    ensures Glue(current, [""] + tail) == [current] + tail
  {
    assert ([""] + tail)[1..] == tail;
    assert current + "" == current;
  }

  lemma GlueTwice(current: string, prefix: string, parts: seq<string>)
    requires parts != []
    ensures Glue(current, Glue(prefix, parts)) == Glue(current + prefix, parts)
  {
    assert current + (prefix + parts[0]) == (current + prefix) + parts[0];
    assert Glue(prefix, parts)[1..] == parts[1..];
  }

  /** One character further, as the splitting loop sees it. */
  lemma SplitStep(current: string, path: string, i: nat)
    requires i < |path|
    ensures Glue(current, Split(path[i..])) ==
            if path[i] == '/' then [current] + Glue("", Split(path[i + 1..]))
            else Glue(current + [path[i]], Split(path[i + 1..]))
  {
    var rest := path[i..];
    assert rest[1..] == path[i + 1..];
    if rest[0] == '/' {
      GlueNothing(Split(rest[1..]));
      GlueFirst(current, Split(rest[1..]));
    } else {
      GlueTwice(current, [rest[0]], Split(rest[1..]));
    }
  }

  /** Every part is a safe name, except that the last may be empty (one trailing slash). */
  predicate ValidRelative(path: string) {
    var parts := Split(path);
    path != "" &&
    forall i | 0 <= i < |parts| ::
      (parts[i] == "" && i == |parts| - 1 && 0 < i) || SafeName(parts[i])
  }

  method ValidateArchiveRelativePath(path: string) returns (ok: bool)
    ensures ok == ValidRelative(path)
  {
    if path == "" {
      return false;
    }
    if path[0] == '/' {
      assert Split(path)[0] == "";
      return false;
    }
    var parts := SplitPath(path);
    assert parts[0] != "";
    for i := 0 to |parts|
      invariant forall k | 0 <= k < i ::
        (parts[k] == "" && k == |parts| - 1 && 0 < k) || SafeName(parts[k])
    {
      var isLast := i + 1 == |parts|;
      if parts[i] == "" && isLast {
        continue;
      }
      if parts[i] == "" || parts[i] == "." || parts[i] == ".." {
        return false;
      }
    }
    ok := true;
  }

  // ---- Split and Unsplit are inverse to each other ----

  lemma {:induction false} UnsplitSplit(path: string)
    ensures Unsplit(Split(path)) == path
  {
    if path != "" {
      UnsplitSplit(path[1..]);
      var rest := Split(path[1..]);
      if path[0] == '/' {
        assert ([""] + rest)[1..] == rest;
      } else {
        assert Glue([path[0]], rest)[1..] == rest[1..];
      }
      assert path == [path[0]] + path[1..];
    }
  }

  lemma {:induction false} SplitNoSlash(part: string)
    requires '/' !in part
    ensures Split(part) == [part]
  {
    if part != "" {
      SplitNoSlash(part[1..]);
      assert part == [part[0]] + part[1..];
    }
  }

  lemma GlueConcat(prefix: string, left: seq<string>, right: seq<string>)
    requires left != []
    ensures Glue(prefix, left + right) == Glue(prefix, left) + right
  {
    assert (left + right)[1..] == left[1..] + right;
  }

  lemma {:induction false} SplitConcat(a: string, b: string)
    ensures Split(a + "/" + b) == Split(a) + Split(b)
  {
    var s := a + "/" + b;
    if a == "" {
      assert s[0] == '/' && s[1..] == b;
    } else {
      SplitConcat(a[1..], b);
      assert s[0] == a[0] && s[1..] == a[1..] + "/" + b;
      GlueConcat([a[0]], Split(a[1..]), Split(b));
      assert a[0] == '/' ==> [""] + (Split(a[1..]) + Split(b)) == Split(a) + Split(b);
    }
  }

  lemma {:induction false} SplitUnsplit(parts: seq<string>)
    requires parts != []
    requires forall i | 0 <= i < |parts| :: '/' !in parts[i]
    ensures Split(Unsplit(parts)) == parts
  {
    SplitNoSlash(parts[0]);
    if |parts| > 1 {
      SplitUnsplit(parts[1..]);
      SplitConcat(parts[0], Unsplit(parts[1..]));
    }
  }

  // ---- Components ----

  lemma NonEmptyHead(parts: seq<string>)
    requires parts != []
    ensures NonEmpty(parts) == (if parts[0] == "" then [] else [parts[0]]) + NonEmpty(parts[1..])
  {
  }

  lemma NoneEmpty()
    ensures NonEmpty([]) == []
  {
  }

  lemma {:induction false} NonEmptyConcat(a: seq<string>, b: seq<string>)
    ensures NonEmpty(a + b) == NonEmpty(a) + NonEmpty(b)
  {
    hide NonEmpty;
    if a == [] {
      NoneEmpty();
      assert a + b == b;
    } else {
      NonEmptyConcat(a[1..], b);
      assert (a + b)[1..] == a[1..] + b;
      NonEmptyHead(a);
      NonEmptyHead(a + b);
    }
  }

  lemma {:induction false} NonEmptyOfNames(parts: seq<string>)
    requires forall i | 0 <= i < |parts| :: parts[i] != ""
    ensures NonEmpty(parts) == parts
  {
    if parts != [] {
      NonEmptyOfNames(parts[1..]);
    }
  }

  lemma CompsOfConcat(a: string, b: string)
    ensures Comps(a + "/" + b) == Comps(a) + Comps(b)
  {
    SplitConcat(a, b);
    NonEmptyConcat(Split(a), Split(b));
  }

  lemma CompsOfJoin(lhs: string, rhs: string)
    ensures var joined := if lhs == "" then rhs
                          else if lhs[|lhs| - 1] == '/' then lhs + rhs
                          else lhs + "/" + rhs;
            Comps(joined) == Comps(lhs) + Comps(rhs)
  {
    assert Comps("") == [];
    if lhs != "" {
      if lhs[|lhs| - 1] == '/' {
        var stem := lhs[..|lhs| - 1];
        CompsOfConcat(stem, rhs);
        CompsOfConcat(stem, "");
        assert stem + "/" + "" == lhs;
        assert stem + "/" + rhs == lhs + rhs;
      } else {
        CompsOfConcat(lhs, rhs);
      }
    }
  }

  lemma CompsOfName(name: string)
    requires name != "" && '/' !in name
    ensures Comps(name) == [name]
  {
    SplitNoSlash(name);
    NonEmptyOfNames([name]);
  }

  lemma CompsOfSlash()
    ensures Comps("") == [] && Comps("/") == []
  {
    assert Split("/") == ["", ""] by {
      assert "/"[1..] == "";
    }
    assert NonEmpty(["", ""]) == NonEmpty([""]) == [];
  }

  predicate SafeNames(p: Path) {
    forall i | 0 <= i < |p| :: SafeName(p[i])
  }

  lemma CompsOfUnsplit(p: Path)
    requires SafeNames(p)
    ensures Comps(Unsplit(p)) == p
  {
    if p != [] {
      SplitUnsplit(p);
      NonEmptyOfNames(p);
    }
  }

  /** A path is accepted exactly when it spells out a non-empty list of safe names, with at
      most one slash behind it; and then those names are its components. */
  lemma ValidRelativeMeaning(path: string)
    ensures ValidRelative(path) <==>
            exists p: Path :: p != [] && SafeNames(p) && (path == Unsplit(p) || path == Unsplit(p) + "/")
    ensures ValidRelative(path) ==> Comps(path) != [] && SafeNames(Comps(path))
    ensures ValidRelative(path) ==> path == Unsplit(Comps(path)) || path == Unsplit(Comps(path)) + "/"
  {
    if ValidRelative(path) {
      ValidSpellsNames(path);
    }
    forall p: Path | p != [] && SafeNames(p) && (path == Unsplit(p) || path == Unsplit(p) + "/")
      ensures ValidRelative(path)
    {
      NamesAreValid(path, p);
    }
  }

  lemma ValidSpellsNames(path: string)
    requires ValidRelative(path)
    ensures Comps(path) != [] && SafeNames(Comps(path))
    ensures path == Unsplit(Comps(path)) || path == Unsplit(Comps(path)) + "/"
  {
    hide Split, Unsplit, NonEmpty;
    var parts := Split(path);
    UnsplitSplit(path);
    var p := if parts[|parts| - 1] == "" then parts[..|parts| - 1] else parts;
    NonEmptyOfNames(p);
    if parts[|parts| - 1] == "" {
      assert parts == p + [""];
      NonEmptyConcat(p, [""]);
      NothingOfEmpty();
      UnsplitAppend(p, "");
      assert p + [] == p;
      assert Unsplit(p) + "/" + "" == Unsplit(p) + "/";
    }
    assert Comps(path) == p;
  }

  lemma NothingOfEmpty()
    ensures NonEmpty([""]) == []
  {
  }

  lemma NamesAreValid(path: string, p: Path)
    requires p != [] && SafeNames(p) && (path == Unsplit(p) || path == Unsplit(p) + "/")
    ensures ValidRelative(path)
  {
    hide Split, Unsplit;
    SplitUnsplit(p);
    UnsplitEnd(p);
    if path == Unsplit(p) + "/" {
      SplitConcat(Unsplit(p), "");
      SplitNoSlash("");
      assert Unsplit(p) + "/" + "" == path;
      assert Split(path) == p + [""];
    }
  }

  /** Two accepted paths name the same node below a root only if they are the same string up
      to one trailing slash. */
  lemma SameNodeSamePath(root: string, p: string, q: string)
    requires ValidRelative(p) && ValidRelative(q)
    requires Comps(JoinPath(root, p)) == Comps(JoinPath(root, q))
    ensures p == q || p == q + "/" || q == p + "/"
  {
    ValidRelativeMeaning(p);
    ValidRelativeMeaning(q);
    assert Comps(JoinPath(root, p))[|Comps(root)|..] == Comps(p);
    assert Comps(JoinPath(root, q))[|Comps(root)|..] == Comps(q);
  }

  /** The path the backup writer builds for a child is accepted when the parent's is. */
  lemma ValidRelativeChild(parent: string, name: string)
    requires ValidRelative(parent) && SafeName(name)
    ensures ValidRelative(JoinPath(parent, name))
    ensures Comps(JoinPath(parent, name)) == Comps(parent) + [name]
  {
    ValidRelativeMeaning(parent);
    CompsOfName(name);
    var p := Comps(parent);
    UnsplitAppend(p, name);
    var joined := JoinPath(parent, name);
    if parent == Unsplit(p) {
      UnsplitEnd(p);
    }
    assert joined == Unsplit(p) + "/" + name;
    assert SafeNames(p + [name]);
    ValidRelativeMeaning(joined);
  }

  lemma {:induction false} UnsplitAppend(p: Path, name: string)
    requires p != []
    ensures Unsplit(p + [name]) == Unsplit(p) + "/" + name
  {
    assert (p + [name])[1..] == p[1..] + [name];
    if |p| > 1 {
      UnsplitAppend(p[1..], name);
    }
  }

  lemma {:induction false} UnsplitEnd(p: Path)
    requires p != [] && SafeNames(p)
    ensures var s := Unsplit(p); s != "" && s[|s| - 1] != '/'
  {
    if |p| > 1 {
      UnsplitEnd(p[1..]);
    } else {
      var last := p[0];
      assert last[|last| - 1] in last;
    }
  }
}
