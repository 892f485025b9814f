/** std::sort on names: byte-wise lexicographic order. */
module Sorting {
  import opened FsOps

  predicate Less(a: string, b: string) {
    if b == "" then false
    else if a == "" then true
    else a[0] < b[0] || (a[0] == b[0] && Less(a[1..], b[1..]))
  }

  /** The names differ first at i, and a has the smaller character there. */
  ghost predicate LessAt(a: string, b: string, i: nat) {
    i < |a| && i < |b| && a[..i] == b[..i] && a[i] < b[i]
  }

  /** Names are ordered by their first difference, and a proper beginning comes first. */
  lemma {:induction false} LessMeaning(a: string, b: string)
    ensures Less(a, b) <==> a < b || exists i: nat :: LessAt(a, b, i)
  {
    if a != "" && b != "" {
      var x, y := a[1..], b[1..];
      assert a == [a[0]] + x && b == [b[0]] + y;
      if a[0] == b[0] {
        LessMeaning(x, y);
        forall i: nat ensures LessAt(a, b, i + 1) <==> LessAt(x, y, i) {
          LessAtNext(a[0], x, y, i);
        }
        forall i: nat | LessAt(a, b, i) ensures i > 0 && LessAt(x, y, i - 1) {
          assert LessAt(a, b, i - 1 + 1);
        }
      } else {
        assert a[0] < b[0] ==> LessAt(a, b, 0);
        forall i: nat | 0 < i < |a| && i < |b| ensures !LessAt(a, b, i) {
          assert a[..i][0] == a[0] && b[..i][0] == b[0];
        }
      }
    }
  }

  lemma LessAtNext(c: char, x: string, y: string, i: nat)
    ensures LessAt([c] + x, [c] + y, i + 1) <==> LessAt(x, y, i)
  {
    var a, b := [c] + x, [c] + y;
    if i < |x| && i < |y| {
      assert a[..i + 1] == [c] + x[..i] && b[..i + 1] == [c] + y[..i];
      assert a[..i + 1][1..] == x[..i] && b[..i + 1][1..] == y[..i];
    }
  }

  lemma {:induction false} LessTotal(a: string, b: string)
    ensures a == b || Less(a, b) || Less(b, a)
  {
    if a != "" && b != "" && a[0] == b[0] {
      LessTotal(a[1..], b[1..]);
      assert a == [a[0]] + a[1..] && b == [b[0]] + b[1..];
    }
  }

  lemma {:induction false} LessTransitive(a: string, b: string, c: string)
    requires Less(a, b) && Less(b, c)
    ensures Less(a, c)
  {
    if a != "" && a[0] == b[0] && b[0] == c[0] {
      LessTransitive(a[1..], b[1..], c[1..]);
    }
  }

  lemma {:induction false} LessIrreflexive(a: string)
    ensures !Less(a, a)
  {
    if a != "" {
      LessIrreflexive(a[1..]);
    }
  }

  /** Strictly ascending, so without repetitions. */
  ghost predicate Ascending(names: seq<string>) {
    forall i, j | 0 <= i < j < |names| :: Less(names[i], names[j])
  }

  /** Inserts a new name into an ascending list. */
  function Inserted(names: seq<string>, name: string): (r: seq<string>)
    ensures forall n :: n in r <==> n in names || n == name
  {
    if names == [] then [name]
    else if Less(names[0], name) then [names[0]] + Inserted(names[1..], name)
    else [name] + names
  }

  lemma {:induction false} InsertedAscending(names: seq<string>, name: string)
    requires Ascending(names) && name !in names
    ensures Ascending(Inserted(names, name))
  {
    if names != [] {
      var first, rest := names[0], names[1..];
      LessTotal(name, first);
      if Less(first, name) {
        InsertedAscending(rest, name);
        var r := Inserted(rest, name);
        forall k | 0 <= k < |r| ensures Less(first, r[k]) {
          assert r[k] in r;
        }
      } else {
        forall k | 0 <= k < |names| ensures Less(name, names[k]) {
          if k > 0 {
            LessTransitive(name, first, names[k]);
          }
        }
      }
    }
  }

  method Sort(names: seq<string>) returns (r: seq<string>)
    requires forall i, j | 0 <= i < j < |names| :: names[i] != names[j]
    ensures Ascending(r) && Elems(r) == Elems(names)
  {
    r := [];
    for i := 0 to |names|
      invariant Ascending(r) && Elems(r) == Elems(names[..i])
    {
      assert forall n :: n in r <==> n in Elems(r);
      InsertedAscending(r, names[i]);
      r := Inserted(r, names[i]);
      assert names[..i + 1] == names[..i] + [names[i]];
    }
    assert names[..|names|] == names;
  }

  // ---- There is exactly one ascending list of a set of names ----

  lemma {:induction false} AscendingExists(s: set<string>) returns (names: seq<string>)
    ensures Ascending(names) && Elems(names) == s
  {
    if s == {} {
      names := [];
    } else {
      var x :| x in s;
      var rest := AscendingExists(s - {x});
      assert forall n :: n in rest <==> n in Elems(rest);
      InsertedAscending(rest, x);
      names := Inserted(rest, x);
    }
  }

  lemma {:induction false} AscendingUnique(a: seq<string>, b: seq<string>)
    requires Ascending(a) && Ascending(b) && Elems(a) == Elems(b)
    ensures a == b
  {
    assert |a| > 0 ==> a[0] in Elems(a);
    assert |b| > 0 ==> b[0] in Elems(b);
    if a != [] && b != [] {
      SameLeast(a, b);
      forall n ensures n in Elems(a[1..]) <==> n in Elems(b[1..]) {
        TailNames(a, n);
        TailNames(b, n);
      }
      AscendingUnique(a[1..], b[1..]);
      assert a == [a[0]] + a[1..] && b == [b[0]] + b[1..];
    }
  }

  lemma TailNames(a: seq<string>, n: string)
    requires a != [] && Ascending(a)
    ensures n in Elems(a[1..]) <==> n in Elems(a) && n != a[0]
  {
    LessIrreflexive(a[0]);
    assert a == [a[0]] + a[1..];
  }

  lemma SameLeast(a: seq<string>, b: seq<string>)
    requires a != [] && b != [] && Ascending(a) && Ascending(b) && Elems(a) == Elems(b)
    ensures a[0] == b[0]
  {
    assert a[0] in Elems(b) && b[0] in Elems(a);
    var i :| 0 <= i < |b| && b[i] == a[0];
    var j :| 0 <= j < |a| && a[j] == b[0];
    if i > 0 && j > 0 {
      LessTransitive(a[0], b[0], a[0]);
      LessIrreflexive(a[0]);
    }
  }

  /** The names of a set in ascending order. */
  ghost function Sorted(s: set<string>): (names: seq<string>)
    ensures Ascending(names) && Elems(names) == s
  {
    assert exists names :: Ascending(names) && Elems(names) == s by {
      var found := AscendingExists(s);
    }
    var names :| Ascending(names) && Elems(names) == s;
    names
  }
}
