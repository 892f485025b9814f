/** Which url a git configuration gives, told by the text of the file. */
module GitConfigTexts {
  import opened GitConfig

  /** The six characters that isspace accepts. */
  const SPACES := " \t\n\U{000B}\U{000C}\r"

  /** One line of text that begins and ends with other characters than spaces. */
  predicate Solid(s: string) {
    s != "" && '\n' !in s && s[0] !in SPACES && s[|s| - 1] !in SPACES
  }

  /** Complete lines only. */
  predicate WholeLines(text: string) {
    text == "" || text[|text| - 1] == '\n'
  }

  /** Lines that are indented by a tab and then begin with no space, no bracket and no u. */
  ghost predicate OtherSettings(lines: seq<string>) {
    forall i | 0 <= i < |lines| ::
      |lines[i]| > 1 && lines[i][0] == '\t' && lines[i][1] !in SPACES && lines[i][1] != '[' && lines[i][1] != 'u'
  }

  function RemoteHeader(name: string): string {
    "[remote \"" + name + "\"]"
  }

  function UrlLine(u: string): string {
    "\turl = " + u
  }

  // ---- Lines ----

  function Joined(lines: seq<string>): string {
    if lines == [] then "" else lines[0] + "\n" + Joined(lines[1..])
  }

  lemma {:induction false} FindIs(s: string, c: char, n: nat)
    requires n <= |s| && c !in s[..n] && (n < |s| ==> s[n] == c)
    ensures Find(s, c) == n
  {
    if n > 0 {
      assert s[0] == s[..n][0] && s[1..][..n - 1] == s[..n][1..];
      FindIs(s[1..], c, n - 1);
    }
  }

  /** The first line, and the text behind it. */
  lemma LineSplit(text: string) returns (line: string, rest: string)
    requires text != ""
    ensures Lines(text) == [line] + Lines(rest) && |rest| < |text| && '\n' !in line
    ensures text == line + "\n" + rest || (text == line && rest == "" && !WholeLines(text))
    ensures WholeLines(text) <==> WholeLines(rest) && text != line
  {
    var n := Find(text, '\n');
    line, rest := text[..n], AfterLine(text);
    if n < |text| {
      EndHere(text, n);
    } else {
      assert text[..n] == text;
    }
  }

  lemma EndHere(text: string, n: nat)
    requires n < |text| && text[n] == '\n'
    ensures text == text[..n] + "\n" + text[n + 1..]
    ensures WholeLines(text) <==> WholeLines(text[n + 1..])
  {
  }

  /** The lines, each with its end, are the text up to an end of the last line; no line holds one. */
  lemma {:induction false} LinesJoined(text: string)
    ensures Joined(Lines(text)) == if WholeLines(text) then text else text + "\n"
    ensures forall i | 0 <= i < |Lines(text)| :: '\n' !in Lines(text)[i]
    decreases |text|
  {
    if text != "" {
      var line, rest := LineSplit(text);
      LinesJoined(rest);
      JoinedNext(line, Lines(rest));
      NoLines();
      Regrouped(line + "\n", rest, "\n");
      assert line + "\n" + "" == line + "\n";
      hide *;
    }
  }

  lemma NoLines()
    ensures Joined(Lines("")) == ""
  {
  }

  lemma JoinedNext(line: string, lines: seq<string>)
    ensures Joined([line] + lines) == line + "\n" + Joined(lines)
  {
    assert ([line] + lines)[1..] == lines;
  }

  lemma LineFirst(line: string, rest: string)
    requires '\n' !in line
    ensures Lines(line + "\n" + rest) == [line] + Lines(rest)
  {
    var text := line + "\n" + rest;
    assert text[..|line|] == line;
    FindIs(text, '\n', |line|);
    assert text[|line| + 1..] == rest;
  }

  lemma Regrouped<T>(a: seq<T>, b: seq<T>, c: seq<T>)
    ensures (a + b) + c == a + (b + c)
  {
  }

  lemma {:induction false} LinesConcat(p: string, q: string)
    requires WholeLines(p)
    ensures Lines(p + q) == Lines(p) + Lines(q)
    decreases |p|
  {
    if p == "" {
      assert p + q == q;
    } else {
      var line, rest := LineSplit(p);
      LinesConcat(rest, q);
      LineFirst(line, rest + q);
      hide *;
      Regrouped(line + "\n", rest, q);
      Regrouped([line], Lines(rest), Lines(q));
    }
  }

  // ---- Single lines ----

  lemma SpacesAre(c: char)
    ensures IsSpace(c) <==> c in SPACES
  {
  }

  lemma TrimmedIs(s: string, r: string, a: nat, b: nat)
    requires CoreAt(s, r, a, b)
    ensures Trim(s) == r
  {
    TrimMeaning(s, r);
  }

  lemma HeaderTrimmed(name: string)
    ensures Trim(RemoteHeader(name)) == RemoteHeader(name) && Header(RemoteHeader(name))
    ensures UrlOf(RemoteHeader(name)).NoUrl?
    ensures RemoteHeader(name) == ORIGIN <==> name == "origin"
  {
    var h := RemoteHeader(name);
    assert h[0] == '[' && h[|h| - 1] == ']';
    TrimmedIs(h, h, 0, |h|);
    assert h[9..|h| - 2] == name;
    assert ORIGIN == RemoteHeader("origin");
  }

  lemma OneLine(name: string, u: string)
    requires '\n' !in name && '\n' !in u
    ensures '\n' !in RemoteHeader(name) && '\n' !in UrlLine(u)
  {
  }

  lemma UrlLineTrimmed(u: string)
    requires Solid(u)
    ensures UrlOf(UrlLine(u)) == Url(u) && !Header(UrlLine(u))
  {
    var s, l := UrlLine(u), "url = " + u;
    SpacesAre(u[|u| - 1]);
    SpacesAre(u[0]);
    assert s[1..|s|] == l && l[|l| - 1] == u[|u| - 1];
    TrimmedIs(s, l, 1, |s|);
    assert l[..4] == "url ";
    FindIs(l, '=', 4);
    TrimmedIs("url ", "url", 0, 3);
    var v := l[5..];
    assert v == " " + u && v[1..|v|] == u;
    TrimmedIs(v, u, 1, |v|);
  }

  lemma OtherSetting(s: string)
    requires |s| > 1 && s[0] == '\t' && s[1] !in SPACES && s[1] != '[' && s[1] != 'u'
    ensures UrlOf(s).NoUrl? && !Header(s)
  {
    SpacesAre(s[1]);
    TrimIsCore(s);
    var a, b :| CoreAt(s, Trim(s), a, b);
    assert a == 1 && b > 1;
    assert Trim(s)[0] == s[1];
  }

  // ---- Files ----

  /** A header, settings and one more line somewhere among the lines. */
  ghost predicate Section(lines: seq<string>, p: seq<string>, h: string, q: seq<string>, l: string) {
    && p <= lines && |p| + 1 + |q| < |lines|
    && lines[|p|] == h && lines[|p| + 1 + |q|] == l
    && forall k | |p| < k <= |p| + |q| :: lines[k] == q[k - |p| - 1]
  }

  lemma SectionLines(before: string, h: string, others: string, l: string, rest: string)
    requires WholeLines(before) && WholeLines(others) && '\n' !in h && '\n' !in l
    ensures var lines := Lines(before + (h + "\n" + (others + (l + "\n" + rest))));
            && Section(lines, Lines(before), h, Lines(others), l)
            && |lines| == |Lines(before)| + 1 + |Lines(others)| + 1 + |Lines(rest)|
  {
    var tail := l + "\n" + rest;
    hide Lines;
    LinesConcat(before, h + "\n" + (others + tail));
    LineFirst(h, others + tail);
    LinesConcat(others, tail);
    LineFirst(l, rest);
  }

  /** A file with a url for origin: what stands before the section sets none, the section may hold other
      settings in front, and what follows does not matter. */
  lemma UrlFound(before: string, name: string, others: string, u: string, rest: string)
    requires name == "origin" && WholeLines(before) && OriginUrl(Lines(before)).NoUrl?
    requires WholeLines(others) && OtherSettings(Lines(others)) && Solid(u)
    ensures OriginUrl(Lines(before + (RemoteHeader(name) + "\n" + (others + (UrlLine(u) + "\n" + rest))))) == Url(u)
  {
    assert '\n' !in u;
    hide *;
    var h, l := RemoteHeader(name), UrlLine(u);
    HeaderTrimmed(name);
    OneLine(name, u);
    SectionLines(before, h, others, l, rest);
    UrlAt(Lines(before), h, Lines(others), u, Lines(before + (h + "\n" + (others + (l + "\n" + rest)))));
  }

  lemma UrlAt(p: seq<string>, h: string, q: seq<string>, u: string, lines: seq<string>)
    requires OriginUrl(p).NoUrl? && OtherSettings(q) && Solid(u) && Section(lines, p, h, q, UrlLine(u))
    requires h == ORIGIN && Header(h) && Trim(h) == h && UrlOf(h).NoUrl?
    ensures OriginUrl(lines) == Url(u)
  {
    hide *;
    var i := |p| + 1 + |q|;
    UrlLineTrimmed(u);
    SettingsBetween(p, h, q, UrlLine(u), lines);
    NothingBefore(p, lines);
    UrlSet(lines, |p|, i, Url(u));
    FirstUrl(lines, i, Url(u));
  }

  lemma SettingsBetween(p: seq<string>, h: string, q: seq<string>, l: string, lines: seq<string>)
    requires OtherSettings(q) && Section(lines, p, h, q, l)
    ensures p <= lines && |p| + 1 + |q| < |lines| && lines[|p|] == h && lines[|p| + 1 + |q|] == l
    ensures forall k | |p| < k <= |p| + |q| :: UrlOf(lines[k]).NoUrl? && !Header(lines[k])
  {
    hide UrlOf, Header;
    forall k | |p| < k <= |p| + |q| ensures UrlOf(lines[k]).NoUrl? && !Header(lines[k]) {
      OtherSetting(q[k - |p| - 1]);
    }
  }

  lemma UrlSet(lines: seq<string>, n: nat, i: nat, r: OriginResult)
    requires n < i < |lines| && Header(lines[n]) && Trim(lines[n]) == ORIGIN && UrlOf(lines[n]).NoUrl?
    requires forall k | n < k < i :: UrlOf(lines[k]).NoUrl? && !Header(lines[k])
    requires UrlOf(lines[i]) == r && r.Url?
    ensures SetsOriginUrl(lines, i) && forall j | n <= j < i :: !SetsOriginUrl(lines, j)
  {
    hide UrlOf, Header, Trim;
    assert InOrigin(lines, i);
  }

  lemma NothingBefore(p: seq<string>, lines: seq<string>)
    requires p <= lines && OriginUrl(p).NoUrl?
    ensures forall j | 0 <= j < |p| :: !SetsOriginUrl(lines, j)
  {
    hide UrlOf, Header, Trim;
    assert IsOriginUrl(p, NoUrl);
    assert forall k | 0 <= k < |p| :: lines[k] == p[k];
    forall j | 0 <= j < |p| ensures !SetsOriginUrl(lines, j) {
      assert !SetsOriginUrl(p, j);
    }
  }

  /** The url of another remote is not taken. */
  lemma OtherRemote(before: string, name: string, others: string, u: string)
    requires WholeLines(before) && OriginUrl(Lines(before)).NoUrl?
    requires WholeLines(others) && OtherSettings(Lines(others))
    requires name != "origin" && '\n' !in name && Solid(u)
    ensures OriginUrl(Lines(before + (RemoteHeader(name) + "\n" + (others + (UrlLine(u) + "\n"))))).NoUrl?
  {
    assert Lines("") == [];
    assert '\n' !in u;
    hide *;
    var h, l := RemoteHeader(name), UrlLine(u);
    OneLine(name, u);
    SectionLines(before, h, others, l, "");
    assert l + "\n" + "" == l + "\n";
    NoUrlAt(Lines(before), name, Lines(others), u, Lines(before + (h + "\n" + (others + (l + "\n")))));
  }

  lemma NoUrlAt(p: seq<string>, name: string, q: seq<string>, u: string, lines: seq<string>)
    requires OriginUrl(p).NoUrl? && OtherSettings(q) && Solid(u) && name != "origin"
    requires Section(lines, p, RemoteHeader(name), q, UrlLine(u)) && |lines| == |p| + 2 + |q|
    ensures OriginUrl(lines).NoUrl?
  {
    var n := |p|;
    HeaderTrimmed(name);
    UrlLineTrimmed(u);
    SettingsBetween(p, RemoteHeader(name), q, UrlLine(u), lines);
    hide UrlOf, Header, Trim, RemoteHeader, UrlLine;
    NothingBefore(p, lines);
    forall j | 0 <= j < |lines| ensures !SetsOriginUrl(lines, j) {
      assert j == |lines| - 1 ==> !InOrigin(lines, j);
    }
    OriginUrlUnique(lines, NoUrl, OriginUrl(lines));
  }
}
