/** Finding out which extensions are git clones (src/git_manifest.cpp). */
module GitConfig {
  // ---- Trimming ----

  predicate IsSpace(c: char) {
    c in {' ', '\t', '\n', '\U{000B}', '\U{000C}', '\r'}
  }

  predicate AllSpace(s: string) {
    forall i | 0 <= i < |s| :: IsSpace(s[i])
  }

  function TrimStart(s: string): string {
    if s != "" && IsSpace(s[0]) then TrimStart(s[1..]) else s
  }

  function TrimEnd(s: string): string {
    if s != "" && IsSpace(s[|s| - 1]) then TrimEnd(s[..|s| - 1]) else s
  }

  function Trim(s: string): string {
    TrimEnd(TrimStart(s))
  }

  ghost predicate CoreAt(s: string, r: string, a: int, b: int) {
    && 0 <= a <= b <= |s| && r == s[a..b]
    && (forall i | 0 <= i < a || b <= i < |s| :: IsSpace(s[i]))
    && (a < b ==> !IsSpace(s[a]) && !IsSpace(s[b - 1]))
  }

  /** r is what is left of s without the space before and behind it. */
  ghost predicate IsCore(s: string, r: string) {
    exists a, b :: CoreAt(s, r, a, b)
  }

  lemma {:induction false} TrimStartMeaning(s: string) returns (a: nat)
    ensures a <= |s| && TrimStart(s) == s[a..] && AllSpace(s[..a]) && (a < |s| ==> !IsSpace(s[a]))
  {
    if s != "" && IsSpace(s[0]) {
      var a' := TrimStartMeaning(s[1..]);
      a := a' + 1;
      assert s[1..][a'..] == s[a..];
      assert s[..a] == [s[0]] + s[1..][..a'];
    } else {
      a := 0;
    }
  }

  lemma {:induction false} TrimEndMeaning(s: string) returns (b: nat)
    ensures b <= |s| && TrimEnd(s) == s[..b] && AllSpace(s[b..]) && (0 < b ==> !IsSpace(s[b - 1]))
  {
    if s != "" && IsSpace(s[|s| - 1]) {
      var front := s[..|s| - 1];
      b := TrimEndMeaning(front);
      assert front[..b] == s[..b];
      assert s[b..] == front[b..] + [s[|s| - 1]];
    } else {
      b := |s|;
    }
  }

  lemma TrimIsCore(s: string)
    ensures IsCore(s, Trim(s))
  {
    var a := TrimStartMeaning(s);
    var n := TrimEndMeaning(s[a..]);
    var b := a + n;
    assert s[a..][..n] == s[a..b];
    forall i | 0 <= i < a || b <= i < |s| ensures IsSpace(s[i]) {
      assert i < a ==> s[..a][i] == s[i];
      assert b <= i ==> s[a..][n..][i - b] == s[i];
    }
    assert CoreAt(s, Trim(s), a, b);
  }

  /** Trimming gives the core of a string and nothing else is a core. */
  lemma TrimMeaning(s: string, r: string)
    ensures IsCore(s, r) <==> r == Trim(s)
  {
    TrimIsCore(s);
    if IsCore(s, r) {
      SameCore(s, r, Trim(s));
    }
  }

  lemma SameCore(s: string, r: string, q: string)
    requires IsCore(s, r) && IsCore(s, q)
    ensures r == q
  {
    var a, b :| CoreAt(s, r, a, b);
    var c, d :| CoreAt(s, q, c, d);
    assert a < b ==> c <= a && b <= d;
    assert c < d ==> a <= c && d <= b;
  }

  method TrimCopy(input: string) returns (r: string)
    ensures r == Trim(input)
  {
    var start := 0;
    assert input[0..] == input;
    while start < |input| && IsSpace(input[start])
      invariant start <= |input| && TrimStart(input) == TrimStart(input[start..])
    {
      assert input[start..][1..] == input[start + 1..];
      start := start + 1;
    }
    assert TrimStart(input) == input[start..];
    var end := |input|;
    assert input[start..end] == input[start..];
    while end > start && IsSpace(input[end - 1])
      invariant start <= end <= |input| && Trim(input) == TrimEnd(input[start..end])
    {
      assert input[start..end][..end - start - 1] == input[start..end - 1];
      end := end - 1;
    }
    r := input[start..end];
  }

  // ---- Lines ----

  /** The index of the first c, or the length if there is none. */
  function Find(s: string, c: char): (n: nat)
    ensures n <= |s| && c !in s[..n] && (n < |s| ==> s[n] == c)
  {
    if s == "" || s[0] == c then 0 else 1 + Find(s[1..], c)
  }

  function AfterLine(text: string): string {
    var n := Find(text, '\n');
    if n < |text| then text[n + 1..] else ""
  }

  /** What repeated std::getline calls deliver. */
  function Lines(text: string): seq<string>
    decreases |text|
  {
    if text == "" then [] else [text[..Find(text, '\n')]] + Lines(AfterLine(text))
  }

  // ---- The meaning of a git configuration ----

  const ORIGIN := "[remote \"origin\"]"

  predicate StartsWith(s: string, prefix: string) {
    prefix <= s
  }

  predicate Header(line: string) {
    var l := Trim(line);
    l != "" && l[0] == '[' && l[|l| - 1] == ']'
  }

  /** The value of a trimmed line that sets url, unless it is empty. */
  function UrlIn(l: string): OriginResult {
    var n := Find(l, '=');
    if StartsWith(l, "url") && n < |l| && Trim(l[..n]) == "url" && Trim(l[n + 1..]) != ""
    then Url(Trim(l[n + 1..])) else NoUrl
  }

  function UrlOf(line: string): OriginResult {
    UrlIn(Trim(line))
  }

  datatype OriginResult = NoUrl | Url(url: string)

  /** The last header before line i opens the section of the remote called origin. */
  ghost predicate InOrigin(lines: seq<string>, i: int) {
    exists j | 0 <= j < i && j < |lines| ::
      Header(lines[j]) && Trim(lines[j]) == ORIGIN && forall k | j < k < i && k < |lines| :: !Header(lines[k])
  }

  ghost predicate SetsOriginUrl(lines: seq<string>, i: int) {
    0 <= i < |lines| && InOrigin(lines, i) && UrlOf(lines[i]).Url?
  }

  /** The url set by the first line that sets one for origin. */
  ghost predicate IsOriginUrl(lines: seq<string>, r: OriginResult) {
    match r
    case NoUrl => forall i | 0 <= i < |lines| :: !SetsOriginUrl(lines, i)
    case Url(u) => exists i | 0 <= i < |lines| ::
      SetsOriginUrl(lines, i) && UrlOf(lines[i]) == r && forall j | 0 <= j < i :: !SetsOriginUrl(lines, j)
  }

  lemma OriginUrlUnique(lines: seq<string>, r: OriginResult, q: OriginResult)
    requires IsOriginUrl(lines, r) && IsOriginUrl(lines, q)
    ensures r == q
  {
  }

  lemma OriginUrlExists(lines: seq<string>) returns (r: OriginResult)
    ensures IsOriginUrl(lines, r)
  {
    hide SetsOriginUrl, UrlOf;
    var i := 0;
    while i < |lines| && !SetsOriginUrl(lines, i)
      invariant i <= |lines| && forall j | 0 <= j < i :: !SetsOriginUrl(lines, j)
    {
      i := i + 1;
    }
    UrlIsSet(lines, i);
    r := if i < |lines| then UrlOf(lines[i]) else NoUrl;
  }

  lemma UrlIsSet(lines: seq<string>, i: nat)
    ensures SetsOriginUrl(lines, i) ==> UrlOf(lines[i]).Url?
  {
  }

  ghost function OriginUrl(lines: seq<string>): (r: OriginResult)
    ensures IsOriginUrl(lines, r)
  {
    assert exists r :: IsOriginUrl(lines, r) by {
      var found := OriginUrlExists(lines);
    }
    var r :| IsOriginUrl(lines, r);
    r
  }

  lemma NextSection(lines: seq<string>, i: nat)
    requires i < |lines|
    ensures Header(lines[i]) ==> (InOrigin(lines, i + 1) <==> Trim(lines[i]) == ORIGIN)
    ensures !Header(lines[i]) ==> (InOrigin(lines, i + 1) <==> InOrigin(lines, i))
    ensures Trim(lines[i]) == "" || Trim(lines[i])[0] in {'#', ';', '['} ==> !SetsOriginUrl(lines, i)
    ensures SetsOriginUrl(lines, i) <==> InOrigin(lines, i) && UrlIn(Trim(lines[i])).Url?
  {
  }

  lemma FirstUrl(lines: seq<string>, i: nat, r: OriginResult)
    requires SetsOriginUrl(lines, i) && UrlOf(lines[i]) == r && forall j | 0 <= j < i :: !SetsOriginUrl(lines, j)
    ensures r == OriginUrl(lines)
  {
    OriginUrlUnique(lines, r, OriginUrl(lines));
  }

  method ReadUrl(trimmed: string) returns (r: OriginResult)
    ensures r == UrlIn(trimmed)
  {
    if !StartsWith(trimmed, "url") {
      return NoUrl;
    }
    var equalSign := Find(trimmed, '=');
    if equalSign == |trimmed| {
      return NoUrl;
    }
    var key := TrimCopy(trimmed[..equalSign]);
    if key != "url" {
      return NoUrl;
    }
    var candidate := TrimCopy(trimmed[equalSign + 1..]);
    r := if candidate != "" then Url(candidate) else NoUrl;
  }

  lemma LineRead(lines: seq<string>, i: nat, rest: string)
    requires i <= |lines| && lines[i..] == Lines(rest) && rest != ""
    ensures i < |lines| && lines[i] == rest[..Find(rest, '\n')] && lines[i + 1..] == Lines(AfterLine(rest))
  {
    assert lines[i] == lines[i..][0];
    assert lines[i + 1..] == lines[i..][1..];
  }

  /** The loop of parse_origin_url_from_git_config over the text of the file. */
  method ParseOriginUrl(text: string) returns (r: OriginResult)
    ensures r == OriginUrl(Lines(text))
  {
    ghost var lines := Lines(text);
    var rest, inOrigin := text, false;
    ghost var i: nat := 0;
    while rest != ""
      invariant i <= |lines| && lines[i..] == Lines(rest) && inOrigin == InOrigin(lines, i)
      invariant forall j | 0 <= j < i :: !SetsOriginUrl(lines, j)
      decreases |rest|
    {
      var line := rest[..Find(rest, '\n')];
      LineRead(lines, i, rest);
      NextSection(lines, i);
      rest := AfterLine(rest);
      i := i + 1;
      var trimmed := TrimCopy(line);
      if trimmed == "" || StartsWith(trimmed, "#") || StartsWith(trimmed, ";") {
        continue;
      }
      if StartsWith(trimmed, "[") && trimmed[|trimmed| - 1] == ']' {
        inOrigin := trimmed == ORIGIN;
        continue;
      }
      if !inOrigin {
        continue;
      }
      r := ReadUrl(trimmed);
      if r.Url? {
        FirstUrl(lines, i - 1, r);
        return;
      }
    }
    OriginUrlUnique(lines, NoUrl, OriginUrl(lines));
    r := NoUrl;
  }
}

module GitManifest {
  import opened Bytes
  import opened Paths
  import opened FileTree
  import opened PathWalk
  import opened FileSystem
  import opened FsOps
  import opened Extraction
  import opened Sorting
  import opened GitConfig

  datatype GitExtension = GitExtension(name: string, url: string)

  function Text(bytes: seq<byte>): string {
    seq(|bytes|, i requires 0 <= i < |bytes| => bytes[i] as int as char)
  }

  // ---- What counts as a git extension: links are followed on the way to it ----

  function FileText(t: Tree, path: string): Option<string> {
    var s := Where(t, path, true);
    if s.Spot? && s.loc in t && t[s.loc].FileE? then Some(Text(t[s.loc].bytes)) else None
  }

  ghost function ConfigUrl(t: Tree, path: string): OriginResult {
    match FileText(t, path)
    case Some(text) => OriginUrl(Lines(text))
    case None => NoUrl
  }

  function ConfigPath(ext: string, name: string): string {
    JoinPath(JoinPath(JoinPath(ext, name), ".git"), "config")
  }

  predicate IsDirectory(t: Tree, path: string) {
    var s := StatOf(t, path, true);
    s.Stat? && s.entry.DirE?
  }

  ghost function GitUrl(t: Tree, ext: string, name: string): OriginResult {
    if IsDirectory(t, JoinPath(ext, name)) then ConfigUrl(t, ConfigPath(ext, name)) else NoUrl
  }

  ghost function GitNames(t: Tree, ext: string, names: set<string>): set<string> {
    set n | n in names && GitUrl(t, ext, n).Url?
  }

  function NamesOf(infos: seq<GitExtension>): (names: seq<string>)
    ensures |names| == |infos| && forall i | 0 <= i < |infos| :: names[i] == infos[i].name
  {
    seq(|infos|, i requires 0 <= i < |infos| => infos[i].name)
  }

  /** Every record carries the url of its own extension. */
  ghost predicate Truthful(t: Tree, ext: string, infos: seq<GitExtension>) {
    forall i | 0 <= i < |infos| :: GitUrl(t, ext, infos[i].name) == Url(infos[i].url)
  }

  lemma FixedNames(git: string, config: string)
    requires git == ".git" && config == "config"
    ensures SafeName(git) && SafeName(config) && '/' !in git && '/' !in config
  {
  }

  lemma CloneComps(path: string, clone: string, git: string, config: string)
    requires SafeName(git) && SafeName(config) && path == JoinPath(JoinPath(clone, git), config)
    ensures Comps(path) == Comps(clone) + [git, config]
  {
    CompsOfName(git);
    CompsOfName(config);
    hide Comps;
    assert Comps(clone) + [git] + [config] == Comps(clone) + [git, config];
  }

  /** For a directory, or a link that leads to one, with a directory .git in it, it is the text of the file
      config in there that counts. */
  lemma CloneUrl(t: Tree, ext: string, name: string, c: Path, git: string, config: string, bytes: seq<byte>)
    requires WellFormed(t) && Where(t, JoinPath(ext, name), true) == Spot(c) && IsDir(t, c)
    requires git == ".git" && config == "config" && IsDir(t, c + [git])
    requires At(t, c + [git, config]) == Some(FileE(bytes))
    ensures GitUrl(t, ext, name) == OriginUrl(Lines(Text(bytes)))
  {
    FixedNames(git, config);
    ConfigOfClone(t, ext, name, c, git, config);
    hide Walk, Comps, OriginUrl, Lines, ConfigPath, JoinPath, SafeName, WellFormed;
  }

  lemma CloneWay(c: Path, git: string, config: string)
    requires SafeName(git) && SafeName(config)
    ensures NoDots([git, config]) && Parent(c + [git, config]) == c + [git]
  {
  }

  lemma ConfigOfClone(t: Tree, ext: string, name: string, c: Path, git: string, config: string)
    requires WellFormed(t) && Where(t, JoinPath(ext, name), true) == Spot(c) && IsDir(t, c)
    requires SafeName(git) && SafeName(config)
    requires ConfigPath(ext, name) == JoinPath(JoinPath(JoinPath(ext, name), git), config)
    requires IsDir(t, c + [git]) && !IsLink(t, c + [git, config])
    ensures Where(t, ConfigPath(ext, name), true) == Spot(c + [git, config])
  {
    CloneComps(ConfigPath(ext, name), JoinPath(ext, name), git, config);
    CloneWay(c, git, config);
    hide Walk, Comps, ConfigPath, JoinPath, SafeName, NoDots, WellFormed;
    WhereBelow(t, JoinPath(ext, name), c, ConfigPath(ext, name), [git, config], true);
  }

  // ---- The operations ----

  /** The whole content of a file, through a stream. */
  method ReadText(fs: FileSystem, path: string) returns (ok: bool, text: string)
    ensures ok ==> FileText(fs.tree, path) == Some(text)
    ensures fs.reliable && FileText(fs.tree, path).Some? ==> ok
  {
    var fd;
    text := "";
    ok, fd := fs.OpenRead(path);
    if !ok || !fs.tree[fd].FileE? {
      return false, text;
    }
    var content := [];
    var more := true;
    while more
      invariant content <= fs.tree[fd].bytes && (!more ==> content == fs.tree[fd].bytes)
      decreases |fs.tree[fd].bytes| - |content|, more
    {
      var chunk;
      ok, chunk := fs.Read(fd, |content|, STREAM_BUFFER_SIZE);
      if !ok {
        return;
      }
      more := chunk != [];
      content := content + chunk;
    }
    text := Text(content);
    ok := true;
  }

  /** Whether one child of the extensions directory is a git extension. */
  method Inspect(fs: FileSystem, ext: string, name: string) returns (r: OriginResult)
    ensures r.Url? ==> r == GitUrl(fs.tree, ext, name)
    ensures fs.reliable ==> r == GitUrl(fs.tree, ext, name)
  {
    var status := fs.Stat(JoinPath(ext, name));
    if !status.Stat? || !status.entry.DirE? {
      return NoUrl;
    }
    var ok, text := ReadText(fs, ConfigPath(ext, name));
    r := NoUrl;
    if ok {
      r := ParseOriginUrl(text);
    }
  }

  /** std::sort of records with distinct names, by name. */
  method SortByName(infos: seq<GitExtension>) returns (sorted: seq<GitExtension>)
    requires forall i, j | 0 <= i < j < |infos| :: infos[i].name != infos[j].name
    ensures Ascending(NamesOf(sorted)) && Elems(NamesOf(sorted)) == Elems(NamesOf(infos))
    ensures forall x :: x in sorted <==> x in infos
  {
    var names := Sort(NamesOf(infos));
    sorted := [];
    for k := 0 to |names|
      invariant |sorted| == k && forall i | 0 <= i < k :: sorted[i].name == names[i] && sorted[i] in infos
    {
      assert names[k] in Elems(names);
      var i :| 0 <= i < |infos| && infos[i].name == names[k];
      sorted := sorted + [infos[i]];
    }
    assert NamesOf(sorted) == names;
    forall x | x in infos ensures x in sorted {
      var i :| 0 <= i < |infos| && infos[i] == x;
      assert NamesOf(infos)[i] in Elems(names);
      var k :| 0 <= k < |names| && names[k] == x.name;
      assert sorted[k] in infos;
    }
  }

  /** What is known after some of the names. */
  ghost predicate Collected(t: Tree, reliable: bool, ext: string, listed: set<string>, infos: seq<GitExtension>,
                            names: set<string>)
  {
    && Elems(NamesOf(infos)) == names && Truthful(t, ext, infos)
    && names <= GitNames(t, ext, listed)
    && (reliable ==> names == GitNames(t, ext, listed))
  }

  method CollectOver(fs: FileSystem, ext: string, listed: seq<string>)
    returns (infos: seq<GitExtension>, names: set<string>)
    requires forall i, j | 0 <= i < j < |listed| :: listed[i] != listed[j]
    ensures Collected(fs.tree, fs.reliable, ext, Elems(listed), infos, names)
    ensures forall j, k | 0 <= j < k < |infos| :: infos[j].name != infos[k].name
  {
    infos, names := [], {};
    for i := 0 to |listed|
      invariant Collected(fs.tree, fs.reliable, ext, Elems(listed[..i]), infos, names)
      invariant forall j, k | 0 <= j < k < |infos| :: infos[j].name != infos[k].name
    {
      OneMore(listed, i);
      var found := Inspect(fs, ext, listed[i]);
      CollectedMore(fs.tree, fs.reliable, ext, Elems(listed[..i]), infos, names, listed[i], found);
      if found.NoUrl? {
        continue;
      }
      infos := infos + [GitExtension(listed[i], found.url)];
      names := names + {listed[i]};
    }
    assert listed[..|listed|] == listed;
  }

  /** collect_git_extension_info: the order in which the names are read does not matter. */
  method CollectGitExtensionInfo(fs: FileSystem, ext: string)
    returns (ok: bool, infos: seq<GitExtension>, names: set<string>)
    ensures ok ==> var s := Where(fs.tree, ext, true);
              && s.Spot? && IsDir(fs.tree, s.loc)
              && Collected(fs.tree, fs.reliable, ext, ChildNames(fs.tree, s.loc), infos, names)
              && Ascending(NamesOf(infos))
    ensures fs.reliable && Where(fs.tree, ext, true).Spot? && IsDir(fs.tree, Where(fs.tree, ext, true).loc) ==> ok
  {
    infos, names := [], {};
    var listed;
    ok, listed := fs.ListDirectory(ext);
    if ok {
      var collected;
      collected, names := CollectOver(fs, ext, listed);
      assert Elems(listed) == ChildNames(fs.tree, Where(fs.tree, ext, true).loc);
      infos := SortByName(collected);
      SortedTruthful(fs.tree, ext, collected, infos);
    }
  }

  lemma SortedTruthful(t: Tree, ext: string, infos: seq<GitExtension>, sorted: seq<GitExtension>)
    requires Truthful(t, ext, infos) && forall x :: x in sorted <==> x in infos
    ensures Truthful(t, ext, sorted)
  {
    forall i | 0 <= i < |sorted| ensures GitUrl(t, ext, sorted[i].name) == Url(sorted[i].url) {
      assert sorted[i] in infos;
    }
  }

  lemma OneMore(listed: seq<string>, i: nat)
    requires i < |listed| && forall j, k | 0 <= j < k < |listed| :: listed[j] != listed[k]
    ensures Elems(listed[..i + 1]) == Elems(listed[..i]) + {listed[i]} && listed[i] !in Elems(listed[..i])
  {
    assert listed[..i + 1] == listed[..i] + [listed[i]];
  }

  lemma CollectedMore(t: Tree, reliable: bool, ext: string, listed: set<string>, infos: seq<GitExtension>,
                      names: set<string>, name: string, found: OriginResult)
    requires Collected(t, reliable, ext, listed, infos, names) && name !in listed
    requires found.Url? || reliable ==> found == GitUrl(t, ext, name)
    ensures found.NoUrl? ==> Collected(t, reliable, ext, listed + {name}, infos, names)
    ensures found.Url? ==>
            Collected(t, reliable, ext, listed + {name}, infos + [GitExtension(name, found.url)], names + {name})
    ensures forall i | 0 <= i < |infos| :: infos[i].name != name
  {
    GitNamesMore(t, ext, listed, name);
    InfoNames(infos);
    if found.Url? {
      AppendInfo(t, ext, infos, GitExtension(name, found.url));
    }
  }

  lemma GitNamesMore(t: Tree, ext: string, listed: set<string>, name: string)
    ensures GitNames(t, ext, listed + {name}) ==
            GitNames(t, ext, listed) + (if GitUrl(t, ext, name).Url? then {name} else {})
  {
  }

  lemma InfoNames(infos: seq<GitExtension>)
    ensures forall i | 0 <= i < |infos| :: infos[i].name in Elems(NamesOf(infos))
  {
    forall i | 0 <= i < |infos| ensures infos[i].name in Elems(NamesOf(infos)) {
      assert NamesOf(infos)[i] in Elems(NamesOf(infos));
    }
  }

  lemma AppendInfo(t: Tree, ext: string, infos: seq<GitExtension>, info: GitExtension)
    requires Truthful(t, ext, infos) && GitUrl(t, ext, info.name) == Url(info.url)
    ensures Elems(NamesOf(infos + [info])) == Elems(NamesOf(infos)) + {info.name}
    ensures Truthful(t, ext, infos + [info])
  {
    hide GitUrl, Elems;
    assert NamesOf(infos + [info]) == NamesOf(infos) + [info.name];
    ElemsAppend(NamesOf(infos), info.name);
  }

  lemma ElemsAppend(names: seq<string>, name: string)
    ensures Elems(names + [name]) == Elems(names) + {name}
  {
  }
}
