/**
 * `find_pyright_config`: the upward search from a start directory for the
 * checker's configuration. At every directory, from the start up to the
 * filesystem root, `pyrightconfig.json` wins; failing that, a
 * `pyproject.toml` whose text has a `[tool.pyright]` section header. The
 * filesystem is an explicit value: which paths are regular files, what a
 * file reads as, the working directory and `Path.resolve`.
 */
module Config {
  import opened Wrappers
  import opened Text
  import opened Paths

  const Header := "[tool.pyright]"
  const PyrightConfigName := "pyrightconfig.json"
  const PyprojectName := "pyproject.toml"

  /** The regular expression `(?m)^\s*\[tool\.pyright\]\s*$` matches `text` from `q` to
      `e` with the header at `p`: `q` is a line start, whitespace (newlines included, as
      `\s` allows) up to the header, whitespace after it, and `e` is the end of the text
      or sits in front of a newline. */
  predicate HeaderMatch(text: string, q: int, p: int, e: int)
  {
    0 <= q <= p && p + |Header| <= e <= |text| &&
    (q == 0 || text[q - 1] == '\n') &&
    SpaceBetween(text, q, p) &&
    text[p..p + |Header|] == Header &&
    SpaceBetween(text, p + |Header|, e) &&
    (e == |text| || text[e] == '\n')
  }

  /** `re.search(...)` of the header pattern finds a match somewhere in `text`. */
  predicate HasPyrightSection(text: string)
  {
    exists q, p, e | 0 <= q <= |text| && 0 <= p <= |text| && 0 <= e <= |text| :: HeaderMatch(text, q, p, e)
  }

  /** `text[q..e]` is one line of `text`: a maximal stretch without a newline. */
  predicate IsLine(text: string, q: int, e: int)
  {
    0 <= q <= e <= |text| && (q == 0 || text[q - 1] == '\n') && (e == |text| || text[e] == '\n') &&
    forall j :: q <= j < e ==> text[j] != '\n'
  }

  /** Start of the line holding position `p`. */
  function LineStart(text: string, p: nat): (r: nat)
    requires p <= |text|
    ensures r <= p && (r == 0 || text[r - 1] == '\n')
    ensures forall j :: r <= j < p ==> text[j] != '\n'
  {
    if p == 0 || text[p - 1] == '\n' then p else LineStart(text, p - 1)
  }

  /** End of the line holding position `x`. */
  function LineEnd(text: string, x: nat): (r: nat)
    requires x <= |text|
    ensures x <= r <= |text| && (r == |text| || text[r] == '\n')
    ensures forall j :: x <= j < r ==> text[j] != '\n'
    decreases |text| - x
  {
    if x == |text| || text[x] == '\n' then x else LineEnd(text, x + 1)
  }

  /** A match of the pattern lies inside one line, which strips to the header. */
  lemma MatchGivesLine(text: string, q: int, p: int, e: int)
    requires HeaderMatch(text, q, p, e)
    ensures IsLine(text, LineStart(text, p), LineEnd(text, p + |Header|))
    ensures Strip(text[LineStart(text, p)..LineEnd(text, p + |Header|)]) == Header
  {
    HeaderShape();
    PaddedLine(text, q, p, e, Header);
  }

  /** The header is one line of text with no whitespace at either end. */
  lemma HeaderShape()
    ensures |Header| > 0 && !IsSpace(Header[0]) && !IsSpace(Header[|Header| - 1])
    ensures forall j :: 0 <= j < |Header| ==> Header[j] != '\n'
  {
  }

  /** Whitespace from a line start, a newline-free `h` with non-whitespace ends at `p`,
      whitespace up to a line end: the line around `p` strips to `h`. */
  lemma PaddedLine(text: string, q: int, p: int, e: int, h: string)
    requires |h| > 0 && !IsSpace(h[0]) && !IsSpace(h[|h| - 1]) && forall j :: 0 <= j < |h| ==> h[j] != '\n'
    requires 0 <= q <= p && p + |h| <= e <= |text| && (q == 0 || text[q - 1] == '\n')
    requires (e == |text| || text[e] == '\n')
    requires SpaceBetween(text, q, p) && text[p..p + |h|] == h && SpaceBetween(text, p + |h|, e)
    ensures IsLine(text, LineStart(text, p), LineEnd(text, p + |h|))
    ensures Strip(text[LineStart(text, p)..LineEnd(text, p + |h|)]) == h
  {
    var a := LineStart(text, p);
    var b := LineEnd(text, p + |h|);
    NoNewlineAt(text, p, h);
    LineAround(text, q, p, p + |h|, e);
    PaddedSlice(text, q, a, p, |h|, b, e, h);
  }

  lemma NoNewlineAt(text: string, p: int, h: string)
    requires 0 <= p && p + |h| <= |text| && text[p..p + |h|] == h
    requires forall j :: 0 <= j < |h| ==> h[j] != '\n'
    ensures forall j :: p <= j < p + |h| ==> text[j] != '\n'
    ensures |h| > 0 ==> text[p] == h[0] && text[p + |h| - 1] == h[|h| - 1]
  {
    forall j | p <= j < p + |h| ensures text[j] != '\n' {
      assert text[j] == h[j - p];
    }
  }

  /** A newline-free stretch `text[p..x]` between a line start `q` and a line end `e` lies
      in one line, which starts no earlier than `q` and ends no later than `e`. */
  lemma LineAround(text: string, q: int, p: nat, x: nat, e: int)
    requires 0 <= q <= p <= x <= e <= |text| && (q == 0 || text[q - 1] == '\n') && (e == |text| || text[e] == '\n')
    requires forall j :: p <= j < x ==> text[j] != '\n'
    ensures q <= LineStart(text, p) && LineEnd(text, x) <= e
    ensures IsLine(text, LineStart(text, p), LineEnd(text, x))
  {
    LineStartAfter(text, q, p);
    LineEndBefore(text, x, e);
  }

  /** The start of the line holding `p` is at or after every line start up to `p`. */
  lemma {:induction false} LineStartAfter(text: string, q: int, p: nat)
    requires 0 <= q <= p <= |text| && (q == 0 || text[q - 1] == '\n')
    ensures q <= LineStart(text, p)
  {
    if p != q && p != 0 && text[p - 1] != '\n' {
      LineStartAfter(text, q, p - 1);
    }
  }

  /** The end of the line holding `x` is at or before every line end from `x` on. */
  lemma {:induction false} LineEndBefore(text: string, x: nat, e: int)
    requires x <= e <= |text| && (e == |text| || text[e] == '\n')
    ensures LineEnd(text, x) <= e
    decreases |text| - x
  {
    if x != e && x != |text| && text[x] != '\n' {
      LineEndBefore(text, x + 1, e);
    }
  }

  /** Stripping `text[a..b]`, which is whitespace, then `n` characters with no
      whitespace at either end, then whitespace, leaves those `n` characters. */
  lemma PaddedSlice(text: string, q: int, a: int, p: int, n: int, b: int, e: int, core: string)
    requires 0 <= q <= a <= p && 0 < n && p + n <= b <= e <= |text| && core == text[p..p + n]
    requires SpaceBetween(text, q, p) && SpaceBetween(text, p + n, e)
    requires !IsSpace(text[p]) && !IsSpace(text[p + n - 1])
    ensures Strip(text[a..b]) == core
  {
    var pre := text[a..p];
    var post := text[p + n..b];
    forall j | 0 <= j < |pre| ensures IsSpace(pre[j]) {
      assert pre[j] == text[a + j];
    }
    forall j | 0 <= j < |post| ensures IsSpace(post[j]) {
      assert post[j] == text[p + n + j];
    }
    assert core[0] == text[p] && core[n - 1] == text[p + n - 1];
    assert text[a..b] == pre + core + post;
    StripPadded(pre, core, post);
  }

  /** Where `r` sits in the slice `text[q..e]` with whitespace around it, it sits in
      `text` with the same whitespace around it. */
  lemma StrippedInSlice(text: string, q: int, e: int, i: int, r: string)
    requires 0 <= q <= e <= |text| && StrippedAt(text[q..e], i, r)
    ensures q + i + |r| <= e && text[q + i..q + i + |r|] == r
    ensures SpaceBetween(text, q, q + i) && SpaceBetween(text, q + i + |r|, e)
  {
    var line := text[q..e];
    forall j | q <= j < q + i ensures IsSpace(text[j]) {
      assert text[j] == line[j - q];
    }
    forall j | q + i + |r| <= j < e ensures IsSpace(text[j]) {
      assert text[j] == line[j - q];
    }
    forall k | 0 <= k < |r| ensures text[q + i..q + i + |r|][k] == r[k] {
      assert r[k] == line[i + k];
    }
  }

  /** A line that strips to the header is matched by the pattern. */
  lemma LineGivesMatch(text: string, q: int, e: int)
    requires IsLine(text, q, e) && Strip(text[q..e]) == Header
    ensures exists p :: q <= p <= |text| && HeaderMatch(text, q, p, e)
  {
    var i :| StrippedAt(text[q..e], i, Header);
    StrippedInSlice(text, q, e, i, Header);
    assert HeaderMatch(text, q, q + i, e);
  }

  /** The pattern finds the header exactly when some line of the text is the header with
      only whitespace around it. */
  lemma SectionIffHeaderLine(text: string)
    ensures HasPyrightSection(text) <==> exists q, e :: IsLine(text, q, e) && Strip(text[q..e]) == Header
  {
    if HasPyrightSection(text) {
      var q, p, e :| 0 <= q <= |text| && 0 <= p <= |text| && 0 <= e <= |text| && HeaderMatch(text, q, p, e);
      MatchGivesLine(text, q, p, e);
    }
    if exists q, e :: IsLine(text, q, e) && Strip(text[q..e]) == Header {
      var q, e :| IsLine(text, q, e) && Strip(text[q..e]) == Header;
      LineGivesMatch(text, q, e);
    }
  }

  /** The section header on a line of its own after other tables is found. */
  lemma SectionAfterOtherTables()
    ensures HasPyrightSection("[project]\nname = \"x\"\n\n" + Header + "\ntypeCheckingMode = \"standard\"")
  {
    var pre := "[project]\nname = \"x\"\n\n";
    var post := "\ntypeCheckingMode = \"standard\"";
    var text := pre + Header + post;
    assert |pre| == 22 && pre[21] == '\n' && post[0] == '\n';
    assert text[21] == pre[21] && text[36] == post[0];
    assert text[22..36] == Header;
    assert HeaderMatch(text, 22, 22, 36);
  }

  /** A header that does not start its line (here behind a comment sign) is not found. */
  lemma CommentedHeaderIgnored()
    ensures !HasPyrightSection("# [tool.pyright]")
  {
    var text := "# [tool.pyright]";
    forall q, p, e | 0 <= q <= |text| && 0 <= p <= |text| && 0 <= e <= |text|
      ensures !HeaderMatch(text, q, p, e)
    {
      if 0 < q {
        assert text[q - 1] != '\n';
      } else if 0 < p {
        assert !IsSpace(text[0]);
      } else if p + |Header| <= |text| {
        assert text[p..p + |Header|][0] != Header[0];
      }
    }
  }

  datatype ConfigKind = PyrightConfigJson | PyprojectToml | Unknown

  /** `FindConfigResultModel`. */
  datatype FindConfigResult = FindConfigResult(found: bool, configPath: Option<string>, kind: Option<ConfigKind>,
                                               resolveDir: string, searchedFrom: string)

  /** The filesystem as the search sees it: whether a path is a regular file, the text a
      file reads as (`None` where reading raises `OSError`; undecodable bytes are already
      replaced), the resolved working directory, and `Path(s).resolve()`. */
  datatype FileSystem = FileSystem(isFile: Path -> bool, read: Path -> Option<string>, cwd: Path,
                                   resolve: string -> Path)

  /** `_has_pyright_section_in_pyproject`: a file that cannot be read has no section. */
  predicate PyprojectHasSection(fs: FileSystem, path: Path)
  {
    match fs.read(path)
    case None => false
    case Some(text) => HasPyrightSection(text)
  }

  predicate HasPyrightJson(fs: FileSystem, dir: Path)
  {
    fs.isFile(dir + [PyrightConfigName])
  }

  predicate HasPyprojectSection(fs: FileSystem, dir: Path)
  {
    fs.isFile(dir + [PyprojectName]) && PyprojectHasSection(fs, dir + [PyprojectName])
  }

  /** `dir` holds a configuration the search accepts. */
  predicate HoldsConfig(fs: FileSystem, dir: Path)
  {
    HasPyrightJson(fs, dir) || HasPyprojectSection(fs, dir)
  }

  /** The result for a search from `start` that stops at `dir`. */
  function FoundAt(fs: FileSystem, dir: Path, start: Path): FindConfigResult
  {
    if HasPyrightJson(fs, dir) then
      FindConfigResult(true, Some(ToStr(dir + [PyrightConfigName])), Some(PyrightConfigJson), ToStr(dir), ToStr(start))
    else
      FindConfigResult(true, Some(ToStr(dir + [PyprojectName])), Some(PyprojectToml), ToStr(dir), ToStr(start))
  }

  /** The result for a search from `start` that reaches the root without success. */
  function NotFound(start: Path): FindConfigResult
  {
    FindConfigResult(false, None, None, ToStr(start), ToStr(start))
  }

  /** The search from the ancestor `start[..k]` of `start` upward, one directory at a
      time towards the root. */
  function SearchUp(fs: FileSystem, start: Path, k: nat): FindConfigResult
    requires k <= |start|
    decreases k
  {
    var dir := start[..k];
    if HoldsConfig(fs, dir) then FoundAt(fs, dir, start)
    else if k == 0 then NotFound(start)
    else SearchUp(fs, start, k - 1)
  }

  /** The search from `start[..k]` stops at the first directory holding a configuration,
      which is no deeper than `start[..k]` and deeper than every other one that holds one;
      when there is none it reports not found. */
  lemma {:induction false} SearchUpNearest(fs: FileSystem, start: Path, k: nat)
    requires k <= |start|
    ensures var r := SearchUp(fs, start, k);
            r.found ==> exists j :: 0 <= j <= k && HoldsConfig(fs, start[..j]) && r == FoundAt(fs, start[..j], start) &&
                                    forall i :: j < i <= k ==> !HoldsConfig(fs, start[..i])
    ensures var r := SearchUp(fs, start, k);
            !r.found ==> r == NotFound(start) && forall i :: 0 <= i <= k ==> !HoldsConfig(fs, start[..i])
  {
    var r := SearchUp(fs, start, k);
    if HoldsConfig(fs, start[..k]) {
      assert r == FoundAt(fs, start[..k], start);
      assert r.found;
    } else if k == 0 {
      assert r == NotFound(start);
    } else {
      assert r == SearchUp(fs, start, k - 1);
      SearchUpNearest(fs, start, k - 1);
    }
  }

  /** The start of the search: the working directory when no start is given, otherwise
      the given directory, resolved. */
  function StartDir(fs: FileSystem, startDir: Option<string>): Path
  {
    match startDir
    case None => fs.cwd
    case Some(s) => fs.resolve(s)
  }

  /** What `find_pyright_config(startDir)` returns: the search from the start itself. */
  function FindConfig(fs: FileSystem, startDir: Option<string>): FindConfigResult
  {
    var start := StartDir(fs, startDir);
    SearchUp(fs, start, |start|)
  }

  /** `find_pyright_config`: walks from the start directory to its parent until a
      configuration turns up or the root, its own parent, is reached. */
  method FindPyrightConfig(fs: FileSystem, startDir: Option<string>) returns (r: FindConfigResult)
    ensures r == FindConfig(fs, startDir)
  {
    var start: Path;
    if startDir.None? {
      start := fs.cwd;
    } else {
      start := fs.resolve(startDir.value);
    }
    var cur := start;
    ghost var k := |start|;
    while true
      invariant 0 <= k <= |start| && cur == start[..k]
      invariant SearchUp(fs, start, k) == FindConfig(fs, startDir)
      decreases |cur|
    {
      var pyrightJson := cur + [PyrightConfigName];
      if fs.isFile(pyrightJson) {
        return FindConfigResult(true, Some(ToStr(pyrightJson)), Some(PyrightConfigJson), ToStr(cur), ToStr(start));
      }
      var pyproject := cur + [PyprojectName];
      if fs.isFile(pyproject) && PyprojectHasSection(fs, pyproject) {
        return FindConfigResult(true, Some(ToStr(pyproject)), Some(PyprojectToml), ToStr(cur), ToStr(start));
      }
      var parent := Parent(cur);
      if parent == cur {
        break;
      }
      cur := parent;
      k := k - 1;
    }
    return FindConfigResult(false, None, None, ToStr(start), ToStr(start));
  }

  /** Something is found exactly when the start or one of its ancestors holds a
      configuration, and then it is the nearest such directory: `resolve_dir` names it
      and `config_path` is the file in it. */
  lemma FoundIffSomeAncestorHolds(fs: FileSystem, startDir: Option<string>)
    ensures var start := StartDir(fs, startDir);
            var r := FindConfig(fs, startDir);
            (r.found <==> exists j :: 0 <= j <= |start| && HoldsConfig(fs, start[..j])) &&
            (r.found ==> exists j :: 0 <= j <= |start| && HoldsConfig(fs, start[..j]) &&
                                     r.resolveDir == ToStr(start[..j]) &&
                                     (r.configPath == Some(ToStr(start[..j] + [PyrightConfigName])) ||
                                      r.configPath == Some(ToStr(start[..j] + [PyprojectName]))) &&
                                     forall i :: j < i <= |start| ==> !HoldsConfig(fs, start[..i]))
  {
    var start := StartDir(fs, startDir);
    SearchUpNearest(fs, start, |start|);
  }

  /** In the directory where the search stops, `pyrightconfig.json` is chosen whenever it
      is there, whatever `pyproject.toml` says; the other file is chosen only when it is
      absent. */
  lemma PrefersPyrightJson(fs: FileSystem, startDir: Option<string>)
    ensures var start := StartDir(fs, startDir);
            var r := FindConfig(fs, startDir);
            r.found ==> exists j :: 0 <= j <= |start| && r.resolveDir == ToStr(start[..j]) &&
                                    (r.kind == Some(PyrightConfigJson) <==> HasPyrightJson(fs, start[..j])) &&
                                    (r.kind == Some(PyprojectToml) ==> HasPyprojectSection(fs, start[..j])) &&
                                    (r.kind == Some(PyrightConfigJson) ==>
                                       r.configPath == Some(ToStr(start[..j] + [PyrightConfigName]))) &&
                                    (r.kind == Some(PyprojectToml) ==>
                                       r.configPath == Some(ToStr(start[..j] + [PyprojectName])))
  {
    var start := StartDir(fs, startDir);
    SearchUpNearest(fs, start, |start|);
  }

  /** The shape of every result: `searched_from` is the resolved start; `config_path` and
      `kind` are set exactly when something is found, and `kind` is never `"unknown"`;
      when nothing is found `resolve_dir` is the start. */
  lemma ResultShape(fs: FileSystem, startDir: Option<string>)
    ensures var start := StartDir(fs, startDir);
            var r := FindConfig(fs, startDir);
            r.searchedFrom == ToStr(start) &&
            (r.configPath.Some? <==> r.found) && (r.kind.Some? <==> r.found) && r.kind != Some(Unknown) &&
            (!r.found ==> r.resolveDir == ToStr(start))
  {
    var start := StartDir(fs, startDir);
    SearchUpNearest(fs, start, |start|);
  }

  /** With both files in the start directory, `pyrightconfig.json` wins and the start is
      the directory reported. */
  lemma BothFilesInStart(fs: FileSystem, startDir: Option<string>)
    requires HasPyrightJson(fs, StartDir(fs, startDir)) && HasPyprojectSection(fs, StartDir(fs, startDir))
    ensures var start := StartDir(fs, startDir);
            FindConfig(fs, startDir) ==
              FindConfigResult(true, Some(ToStr(start + [PyrightConfigName])), Some(PyrightConfigJson),
                               ToStr(start), ToStr(start))
  {
    var start := StartDir(fs, startDir);
    assert start[..|start|] == start;
  }

  /** An unreadable `pyproject.toml` never makes its directory qualify. */
  lemma UnreadablePyprojectIgnored(fs: FileSystem, dir: Path)
    requires fs.read(dir + [PyprojectName]).None?
    ensures HoldsConfig(fs, dir) <==> HasPyrightJson(fs, dir)
  {
  }
}
