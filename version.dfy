/**
 * How the checker is invoked and what its `--version` output says:
 * `_build_pyright_argv`, `get_pyright_version`, `_parse_version_string`
 * (the search `\b(\d+\.\d+\.\d+)\b`) and `_supports_outputjson`
 * (the match `^\d+\.\d+\.\d+$`). `\d` and `\w` are taken as ASCII.
 * The executable lookup and the two probing subprocesses are inputs.
 */
module Version {
  import opened Wrappers
  import opened Text

  predicate DigitsBetween(s: string, a: int, b: int)
    requires 0 <= a <= b <= |s|
  {
    forall k :: a <= k < b ==> IsDigit(s[k])
  }

  /** Reference reading of `\d+\.\d+\.\d+` matching exactly `s[p..e]`. */
  ghost predicate TripleShape(s: string, p: int, e: int)
    requires 0 <= p <= e <= |s|
  {
    exists i, j :: p < i && i + 1 < j && j + 1 < e && s[i] == '.' && s[j] == '.' &&
                   DigitsBetween(s, p, i) && DigitsBetween(s, i + 1, j) && DigitsBetween(s, j + 1, e)
  }

  /** Reference reading of "`\b(\d+\.\d+\.\d+)\b` matches `s[p..e]`". The digit runs of
      such a match are maximal, so `e` is determined by `p`. */
  ghost predicate RegexMatch(s: string, p: int, e: int)
  {
    0 <= p <= e <= |s| && TripleShape(s, p, e) &&
    (p == 0 || !IsWordChar(s[p - 1])) && (e == |s| || !IsWordChar(s[e]))
  }

  /** End of the maximal run of digits starting at `p`. */
  function RunEnd(s: string, p: nat): (r: nat)
    requires p <= |s|
    ensures p <= r <= |s| && DigitsBetween(s, p, r) && (r == |s| || !IsDigit(s[r]))
    decreases |s| - p
  {
    if p < |s| && IsDigit(s[p]) then RunEnd(s, p + 1) else p
  }

  lemma {:induction false} RunEndUnique(s: string, p: nat, q: nat)
    requires p <= q <= |s| && DigitsBetween(s, p, q) && (q == |s| || !IsDigit(s[q]))
    ensures RunEnd(s, p) == q
    decreases q - p
  {
    if p < q { RunEndUnique(s, p + 1, q); }
  }

  /** Greedy matcher of `\d+\.\d+\.\d+` at `p`: the end of the match, if any. */
  function TripleAt(s: string, p: nat): (r: Option<nat>)
    requires p <= |s|
    ensures r.Some? ==> p <= r.value <= |s|
  {
    var a := RunEnd(s, p);
    if a == p || a == |s| || s[a] != '.' then None
    else
      var b := RunEnd(s, a + 1);
      if b == a + 1 || b == |s| || s[b] != '.' then None
      else
        var c := RunEnd(s, b + 1);
        if c == b + 1 then None else Some(c)
  }

  /** The greedy matcher finds exactly the triples whose last run is maximal. */
  lemma TripleAtIff(s: string, p: nat, e: nat)
    requires p <= e <= |s|
    ensures TripleAt(s, p) == Some(e) <==> TripleShape(s, p, e) && (e == |s| || !IsDigit(s[e]))
  {
    if TripleAt(s, p) == Some(e) {
      TripleAtSound(s, p, e);
    }
    if TripleShape(s, p, e) && (e == |s| || !IsDigit(s[e])) {
      TripleAtComplete(s, p, e);
    }
  }

  lemma TripleAtSound(s: string, p: nat, e: nat)
    requires p <= e <= |s| && TripleAt(s, p) == Some(e)
    ensures TripleShape(s, p, e) && (e == |s| || !IsDigit(s[e]))
  {
    var a := RunEnd(s, p);
    var b := RunEnd(s, a + 1);
    assert p < a && a + 1 < b && b + 1 < e && s[a] == '.' && s[b] == '.';
    assert DigitsBetween(s, p, a) && DigitsBetween(s, a + 1, b) && DigitsBetween(s, b + 1, e);
  }

  lemma TripleAtComplete(s: string, p: nat, e: nat)
    requires p <= e <= |s| && TripleShape(s, p, e) && (e == |s| || !IsDigit(s[e]))
    ensures TripleAt(s, p) == Some(e)
  {
    var i, j :| p < i && i + 1 < j && j + 1 < e && s[i] == '.' && s[j] == '.' &&
                DigitsBetween(s, p, i) && DigitsBetween(s, i + 1, j) && DigitsBetween(s, j + 1, e);
    RunEndUnique(s, p, i);
    RunEndUnique(s, i + 1, j);
    RunEndUnique(s, j + 1, e);
  }

  /** `re.search` tried at position `p`: the end of the match there, if any. */
  function MatchAt(s: string, p: nat): (r: Option<nat>)
    requires p <= |s|
    ensures r.Some? ==> p <= r.value <= |s| && RegexMatch(s, p, r.value)
    ensures r.None? ==> forall e :: !RegexMatch(s, p, e)
  {
    if p > 0 && IsWordChar(s[p - 1]) then None
    else match TripleAt(s, p)
      case None =>
        assert forall e :: p <= e <= |s| ==> !RegexMatch(s, p, e) by {
          forall e | p <= e <= |s| ensures !RegexMatch(s, p, e) { TripleAtIff(s, p, e); }
        }
        None
      case Some(c) =>
        TripleAtIff(s, p, c);
        if c < |s| && IsWordChar(s[c]) then
          assert forall e :: !RegexMatch(s, p, e) by {
            forall e | p <= e <= |s| && RegexMatch(s, p, e) ensures false {
              TripleAtIff(s, p, e);
            }
          }
          None
        else Some(c)
  }

  /** The leftmost match at or after `p`. */
  function FindFrom(s: string, p: nat): (r: Option<(nat, nat)>)
    requires p <= |s|
    ensures r.Some? ==> p <= r.value.0 && RegexMatch(s, r.value.0, r.value.1) &&
                        forall q, e :: p <= q < r.value.0 ==> !RegexMatch(s, q, e)
    ensures r.None? ==> forall q, e :: p <= q ==> !RegexMatch(s, q, e)
    decreases |s| - p
  {
    match MatchAt(s, p)
    case Some(e) => Some((p, e))
    case None => if p == |s| then None else FindFrom(s, p + 1)
  }

  /** `_parse_version_string`: the leftmost version triple, else the stripped text. */
  function ParseVersionString(s: string): (r: string)
    ensures (exists p, e :: RegexMatch(s, p, e)) ==>
              exists p, e :: RegexMatch(s, p, e) && r == s[p..e] &&
                             forall q, f :: RegexMatch(s, q, f) ==> p <= q
    ensures (forall p, e :: !RegexMatch(s, p, e)) ==> r == Strip(s)
  {
    match FindFrom(s, 0)
    case Some((p, e)) => s[p..e]
    case None => Strip(s)
  }

  /** The whole of `t` is a version triple. */
  predicate IsTriple(t: string)
  {
    TripleAt(t, 0) == Some(|t|)
  }

  /** `_supports_outputjson`: Python's `$` also matches just before a final newline. */
  predicate SupportsOutputJson(version: string)
  {
    IsTriple(version) ||
    (version != [] && version[|version| - 1] == '\n' && IsTriple(version[..|version| - 1]))
  }

  lemma IsTripleIff(t: string)
    ensures IsTriple(t) <==> TripleShape(t, 0, |t|)
  {
    TripleAtIff(t, 0, |t|);
  }

  /** A match, cut out of its text, is a whole triple. */
  lemma MatchIsTriple(s: string, p: int, e: int)
    requires RegexMatch(s, p, e)
    ensures IsTriple(s[p..e])
  {
    var t := s[p..e];
    var i, j :| p < i && i + 1 < j && j + 1 < e && s[i] == '.' && s[j] == '.' &&
                DigitsBetween(s, p, i) && DigitsBetween(s, i + 1, j) && DigitsBetween(s, j + 1, e);
    assert t[i - p] == '.' && t[j - p] == '.';
    assert DigitsBetween(t, 0, i - p) && DigitsBetween(t, i - p + 1, j - p) && DigitsBetween(t, j - p + 1, |t|);
    IsTripleIff(t);
  }

  lemma DigitsShift(s: string, i: int, t: string, a: int, b: int)
    requires 0 <= i && i + |t| <= |s| && t == s[i..i + |t|]
    requires 0 <= a <= b <= |t| && DigitsBetween(t, a, b)
    ensures DigitsBetween(s, i + a, i + b)
  {
    forall k | i + a <= k < i + b ensures IsDigit(s[k]) {
      assert s[k] == t[k - i];
    }
  }

  /** A triple surrounded by whitespace in `s` is a match of the search. */
  lemma PaddedTripleMatches(s: string, i: int, t: string)
    requires 0 <= i && i + |t| <= |s| && t == s[i..i + |t|]
    requires SpaceBetween(s, 0, i) && SpaceBetween(s, i + |t|, |s|) && IsTriple(t)
    ensures RegexMatch(s, i, i + |t|)
  {
    IsTripleIff(t);
    var a, b :| 0 < a && a + 1 < b && b + 1 < |t| && t[a] == '.' && t[b] == '.' &&
                DigitsBetween(t, 0, a) && DigitsBetween(t, a + 1, b) && DigitsBetween(t, b + 1, |t|);
    assert s[i + a] == '.' && s[i + b] == '.';
    DigitsShift(s, i, t, 0, a);
    DigitsShift(s, i, t, a + 1, b);
    DigitsShift(s, i, t, b + 1, |t|);
    if i > 0 { assert IsSpace(s[i - 1]); }
    if i + |t| < |s| { assert IsSpace(s[i + |t|]); }
  }

  lemma NoMatchNoTriple(s: string)
    requires forall p, e :: !RegexMatch(s, p, e)
    ensures !SupportsOutputJson(Strip(s))
  {
    var v := Strip(s);
    var i :| StrippedAt(s, i, v);
    if IsTriple(v) {
      PaddedTripleMatches(s, i, v);
    }
    assert IsSpace('\n');
  }

  /** Capability follows the output exactly: true when the probed text contains a
      version triple, false otherwise. */
  lemma SupportsIffVersionFound(s: string)
    ensures SupportsOutputJson(ParseVersionString(s)) <==> exists p, e :: RegexMatch(s, p, e)
  {
    var v := ParseVersionString(s);
    if exists p, e :: RegexMatch(s, p, e) {
      var p, e :| RegexMatch(s, p, e) && v == s[p..e];
      MatchIsTriple(s, p, e);
    } else {
      NoMatchNoTriple(s);
    }
  }

  /** The result of a `--version` probe that did not raise: its return code and output
      (stdout with stderr merged into it). */
  datatype ProbeOutcome = ProbeRaised | ProbeCompleted(returnCode: int, stdout: string)

  /** `(argv_prefix, display_exe)`. */
  datatype Invocation = Invocation(prefix: seq<string>, display: string)

  datatype VersionInfo = VersionInfo(version: string, executablePath: string, supportsOutputJson: bool)

  /** `_build_pyright_argv`, given what `shutil.which("pyright")` returned, the running
      interpreter `sys.executable` and the outcome of `python -m pyright --version`. */
  function BuildPyrightArgv(which: Option<string>, executable: string, moduleProbe: ProbeOutcome): (r: Invocation)
    ensures which.Some? && which.value != [] ==> r == Invocation([which.value], which.value)
    ensures (which.None? || which.value == []) ==>
              if moduleProbe.ProbeCompleted? && moduleProbe.returnCode == 0 && moduleProbe.stdout != []
              then r.prefix == [executable, "-m", "pyright"] && r.display == executable + " -m pyright"
              else r.prefix == [] && r.display == []
  {
    if which.Some? && which.value != [] then Invocation([which.value], which.value)
    else if moduleProbe.ProbeCompleted? && moduleProbe.returnCode == 0 && moduleProbe.stdout != [] then
      Invocation([executable, "-m", "pyright"], executable + " -m pyright")
    else Invocation([], [])
  }

  /** `get_pyright_version`, given the invocation and the outcome of `<prefix> --version`. */
  function GetPyrightVersion(inv: Invocation, versionProbe: ProbeOutcome): (r: VersionInfo)
    ensures inv.prefix == [] ==> r == VersionInfo([], [], false)
    ensures inv.prefix != [] ==> r.executablePath == (if inv.display != [] then inv.display else inv.prefix[0])
    ensures inv.prefix != [] && versionProbe.ProbeRaised? ==> r.version == [] && !r.supportsOutputJson
    ensures inv.prefix != [] && versionProbe.ProbeCompleted? ==> r.version == ParseVersionString(versionProbe.stdout)
    ensures r.supportsOutputJson <==>
              inv.prefix != [] && versionProbe.ProbeCompleted? &&
              exists p, e :: RegexMatch(versionProbe.stdout, p, e)
  {
    if inv.prefix == [] then VersionInfo([], [], false)
    else
      var exe := if inv.display != [] then inv.display else inv.prefix[0];
      match versionProbe
      case ProbeRaised => VersionInfo([], exe, false)
      case ProbeCompleted(_, out) =>
        var v := ParseVersionString(out);
        SupportsIffVersionFound(out);
        VersionInfo(v, exe, SupportsOutputJson(v))
  }

  /** With neither `pyright` on the search path nor a working `python -m pyright`, the
      version information is empty whatever the version probe would have said. */
  lemma NoCheckerNoVersion(executable: string, moduleProbe: ProbeOutcome, versionProbe: ProbeOutcome)
    requires moduleProbe.ProbeRaised? || moduleProbe.returnCode != 0
    ensures GetPyrightVersion(BuildPyrightArgv(None, executable, moduleProbe), versionProbe) == VersionInfo([], [], false)
  {
  }
}
