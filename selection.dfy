/**
 * `_iter_included_paths`: which paths a check passes to the checker. The
 * include expansion (`root.glob`, `rglob`, `is_file`, `resolve`) is done by
 * the filesystem and arrives as `candidates`, the list built from the `found`
 * set; what is modelled is the choice between it and `[root]`, and the
 * exclude filter applied to whichever was chosen.
 */
module Selection {
  import opened Wrappers
  import opened Paths
  import Glob

  /** The text the exclude patterns are matched against first: the root-relative POSIX
      path, or the bare name when the path is not under `root`. */
  function RelPosix(p: Path, root: Path): string
  {
    match RelativePosix(p, root)
    case Some(rel) => rel
    case None => Name(p)
  }

  /** Some pattern in `exclude` matches the relative path or the name of `p`. */
  predicate Excluded(p: Path, root: Path, exclude: seq<string>)
  {
    exists k :: 0 <= k < |exclude| &&
      (Glob.Fnmatch(RelPosix(p, root), exclude[k]) || Glob.Fnmatch(Name(p), exclude[k]))
  }

  /** The paths that survive the exclude filter, in their original order. */
  function KeepUnexcluded(paths: seq<Path>, root: Path, exclude: seq<string>): (r: seq<Path>)
    ensures forall p :: p in r <==> p in paths && !Excluded(p, root, exclude)
    ensures IsSubsequence(r, paths)
  {
    if paths == [] then []
    else
      var init := paths[..|paths| - 1];
      var last := paths[|paths| - 1];
      var kept := KeepUnexcluded(init, root, exclude);
      assert paths == init + [last];
      SubsequenceAppend(kept, init, last);
      if Excluded(last, root, exclude) then
        SubsequenceExtend(kept, init, last);
        kept
      else kept + [last]
  }

  /** `a` is `b` with some elements left out, the rest in the same order. */
  predicate IsSubsequence<T(==)>(a: seq<T>, b: seq<T>)
    decreases |b|
  {
    if a == [] then true
    else if b == [] then false
    else (a[|a| - 1] == b[|b| - 1] && IsSubsequence(a[..|a| - 1], b[..|b| - 1])) ||
         IsSubsequence(a, b[..|b| - 1])
  }

  lemma SubsequenceAppend<T>(a: seq<T>, b: seq<T>, x: T)
    requires IsSubsequence(a, b)
    ensures IsSubsequence(a + [x], b + [x])
  {
    assert (a + [x])[..|a|] == a && (b + [x])[..|b|] == b;
  }

  lemma SubsequenceExtend<T>(a: seq<T>, b: seq<T>, x: T)
    requires IsSubsequence(a, b)
    ensures IsSubsequence(a, b + [x])
  {
    assert (b + [x])[..|b|] == b;
  }

  /** Without exclude patterns nothing is filtered out. */
  lemma {:induction false} NoExcludeKeepsAll(paths: seq<Path>, root: Path)
    ensures KeepUnexcluded(paths, root, []) == paths
  {
    if paths != [] {
      NoExcludeKeepsAll(paths[..|paths| - 1], root);
      assert paths == paths[..|paths| - 1] + [paths[|paths| - 1]];
    }
  }

  /** Extending the scanned prefix by one path extends the kept list by that path, unless
      it is excluded. */
  lemma KeepStep(paths: seq<Path>, i: int, root: Path, exclude: seq<string>)
    requires 0 <= i < |paths|
    ensures KeepUnexcluded(paths[..i + 1], root, exclude) ==
            KeepUnexcluded(paths[..i], root, exclude) +
            (if Excluded(paths[i], root, exclude) then [] else [paths[i]])
  {
    var q := paths[..i + 1];
    assert q[..|q| - 1] == paths[..i];
    assert q[|q| - 1] == paths[i];
    if Excluded(paths[i], root, exclude) {
      assert KeepUnexcluded(paths[..i], root, exclude) + [] == KeepUnexcluded(paths[..i], root, exclude);
    }
  }

  /** The exclude test inside `_iter_included_paths`: a scan of the patterns against the
      relative path and the name. */
  method MatchesExclude(p: Path, root: Path, exclude: seq<string>) returns (hit: bool)
    ensures hit == Excluded(p, root, exclude)
  {
    var relPosix: string;
    match RelativePosix(p, root) {
      case Some(rel) => relPosix := rel;
      case None => relPosix := Name(p);
    }
    var name := Name(p);
    hit := false;
    var k := 0;
    while k < |exclude|
      invariant 0 <= k <= |exclude|
      invariant hit <==> exists j :: 0 <= j < k && (Glob.Fnmatch(relPosix, exclude[j]) || Glob.Fnmatch(name, exclude[j]))
    {
      if Glob.Fnmatch(relPosix, exclude[k]) || Glob.Fnmatch(name, exclude[k]) {
        hit := true;
      }
      k := k + 1;
    }
  }

  /** `_iter_included_paths(root, include, exclude)`, with `candidates` the expansion of
      the include globs under `root`. An empty include list counts as none. */
  method IterIncludedPaths(root: Path, includeGlobs: Option<seq<string>>, excludeGlobs: Option<seq<string>>,
                           candidates: seq<Path>) returns (r: seq<Path>)
    ensures var paths := if includeGlobs.Some? && includeGlobs.value != [] then candidates else [root];
            r == KeepUnexcluded(paths, root, if excludeGlobs.Some? then excludeGlobs.value else [])
  {
    var paths: seq<Path>;
    if includeGlobs.Some? && includeGlobs.value != [] {
      paths := candidates;
    } else {
      paths := [root];
    }
    if excludeGlobs.Some? && excludeGlobs.value != [] {
      var ex := excludeGlobs.value;
      var filtered: seq<Path> := [];
      var i := 0;
      while i < |paths|
        invariant 0 <= i <= |paths|
        invariant filtered == KeepUnexcluded(paths[..i], root, ex)
      {
        var p := paths[i];
        KeepStep(paths, i, root, ex);
        var hit := MatchesExclude(p, root, ex);
        if !hit {
          filtered := filtered + [p];
        }
        i := i + 1;
      }
      assert paths[..|paths|] == paths;
      return filtered;
    }
    NoExcludeKeepsAll(paths, root);
    return paths;
  }

  /** A path whose name is spelled out literally in the exclude list is never kept, as
      with `exclude=["excluded.py"]`. */
  lemma LiteralNameExcluded(paths: seq<Path>, root: Path, exclude: seq<string>, p: Path)
    requires exists k :: 0 <= k < |exclude| && exclude[k] == Name(p) &&
                         forall i :: 0 <= i < |Name(p)| ==> !Glob.IsSpecial(Name(p)[i])
    ensures p !in KeepUnexcluded(paths, root, exclude)
  {
    var k :| 0 <= k < |exclude| && exclude[k] == Name(p) &&
             forall i :: 0 <= i < |Name(p)| ==> !Glob.IsSpecial(Name(p)[i]);
    Glob.LiteralPattern(Name(p), exclude[k]);
  }
}
