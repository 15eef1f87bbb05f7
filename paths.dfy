/**
 * Absolute, resolved POSIX paths as sequences of components: `/a/b` is
 * `["a", "b"]`, the filesystem root is `[]` and is its own parent. The
 * `pathlib` operations the core uses: `str()`, `.name`, `.parent`,
 * `/`, `relative_to`, and the component-wise ordering `sorted()` applies to
 * `Path` objects.
 */
module Paths {
  import opened Wrappers
  import Text
  import opened Ordering
  import StableSort

  type Path = seq<string>

  /** `str(p)`. */
  function ToStr(p: Path): (r: string)
    ensures r != [] && r[0] == '/'
  {
    "/" + Text.Join(p, "/")
  }

  /** `p.name`: the last component, `""` for the root. */
  function Name(p: Path): string
  {
    if p == [] then "" else p[|p| - 1]
  }

  /** `p.parent`. */
  function Parent(p: Path): (r: Path)
    ensures p == [] ==> r == p
    ensures p != [] ==> |r| == |p| - 1 && p == r + [Name(p)]
  {
    if p == [] then [] else p[..|p| - 1]
  }

  /** `s.replace("\\", "/")`. */
  function SlashBackslashes(s: string): (r: string)
    ensures |r| == |s| && forall i :: 0 <= i < |s| ==> r[i] == if s[i] == '\\' then '/' else s[i]
    ensures forall i :: 0 <= i < |r| ==> r[i] != '\\'
  {
    if s == [] then [] else [if s[0] == '\\' then '/' else s[0]] + SlashBackslashes(s[1..])
  }

  /** `str(p.relative_to(root)).replace("\\", "/")`, or `None` where `relative_to` raises
      `ValueError` because `p` is not under `root`; `root` itself gives `"."`. A backslash
      inside a component name is rewritten to `/` as well. */
  function RelativePosix(p: Path, root: Path): (r: Option<string>)
    ensures r.Some? <==> root <= p
    ensures r == Some(".") <== p == root
    ensures r.Some? ==> forall i :: 0 <= i < |r.value| ==> r.value[i] != '\\'
  {
    if !(root <= p) then None
    else if p == root then Some(".")
    else Some(SlashBackslashes(Text.Join(p[|root|..], "/")))
  }

  lemma SlashAppend(x: string, y: string)
    ensures SlashBackslashes(x + y) == SlashBackslashes(x) + SlashBackslashes(y)
  {
    var l, r := SlashBackslashes(x + y), SlashBackslashes(x) + SlashBackslashes(y);
    forall i | 0 <= i < |l| ensures l[i] == r[i] {
      if i < |x| {
        assert (x + y)[i] == x[i];
      } else {
        assert (x + y)[i] == y[i - |x|];
      }
    }
  }

  lemma SlashPlain(x: string)
    requires forall i :: 0 <= i < |x| ==> x[i] != '\\'
    ensures SlashBackslashes(x) == x
  {
  }

  /** No component and no separator holds a backslash, so neither does the joined text. */
  lemma {:induction false} JoinPlain(parts: seq<string>)
    requires forall k, i :: 0 <= k < |parts| && 0 <= i < |parts[k]| ==> parts[k][i] != '\\'
    ensures forall i :: 0 <= i < |Text.Join(parts, "/")| ==> Text.Join(parts, "/")[i] != '\\'
  {
    if |parts| > 1 {
      JoinPlain(parts[1..]);
      var h, t := parts[0], Text.Join(parts[1..], "/");
      assert Text.Join(parts, "/") == h + "/" + t;
      forall i | 0 <= i < |h + "/" + t| ensures (h + "/" + t)[i] != '\\' {
        if i < |h| {
          assert (h + "/" + t)[i] == parts[0][i];
        } else if i > |h| {
          assert (h + "/" + t)[i] == t[i - |h| - 1];
        }
      }
    } else if |parts| == 1 {
      assert forall i :: 0 <= i < |parts[0]| ==> parts[0][i] != '\\';
    }
  }

  /** `str(p)` is `str(root)`, a `/` (none after the filesystem root), then the relative
      path, once backslashes are turned into slashes on both sides. */
  lemma RelativePosixValue(p: Path, root: Path)
    requires root <= p && p != root
    ensures SlashBackslashes(ToStr(p)) ==
            SlashBackslashes(if root == [] then "/" else ToStr(root) + "/") + RelativePosix(p, root).value
  {
    var rel := p[|root|..];
    assert p == root + rel;
    if root == [] {
      assert rel == p;
      SlashAppend("/", Text.Join(rel, "/"));
    } else {
      Text.JoinAppend(root, rel, "/");
      assert ToStr(p) == (ToStr(root) + "/") + Text.Join(rel, "/");
      SlashAppend(ToStr(root) + "/", Text.Join(rel, "/"));
    }
  }

  /** For a path whose components hold no backslash, the relative path is exactly what
      follows `str(root)/` in `str(p)`. */
  lemma RelativePosixPlain(p: Path, root: Path)
    requires root <= p && p != root
    requires forall k, i :: 0 <= k < |p| && 0 <= i < |p[k]| ==> p[k][i] != '\\'
    ensures ToStr(p) == (if root == [] then "/" else ToStr(root) + "/") + RelativePosix(p, root).value
  {
    RelativePosixValue(p, root);
    JoinPlain(p);
    SlashPlain(ToStr(p));
    if root != [] {
      forall k, i | 0 <= k < |root| && 0 <= i < |root[k]| ensures root[k][i] != '\\' {
        assert root[k] == p[k];
      }
      JoinPlain(root);
      var pre := ToStr(root) + "/";
      forall i | 0 <= i < |pre| ensures pre[i] != '\\' {
        if i < |ToStr(root)| {
          assert pre[i] == ToStr(root)[i];
        }
      }
      SlashPlain(pre);
    } else {
      SlashPlain("/");
    }
  }

  /** The relative path of `/w/sub/x.py` under `/w` is `sub/x.py`, the text an exclude
      pattern such as `sub/` followed by `*.py` is matched against. */
  lemma RelativePosixExample()
    ensures RelativePosix(["w", "sub", "x.py"], ["w"]) == Some("sub/x.py")
  {
    assert ["w", "sub", "x.py"][1..] == ["sub", "x.py"];
    assert Text.Join(["sub", "x.py"], "/") == "sub/x.py" by {
      assert ["sub", "x.py"][1..] == ["x.py"];
    }
    SlashPlain("sub/x.py");
  }

  /** The key Python compares `Path` objects by: their components, in order. */
  function PathKey(p: Path): (k: Key)
    ensures |k| == |p| && forall i :: 0 <= i < |p| ==> k[i] == S(p[i])
  {
    if p == [] then [] else PathKey(p[..|p| - 1]) + [S(p[|p| - 1])]
  }

  lemma {:induction false} PathKeyInjective(p: Path, q: Path)
    requires PathKey(p) == PathKey(q)
    ensures p == q
  {
    assert |p| == |q|;
    forall i | 0 <= i < |p| ensures p[i] == q[i] {
      assert PathKey(p)[i] == S(p[i]) && PathKey(q)[i] == S(q[i]);
    }
  }

  /** The element set of `ps` as a list without repeats: `set(ps)` before `sorted` gives
      it an order (here the order of first occurrence, which the sort then discards). */
  function Dedup(ps: seq<Path>): (r: seq<Path>)
    ensures forall p :: p in r <==> p in ps
    ensures forall i, j :: 0 <= i < j < |r| ==> r[i] != r[j]
  {
    if ps == [] then []
    else
      var rest := Dedup(ps[..|ps| - 1]);
      if ps[|ps| - 1] in rest then rest else rest + [ps[|ps| - 1]]
  }

  /** `sorted(set(ps))` on `Path` objects: every path once, in component order. */
  function SortedUnique(ps: seq<Path>): (r: seq<Path>)
    ensures forall p :: p in r <==> p in ps
    ensures forall i, j :: 0 <= i < j < |r| ==> KeyLess(PathKey(r[i]), PathKey(r[j]))
  {
    var d := Dedup(ps);
    var r := StableSort.Sort(d, PathKey);
    assert forall p :: p in r <==> p in d by {
      forall p ensures p in r <==> p in d {
        assert p in r <==> p in multiset(r);
        assert p in d <==> p in multiset(d);
      }
    }
    forall i, j | 0 <= i < j < |r| ensures KeyLess(PathKey(r[i]), PathKey(r[j])) {
      assert KeyLe(PathKey(r[i]), PathKey(r[j]));
      if PathKey(r[i]) == PathKey(r[j]) {
        PathKeyInjective(r[i], r[j]);
        DistinctAfterSort(d, r, i, j);
      }
    }
    r
  }

  /** A permutation of a duplicate-free list is duplicate-free. */
  lemma DistinctAfterSort(d: seq<Path>, r: seq<Path>, i: int, j: int)
    requires forall a, b :: 0 <= a < b < |d| ==> d[a] != d[b]
    requires multiset(r) == multiset(d)
    requires 0 <= i < j < |r|
    ensures r[i] != r[j]
  {
    if r[i] == r[j] {
      var x := r[i];
      assert multiset(r)[x] >= 2 by {
        assert r == r[..i] + [x] + r[i + 1..j] + [x] + r[j + 1..];
      }
      DistinctCount(d, x);
    }
  }

  lemma {:induction false} DistinctCount(d: seq<Path>, x: Path)
    requires forall a, b :: 0 <= a < b < |d| ==> d[a] != d[b]
    ensures multiset(d)[x] <= 1
  {
    if d != [] {
      var t := d[..|d| - 1];
      assert d == t + [d[|d| - 1]];
      DistinctCount(t, x);
      if d[|d| - 1] == x {
        assert x !in t;
      }
    }
  }

  /** Component order is not string order: `/a/b` sorts before `/a-c` as a `Path`,
      although `"/a-c" < "/a/b"` as strings (`-` is below `/`). */
  lemma ComponentOrderDiffersFromStringOrder()
    ensures KeyLess(PathKey(["a", "b"]), PathKey(["a-c"]))
    ensures StrLess(ToStr(["a-c"]), ToStr(["a", "b"]))
  {
    assert PathKey(["a", "b"]) == [S("a"), S("b")];
    assert PathKey(["a-c"]) == [S("a-c")];
    assert StrLess("a", "a-c") by {
      assert "a"[1..] == [] && "a-c"[1..] == "-c";
    }
    assert Text.Join(["a", "b"], "/") == "a/b" by {
      assert ["a", "b"][1..] == ["b"];
    }
    assert ToStr(["a-c"]) == "/a-c";
    assert ToStr(["a", "b"]) == "/a/b";
    assert StrLess("-c", "/b");
    assert StrLess("a-c", "a/b") by {
      assert "a-c"[1..] == "-c" && "a/b"[1..] == "/b";
    }
    assert "/a-c"[1..] == "a-c" && "/a/b"[1..] == "a/b";
  }
}
