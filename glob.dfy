/**
 * Python's `fnmatch.fnmatch(name, pattern)` on POSIX (no case folding): the
 * pattern is compiled the way `fnmatch.translate` does it and the whole name must
 * match. `*` matches any run of characters, `/` included; `?` one character;
 * `[...]` and `[!...]` a character class with `a-z` ranges, a `]` right after
 * the opening bracket (or `!`) standing for itself; a `[` with no closing
 * bracket is a literal. Backslash has no special meaning.
 */
module Glob {
  import opened Wrappers

  datatype ClassItem = Single(c: char) | Range(lo: char, hi: char)

  datatype Token =
    | Star
    | AnyChar
    | Lit(c: char)
    | Class(negated: bool, items: seq<ClassItem>)

  predicate IsSpecial(c: char)
  {
    c == '*' || c == '?' || c == '['
  }

  /** Index of the first `]` at or after `j`, if any. */
  function FindClose(pat: string, j: nat): (r: Option<nat>)
    requires j <= |pat|
    ensures r.Some? ==> j <= r.value < |pat| && pat[r.value] == ']'
    decreases |pat| - j
  {
    if j == |pat| then None
    else if pat[j] == ']' then Some(j)
    else FindClose(pat, j + 1)
  }

  /** For a pattern starting with `[`: where its class closes, skipping an optional `!`
      and then a `]` that belongs to the class. */
  function ClassClose(pat: string): (r: Option<nat>)
    requires pat != [] && pat[0] == '['
    ensures r.Some? ==> 1 < r.value < |pat| && pat[r.value] == ']'
  {
    var j := if 1 < |pat| && pat[1] == '!' then 2 else 1;
    var j' := if j < |pat| && pat[j] == ']' then j + 1 else j;
    match FindClose(pat, j')
    case None => None
    case Some(k) => Some(k)
  }

  /** The members of a class body, ranges read left to right. */
  function ClassItems(body: string): (r: seq<ClassItem>)
  {
    if body == [] then []
    else if |body| >= 3 && body[1] == '-' then [Range(body[0], body[2])] + ClassItems(body[3..])
    else [Single(body[0])] + ClassItems(body[1..])
  }

  /** `fnmatch.translate`, as a token list. */
  function Compile(pat: string): (r: seq<Token>)
    ensures (forall i :: 0 <= i < |pat| ==> !IsSpecial(pat[i])) ==>
              |r| == |pat| && forall i :: 0 <= i < |pat| ==> r[i] == Lit(pat[i])
    decreases |pat|
  {
    if pat == [] then []
    else if pat[0] == '*' then [Star] + Compile(pat[1..])
    else if pat[0] == '?' then [AnyChar] + Compile(pat[1..])
    else if pat[0] == '[' then
      match ClassClose(pat)
      case None => [Lit('[')] + Compile(pat[1..])
      case Some(k) =>
        var contents := pat[1..k];
        var negated := contents[0] == '!';
        var body := if negated then contents[1..] else contents;
        [Class(negated, ClassItems(body))] + Compile(pat[k + 1..])
    else [Lit(pat[0])] + Compile(pat[1..])
  }

  predicate InItems(c: char, items: seq<ClassItem>)
  {
    exists i :: 0 <= i < |items| && match items[i]
                                    case Single(d) => c == d
                                    case Range(lo, hi) => lo <= c <= hi
  }

  /** Whether a single-character token accepts `c`. */
  predicate TokenAccepts(t: Token, c: char)
    requires !t.Star?
  {
    match t
    case AnyChar => true
    case Lit(d) => c == d
    case Class(negated, items) => InItems(c, items) != negated
  }

  /** Whether the token list matches the whole of `s`. */
  predicate Match(toks: seq<Token>, s: string)
    decreases |toks|, |s|
  {
    if toks == [] then s == []
    else if toks[0].Star? then Match(toks[1..], s) || (s != [] && Match(toks, s[1..]))
    else s != [] && TokenAccepts(toks[0], s[0]) && Match(toks[1..], s[1..])
  }

  /** `fnmatch.fnmatch(name, pat)` on POSIX. */
  predicate Fnmatch(name: string, pat: string)
  {
    Match(Compile(pat), name)
  }

  /** `*` matches every name, including those with `/` in them. */
  lemma {:induction false} StarMatchesAll(s: string)
    ensures Fnmatch(s, "*")
  {
    assert Compile("*") == [Star] by { assert "*"[1..] == []; }
    assert Match([Star][1..], []);
    if s != [] { StarMatchesAll(s[1..]); }
  }

  /** `?` matches exactly the names of one character. */
  lemma QuestionMatchesOneChar(s: string)
    ensures Fnmatch(s, "?") <==> |s| == 1
  {
    assert Compile("?") == [AnyChar] by { assert "?"[1..] == []; }
    assert [AnyChar][1..] == [];
    var toks := Compile("?");
    if s != [] {
      assert toks[1..] == [];
      assert Match(toks, s) == Match([], s[1..]);
      assert |s[1..]| == |s| - 1;
    }
  }

  lemma {:induction false} MatchLiterals(toks: seq<Token>, lit: string, s: string)
    requires |toks| == |lit| && forall i :: 0 <= i < |lit| ==> toks[i] == Lit(lit[i])
    ensures Match(toks, s) <==> s == lit
  {
    if toks != [] {
      MatchLiterals(toks[1..], lit[1..], if s == [] then [] else s[1..]);
      if s != [] && s[0] == lit[0] && s[1..] == lit[1..] {
        assert s == [s[0]] + s[1..] && lit == [lit[0]] + lit[1..];
      }
    }
  }

  /** A pattern with no `*`, `?` or `[` matches exactly the name spelled the same. */
  lemma LiteralPattern(s: string, pat: string)
    requires forall i :: 0 <= i < |pat| ==> !IsSpecial(pat[i])
    ensures Fnmatch(s, pat) <==> s == pat
  {
    MatchLiterals(Compile(pat), pat, s);
  }

  /** `*` followed by a literal tail matches exactly the names ending in that tail
      (`*.py` matches every name ending in `.py`). */
  lemma {:induction false} StarThenLiteral(s: string, tail: string)
    requires forall i :: 0 <= i < |tail| ==> !IsSpecial(tail[i])
    ensures Fnmatch(s, "*" + tail) <==> (|tail| <= |s| && s[|s| - |tail|..] == tail)
  {
    var pat := "*" + tail;
    assert pat[1..] == tail;
    var toks := Compile(pat);
    assert toks == [Star] + Compile(tail);
    assert toks[1..] == Compile(tail);
    StarLiteralTail(toks, tail, s);
  }

  lemma {:induction false} StarLiteralTail(toks: seq<Token>, tail: string, s: string)
    requires toks != [] && toks[0] == Star
    requires |toks| == |tail| + 1 && forall i :: 0 <= i < |tail| ==> toks[i + 1] == Lit(tail[i])
    ensures Match(toks, s) <==> (|tail| <= |s| && s[|s| - |tail|..] == tail)
    decreases |s|
  {
    MatchLiterals(toks[1..], tail, s);
    if s != [] {
      StarLiteralTail(toks, tail, s[1..]);
      if |tail| <= |s| - 1 {
        assert s[1..][|s[1..]| - |tail|..] == s[|s| - |tail|..];
      }
      if |tail| == |s| {
        assert s[|s| - |tail|..] == s;
      }
    }
  }

  /** A one-token pattern matches exactly the one-character names its token accepts. */
  lemma SingleToken(t: Token, s: string)
    requires !t.Star?
    ensures Match([t], s) <==> |s| == 1 && TokenAccepts(t, s[0])
  {
    assert [t][1..] == [];
  }

  lemma OneItem(c: char, item: ClassItem)
    ensures InItems(c, [item]) <==> match item
                                    case Single(d) => c == d
                                    case Range(lo, hi) => lo <= c <= hi
  {
    assert [item][0] == item;
  }

  /** `[lo-hi]` matches exactly the one-character names from `lo` to `hi` (none when
      `hi` is below `lo`). */
  lemma ClassRange(s: string, lo: char, hi: char)
    requires lo != '!' && hi != ']'
    ensures Fnmatch(s, ['[', lo, '-', hi, ']']) <==> |s| == 1 && lo <= s[0] <= hi
  {
    var pat := ['[', lo, '-', hi, ']'];
    assert FindClose(pat, 4) == Some(4);
    assert FindClose(pat, 2) == Some(4);
    assert ClassClose(pat) == Some(4);
    assert pat[1..4] == [lo, '-', hi];
    assert ClassItems([lo, '-', hi]) == [Range(lo, hi)] by {
      assert [lo, '-', hi][3..] == [];
    }
    assert pat[5..] == [];
    assert Compile(pat) == [Class(false, [Range(lo, hi)])];
    SingleToken(Class(false, [Range(lo, hi)]), s);
    if |s| == 1 {
      OneItem(s[0], Range(lo, hi));
    }
  }

  /** `[!x]` matches exactly the one-character names other than `x`. */
  lemma NegatedClass(s: string, x: char)
    requires x != ']'
    ensures Fnmatch(s, ['[', '!', x, ']']) <==> |s| == 1 && s[0] != x
  {
    var pat := ['[', '!', x, ']'];
    assert FindClose(pat, 3) == Some(3);
    assert FindClose(pat, 2) == Some(3);
    assert ClassClose(pat) == Some(3);
    assert pat[1..3] == ['!', x];
    assert ['!', x][1..] == [x];
    assert ClassItems([x]) == [Single(x)] by {
      assert [x][1..] == [];
    }
    assert pat[4..] == [];
    assert Compile(pat) == [Class(true, [Single(x)])];
    SingleToken(Class(true, [Single(x)]), s);
    if |s| == 1 {
      OneItem(s[0], Single(x));
    }
  }

  lemma {:induction false} FindCloseNone(pat: string, j: nat)
    requires j <= |pat| && forall i :: j <= i < |pat| ==> pat[i] != ']'
    ensures FindClose(pat, j).None?
    decreases |pat| - j
  {
    if j < |pat| {
      FindCloseNone(pat, j + 1);
    }
  }

  /** A `[` that is never closed is an ordinary character: `[` followed by plain
      characters and no `]` matches only itself. */
  lemma UnclosedBracketLiteral(s: string, tail: string)
    requires forall i :: 0 <= i < |tail| ==> !IsSpecial(tail[i]) && tail[i] != ']'
    ensures Fnmatch(s, "[" + tail) <==> s == "[" + tail
  {
    var pat := "[" + tail;
    forall i | 1 <= i < |pat| ensures pat[i] != ']' {
      assert pat[i] == tail[i - 1];
    }
    FindCloseNone(pat, 1);
    if |pat| > 1 {
      FindCloseNone(pat, 2);
    }
    assert ClassClose(pat).None?;
    assert pat[1..] == tail;
    var toks := Compile(pat);
    assert toks == [Lit('[')] + Compile(tail);
    forall i | 0 <= i < |pat| ensures toks[i] == Lit(pat[i]) {
      if i > 0 {
        assert toks[i] == Compile(tail)[i - 1];
        assert pat[i] == tail[i - 1];
      }
    }
    MatchLiterals(toks, pat, s);
  }
}
