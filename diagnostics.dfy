/**
 * The checker's report and its normalisation: `SEVERITY_LEVEL`,
 * `parse_pyright_json` (shape validation of the decoded document),
 * `_normalize_diag`, the summary copy, and the deterministic order of
 * the diagnostic list. A `None` from a normalising function stands for an
 * exception Python raises there (`int()` on a non-number, `.get` on a
 * non-object); `run_check` does not catch those.
 */
module Diagnostics {
  import opened Wrappers
  import opened PyJson
  import opened Ordering
  import StableSort

  datatype Severity = Information | Warning | Error

  /** `SEVERITY_LEVEL`. */
  function Level(s: Severity): (n: int)
    ensures 1 <= n <= 3
  {
    match s
    case Information => 1
    case Warning => 2
    case Error => 3
  }

  function SeverityName(s: Severity): string
  {
    match s
    case Information => "information"
    case Warning => "warning"
    case Error => "error"
  }

  /** The table is one-to-one: a level names exactly one severity. */
  lemma LevelInjective(a: Severity, b: Severity)
    ensures Level(a) == Level(b) <==> a == b
  {
  }

  datatype Position = Position(line: int, character: int)

  datatype Range = Range(start: Position, end: Position)

  datatype Diagnostic = Diagnostic(
    file: string,
    range: Range,
    severity: Severity,
    severityLevel: int,
    message: string,
    rule: Option<string>,
    code: Option<string>)

  /** What every normalised diagnostic satisfies: its level is the table value of its
      severity, and its code is its rule. */
  predicate Consistent(d: Diagnostic)
  {
    d.severityLevel == Level(d.severity) && d.code == d.rule
  }

  /** `sev_raw if sev_raw in ("information", "warning", "error") else "information"`. */
  function SeverityOf(raw: Json): (s: Severity)
    ensures s != Information ==> raw == JStr(SeverityName(s))
  {
    if raw == JStr("warning") then Warning
    else if raw == JStr("error") then Error
    else Information
  }

  /** `cast(dict, obj.get(key) or {})` followed by a `.get` on it: a missing or falsy
      member is the empty object, an object is itself, anything else makes the next
      `.get` raise (`None`). */
  function SubObject(fields: seq<(string, Json)>, key: string): (r: Option<seq<(string, Json)>>)
    ensures Lookup(fields, key).None? ==> r == Some([])
    ensures Lookup(fields, key).Some? && !Truthy(Lookup(fields, key).value) ==> r == Some([])
    ensures Lookup(fields, key).Some? && Truthy(Lookup(fields, key).value) ==>
              (r.Some? <==> Lookup(fields, key).value.JObj?) &&
              (r.Some? ==> r == Some(Lookup(fields, key).value.fields))
  {
    match Lookup(fields, key)
    case None => Some([])
    case Some(v) =>
      if !Truthy(v) then Some([])
      else if v.JObj? then Some(v.fields)
      else None
  }

  /** `int(pos.get(key, 0))`. */
  function Coordinate(pos: seq<(string, Json)>, key: string): (r: Option<int>)
    ensures Lookup(pos, key).None? ==> r == Some(0)
    ensures Lookup(pos, key).Some? ==> r == IntOf(Lookup(pos, key).value)
  {
    IntOf(GetOr(pos, key, JNum(0)))
  }

  /** `{"line": int(pos.get("line", 0)), "character": int(pos.get("character", 0))}`. */
  function PositionOf(pos: seq<(string, Json)>): (r: Option<Position>)
    ensures pos == [] ==> r == Some(Position(0, 0))
    ensures r.Some? <==> Coordinate(pos, "line").Some? && Coordinate(pos, "character").Some?
    ensures r.Some? ==> Some(r.value.line) == Coordinate(pos, "line") &&
                        Some(r.value.character) == Coordinate(pos, "character")
  {
    match (Coordinate(pos, "line"), Coordinate(pos, "character"))
    case (Some(l), Some(c)) => Some(Position(l, c))
    case _ => None
  }

  /** The range of a raw diagnostic object, defaults applied. */
  function RangeOf(fields: seq<(string, Json)>): (r: Option<Range>)
    ensures Lookup(fields, "range").None? ==> r == Some(Range(Position(0, 0), Position(0, 0)))
    ensures SubObject(fields, "range").None? ==> r.None?
    ensures SubObject(fields, "range").Some? ==>
              var rng := SubObject(fields, "range").value;
              (r.Some? <==> (SubObject(rng, "start").Some? && SubObject(rng, "end").Some? &&
                             PositionOf(SubObject(rng, "start").value).Some? &&
                             PositionOf(SubObject(rng, "end").value).Some?)) &&
              (r.Some? ==> Some(r.value.start) == PositionOf(SubObject(rng, "start").value) &&
                           Some(r.value.end) == PositionOf(SubObject(rng, "end").value))
  {
    var rng := SubObject(fields, "range");
    if rng.None? then None
    else
      var st, en := SubObject(rng.value, "start"), SubObject(rng.value, "end");
      if st.None? || en.None? then None
      else
        var a, b := PositionOf(st.value), PositionOf(en.value);
        if a.None? || b.None? then None
        else Some(Range(a.value, b.value))
  }

  /** Inside a range that normalises, a missing `start` or `end` is position (0, 0). */
  lemma MissingEndpointDefaults(fields: seq<(string, Json)>)
    requires RangeOf(fields).Some?
    ensures var rng := SubObject(fields, "range").value;
            && (Lookup(rng, "start").None? ==> RangeOf(fields).value.start == Position(0, 0))
            && (Lookup(rng, "end").None? ==> RangeOf(fields).value.end == Position(0, 0))
  {
  }

  /** A range with a numeric start and no end keeps the start's line and character. */
  lemma StartOnlyRange(l: int, c: int)
    ensures RangeOf([("range", JObj([("start", JObj([("line", JNum(l)), ("character", JNum(c))]))]))]) ==
            Some(Range(Position(l, c), Position(0, 0)))
  {
    var start := [("line", JNum(l)), ("character", JNum(c))];
    var rng := [("start", JObj(start))];
    var fields := [("range", JObj(rng))];
    assert Lookup(fields, "range") == Some(JObj(rng));
    assert SubObject(fields, "range") == Some(rng);
    assert Lookup(rng, "start") == Some(JObj(start));
    assert SubObject(rng, "start") == Some(start);
    assert Lookup(rng, "end").None?;
    assert Lookup(start, "line") == Some(JNum(l));
    assert Lookup(start, "character") == Some(JNum(c));
  }

  /** `rule_val if isinstance(rule_val, str) else None`: the empty string stays. */
  function RuleOf(fields: seq<(string, Json)>): (r: Option<string>)
    ensures r.Some? <==> exists s :: Lookup(fields, "rule") == Some(JStr(s))
    ensures r.Some? ==> Lookup(fields, "rule") == Some(JStr(r.value))
  {
    match Lookup(fields, "rule")
    case Some(JStr(s)) => Some(s)
    case _ => None
  }

  /** `_normalize_diag`, with `resolve` standing for `str(Path(file).resolve())`. */
  function NormalizeDiag(d: Json, resolve: string -> string): (r: Option<Diagnostic>)
    ensures !d.JObj? ==> r.None?
    ensures r.Some? ==> Consistent(r.value)
    ensures d.JObj? ==> (r.Some? <==> RangeOf(d.fields).Some?)
    ensures r.Some? ==>
              && r.value.severity == SeverityOf(GetOr(d.fields, "severity", JStr("information")))
              && Some(r.value.range) == RangeOf(d.fields)
              && r.value.rule == RuleOf(d.fields)
              && r.value.file == resolve(PyStr(GetOr(d.fields, "file", JStr(""))))
              && r.value.message == PyStr(GetOr(d.fields, "message", JStr("")))
  {
    if !d.JObj? then None
    else
      var fields := d.fields;
      var sev := SeverityOf(GetOr(fields, "severity", JStr("information")));
      var rule := RuleOf(fields);
      var rng := RangeOf(fields);
      if rng.None? then None
      else
        Some(Diagnostic(
          resolve(PyStr(GetOr(fields, "file", JStr("")))),
          rng.value,
          sev,
          Level(sev),
          PyStr(GetOr(fields, "message", JStr(""))),
          rule,
          rule))
  }

  /** A missing or unrecognised severity normalises to "information" with level 1; a
      recognised one keeps its name and gets its table level. */
  lemma SeverityNormalization(d: Json, resolve: string -> string, s: Severity)
    requires d.JObj? && NormalizeDiag(d, resolve).Some?
    ensures var n := NormalizeDiag(d, resolve).value;
            (Lookup(d.fields, "severity") == Some(JStr(SeverityName(s))) ==> n.severity == s && n.severityLevel == Level(s)) &&
            ((forall t :: Lookup(d.fields, "severity") != Some(JStr(SeverityName(t)))) ==> n.severity == Information && n.severityLevel == 1)
  {
    var n := NormalizeDiag(d, resolve).value;
    if Lookup(d.fields, "severity").None? {
      assert GetOr(d.fields, "severity", JStr("information")) == JStr(SeverityName(Information));
    }
    if forall t :: Lookup(d.fields, "severity") != Some(JStr(SeverityName(t))) {
      assert Lookup(d.fields, "severity") != Some(JStr(SeverityName(Warning)));
      assert Lookup(d.fields, "severity") != Some(JStr(SeverityName(Error)));
    }
  }

  /** A diagnostic without "range" never raises; its positions are all 0, and a missing
      "file" or "message" becomes the empty string. */
  lemma AbsentFieldsDefault(d: Json, resolve: string -> string)
    requires d.JObj? && Lookup(d.fields, "range").None?
    ensures NormalizeDiag(d, resolve).Some?
    ensures NormalizeDiag(d, resolve).value.range == Range(Position(0, 0), Position(0, 0))
    ensures Lookup(d.fields, "file").None? ==> NormalizeDiag(d, resolve).value.file == resolve([])
    ensures Lookup(d.fields, "message").None? ==> NormalizeDiag(d, resolve).value.message == []
  {
  }

  /** `int()` on a coordinate that is no number raises: `"line": null` makes the whole
      normalisation raise. */
  lemma NullLineRaises(resolve: string -> string)
    ensures NormalizeDiag(JObj([("range", JObj([("start", JObj([("line", JNull)]))]))]), resolve).None?
  {
    var st := [("line", JNull)];
    var rng := [("start", JObj(st))];
    var fields := [("range", JObj(rng))];
    LookupSingle("line", JNull, "line");
    LookupSingle("start", JObj(st), "start");
    LookupSingle("range", JObj(rng), "range");
    assert Coordinate(st, "line").None?;
    assert SubObject(rng, "start") == Some(st);
    assert SubObject(fields, "range") == Some(rng);
    assert RangeOf(fields).None?;
  }

  /** `parse_pyright_json`, given what `json.loads` produced (`None`: it raised). */
  function ParsePyrightJson(decoded: Option<Json>): (r: Option<Json>)
    ensures r.Some? <==> decoded.Some? && decoded.value.JObj? &&
                         HasKey(decoded.value.fields, "summary") &&
                         HasKey(decoded.value.fields, "generalDiagnostics")
    ensures r.Some? ==> r == decoded
  {
    match decoded
    case None => None
    case Some(obj) =>
      if !obj.JObj? then None
      else if !HasKey(obj.fields, "summary") || !HasKey(obj.fields, "generalDiagnostics") then None
      else Some(obj)
  }

  /** `parsed.get("generalDiagnostics", []) or []`, iterated: a falsy value is the empty
      list, a list is its items, anything else raises as soon as it is iterated. */
  function RawDiagnostics(report: seq<(string, Json)>): (r: Option<seq<Json>>)
    ensures Lookup(report, "generalDiagnostics").None? ==> r == Some([])
    ensures Lookup(report, "generalDiagnostics").Some? ==>
              var v := Lookup(report, "generalDiagnostics").value;
              && (!Truthy(v) ==> r == Some([]))
              && (Truthy(v) && v.JArr? ==> r == Some(v.items))
              && (Truthy(v) && !v.JArr? ==> r.None?)
  {
    var v := GetOr(report, "generalDiagnostics", JArr([]));
    if !Truthy(v) then Some([])
    else if v.JArr? then Some(v.items)
    else None
  }

  /** Applies `f` to every element in order; the first `None` makes the whole result `None`. */
  function MapAll<A, B>(xs: seq<A>, f: A -> Option<B>): (r: Option<seq<B>>)
    ensures r.Some? <==> forall i :: 0 <= i < |xs| ==> f(xs[i]).Some?
    ensures r.Some? ==> |r.value| == |xs| && forall i :: 0 <= i < |xs| ==> f(xs[i]) == Some(r.value[i])
  {
    if xs == [] then Some([])
    else
      var rest := MapAll(xs[1..], f);
      assert forall i :: 1 <= i < |xs| ==> xs[i] == xs[1..][i - 1];
      if f(xs[0]).None? || rest.None? then None
      else Some([f(xs[0]).value] + rest.value)
  }

  /** `[_normalize_diag(d) for d in diags_raw]`. */
  function NormalizeAll(raw: seq<Json>, resolve: string -> string): (r: Option<seq<Diagnostic>>)
    ensures r.Some? <==> forall i :: 0 <= i < |raw| ==> NormalizeDiag(raw[i], resolve).Some?
    ensures r.Some? ==> |r.value| == |raw| &&
                        forall i :: 0 <= i < |raw| ==> NormalizeDiag(raw[i], resolve) == Some(r.value[i])
  {
    MapAll(raw, x => NormalizeDiag(x, resolve))
  }

  datatype Summary = Summary(
    filesAnalyzed: int,
    errorCount: int,
    warningCount: int,
    informationCount: int,
    timeSec: Json)

  /** The summary of every failure branch. */
  const ZeroSummary := Summary(0, 0, 0, 0, JNum(0))

  /** The summary block of a parsed report, copied counter by counter with `int()`; the
      counters come from the report alone, never from its diagnostics. */
  function NormalizeSummary(report: seq<(string, Json)>): (r: Option<Summary>)
    ensures SubObject(report, "summary").Some? && r.Some? ==>
              var s := SubObject(report, "summary").value;
              && Some(r.value.filesAnalyzed) == Coordinate(s, "filesAnalyzed")
              && Some(r.value.errorCount) == Coordinate(s, "errorCount")
              && Some(r.value.warningCount) == Coordinate(s, "warningCount")
              && Some(r.value.informationCount) == Coordinate(s, "informationCount")
    ensures SubObject(report, "summary").None? ==> r.None?
    ensures r.Some? <==> SubObject(report, "summary").Some? &&
                         var s := SubObject(report, "summary").value;
                         && Coordinate(s, "filesAnalyzed").Some? && Coordinate(s, "errorCount").Some?
                         && Coordinate(s, "warningCount").Some? && Coordinate(s, "informationCount").Some?
    ensures r.Some? ==> r.value.timeSec == GetOr(SubObject(report, "summary").value, "timeInSec", JNum(0))
  {
    match SubObject(report, "summary")
    case None => None
    case Some(s) =>
      match (Coordinate(s, "filesAnalyzed"), Coordinate(s, "errorCount"),
             Coordinate(s, "warningCount"), Coordinate(s, "informationCount"))
      case (Some(f), Some(e), Some(w), Some(i)) => Some(Summary(f, e, w, i, GetOr(s, "timeInSec", JNum(0))))
      case _ => None
  }

  /** The sort key `(file, range.start.line, range.start.character)`. */
  function DiagKey(d: Diagnostic): Key
  {
    [S(d.file), N(d.range.start.line), N(d.range.start.character)]
  }

  /** `diags.sort(key=...)`, on the list's value. */
  function SortDiagnostics(ds: seq<Diagnostic>): (r: seq<Diagnostic>)
    ensures StableSort.Sorted(r, DiagKey)
    ensures multiset(r) == multiset(ds)
    ensures forall k :: StableSort.WithKey(r, DiagKey, k) == StableSort.WithKey(ds, DiagKey, k)
  {
    StableSort.Sort(ds, DiagKey)
  }

  /** The sorted list is in ascending (file, line, character) order, pairwise. */
  lemma {:induction false} SortedDiagnosticsAscending(ds: seq<Diagnostic>, i: int, j: int)
    requires 0 <= i < j < |SortDiagnostics(ds)|
    ensures var r := SortDiagnostics(ds);
            StrLess(r[i].file, r[j].file) ||
            (r[i].file == r[j].file && r[i].range.start.line < r[j].range.start.line) ||
            (r[i].file == r[j].file && r[i].range.start.line == r[j].range.start.line &&
             r[i].range.start.character <= r[j].range.start.character)
  {
    var r := SortDiagnostics(ds);
    var a, b := DiagKey(r[i]), DiagKey(r[j]);
    assert KeyLe(a, b);
    if a != b && !StrLess(r[i].file, r[j].file) {
      assert a[0] == b[0] && KeyLess(a[1..], b[1..]);
      var a1, b1 := a[1..], b[1..];
      assert a1 == [N(r[i].range.start.line), N(r[i].range.start.character)];
      assert b1 == [N(r[j].range.start.line), N(r[j].range.start.character)];
      if r[i].range.start.line >= r[j].range.start.line {
        assert a1[0] == b1[0] && KeyLess(a1[1..], b1[1..]);
        assert a1[1..] == [N(r[i].range.start.character)] && b1[1..] == [N(r[j].range.start.character)];
      }
    }
  }

  /** Sorting the sorted list again changes nothing. */
  lemma SortDiagnosticsIdempotent(ds: seq<Diagnostic>)
    ensures SortDiagnostics(SortDiagnostics(ds)) == SortDiagnostics(ds)
  {
    StableSort.SortIdempotent(ds, DiagKey);
  }

  /** Sorting keeps every diagnostic consistent. */
  lemma SortKeepsConsistent(ds: seq<Diagnostic>)
    requires forall i :: 0 <= i < |ds| ==> Consistent(ds[i])
    ensures forall i :: 0 <= i < |SortDiagnostics(ds)| ==> Consistent(SortDiagnostics(ds)[i])
  {
    var r := SortDiagnostics(ds);
    forall i | 0 <= i < |r| ensures Consistent(r[i]) {
      assert r[i] in multiset(ds);
    }
  }
}
