/**
 * `PyrightRunner.run_check`: one request in, one `CheckResult` out, whichever
 * branch ends the run. Everything the run asks the outside world is a field of
 * `Host`: whether the target exists and is a directory, what `resolve()`
 * returns, the include expansion, how the checker is found, what the
 * subprocess did and what `json.loads` made of its output.
 */
module Runner {
  import opened Wrappers
  import opened PyJson
  import opened Paths
  import opened Diagnostics
  import opened Threshold
  import Version
  import Ordering
  import StableSort
  import Selection
  import Text

  /** `PyrightCheckParams`. */
  datatype CheckParams = CheckParams(
    target: string,
    cwd: Option<string>,
    includeGlobs: Option<seq<string>>,
    excludeGlobs: Option<seq<string>>,
    extraArgs: Option<seq<string>>,
    timeoutSec: int,
    failOn: FailOn)

  /** What `subprocess.run` did: finished, raised `TimeoutExpired`, raised
      `FileNotFoundError`, or raised anything else (which `run_check` does not catch). */
  datatype SpawnOutcome =
    | Completed(returnCode: int, stdout: string, stderr: string)
    | TimedOut
    | SpawnNotFound
    | SpawnRaised

  /** The answers of the filesystem, the process environment and the decoder. */
  datatype Host = Host(
    targetExists: bool,
    targetIsDir: bool,
    targetDisplay: string,          // str(Path(params.target))
    resolvedTarget: Path,           // target_path.resolve()
    resolvedTargetParent: Path,     // target_path.parent.resolve()
    resolvedCwd: Path,              // Path(params.cwd).resolve()
    globRaises: bool,               // root.glob(pat) raises for some include pattern ("" or absolute)
    candidates: seq<Path>,          // list(found): the include globs expanded under the glob root
    which: Option<string>,          // shutil.which("pyright")
    executable: string,             // sys.executable
    moduleProbe: Version.ProbeOutcome,   // python -m pyright --version
    versionProbe: Version.ProbeOutcome,  // <prefix> --version
    venvPath: string,               // _detect_venv_path()
    spawn: SpawnOutcome,            // the checker run itself
    decode: string -> Option<Json>, // json.loads, None where it raises
    resolveFile: string -> string)  // str(Path(file).resolve()) for diagnostic files

  /** `CheckResult`. */
  datatype CheckResult = CheckResult(
    ok: bool,
    failReason: Option<string>,
    command: seq<string>,
    exitCode: int,
    summary: Summary,
    diagnostics: seq<Diagnostic>,
    pyrightVersion: string,
    analyzedRoot: string,
    checkedPaths: seq<string>,
    venvPath: string)

  /** A returned result, or an exception escaping `run_check`. */
  datatype RunOutcome = Returned(result: CheckResult) | Raised

  /** The branch that ends a run. */
  datatype Branch =
    | MissingTarget
    | ExpansionError
    | ToolUnavailable
    | SpawnFailure
    | Timeout
    | SpawnError
    | MalformedOutput
    | Parsed

  const NotFoundPrefix := "Target path not found: "
  const UnavailableReason := "Pyright not available (neither 'pyright' executable nor 'python -m pyright'). " +
    "Install via pipx: 'pipx install pyright-mcp' (bundles pyright), or add pyright to your environment."
  const SpawnFailureReason := "Failed to execute Pyright. Ensure 'pyright' is installed and on PATH."
  const ParseFailurePrefix := "Failed to parse Pyright JSON output. Consider upgrading Pyright or " +
    "checking CLI arguments. Output tail:\n"

  function TimeoutReason(timeoutSec: int): string
  {
    "Timeout after " + Text.IntToString(timeoutSec) + "s while running Pyright. " +
    "Try increasing timeout_sec, reducing include scope, or enabling Pyright caching."
  }

  /** The last at most 1000 characters of the stripped combined output. */
  function OutputTail(stdout: string, stderr: string): (r: string)
    ensures var t := Text.Strip(stdout + "\n" + stderr);
            |r| <= |t| && r == t[|t| - |r|..] && |r| == (if |t| <= 1000 then |t| else 1000)
  {
    var t := Text.Strip(stdout + "\n" + stderr);
    if |t| > 1000 then t[|t| - 1000..] else t
  }

  /** A list option is "given" when it is present and non-empty: Python's truthiness. */
  predicate Given<T>(o: Option<seq<T>>)
  {
    o.Some? && o.value != []
  }

  function OrEmpty<T>(o: Option<seq<T>>): seq<T>
  {
    if o.Some? then o.value else []
  }

  predicate CwdGiven(params: CheckParams)
  {
    params.cwd.Some? && params.cwd.value != []
  }

  function GlobRoot(host: Host): Path
  {
    if host.targetIsDir then host.resolvedTarget else host.resolvedTargetParent
  }

  function AnalyzedRoot(params: CheckParams, host: Host): Path
  {
    if CwdGiven(params) then host.resolvedCwd else GlobRoot(host)
  }

  function Invocation(host: Host): Version.Invocation
  {
    Version.BuildPyrightArgv(host.which, host.executable, host.moduleProbe)
  }

  function VersionInfoOf(host: Host): Version.VersionInfo
  {
    Version.GetPyrightVersion(Invocation(host), host.versionProbe)
  }

  function Strs(ps: seq<Path>): (r: seq<string>)
    ensures |r| == |ps| && forall i :: 0 <= i < |ps| ==> r[i] == ToStr(ps[i])
  {
    if ps == [] then [] else [ToStr(ps[0])] + Strs(ps[1..])
  }

  /** The paths handed to the checker, as `Path` objects: the de-duplicated, component-
      sorted survivors of the exclude filter when include globs are given, otherwise just
      the resolved target (the exclude filter's result is then not used). */
  function CheckedPathObjects(params: CheckParams, host: Host): seq<Path>
  {
    if Given(params.includeGlobs) then
      SortedUnique(Selection.KeepUnexcluded(host.candidates, GlobRoot(host), OrEmpty(params.excludeGlobs)))
    else [host.resolvedTarget]
  }

  function CheckedPaths(params: CheckParams, host: Host): seq<string>
  {
    Strs(CheckedPathObjects(params, host))
  }

  /** The command line: invocation prefix, `--outputjson`, the pass-through arguments, the
      path arguments. */
  function Command(params: CheckParams, host: Host): seq<string>
  {
    var argv := Invocation(host).prefix + ["--outputjson"];
    (if Given(params.extraArgs) then argv + params.extraArgs.value else argv) + CheckedPaths(params, host)
  }

  /** The decoded report when the checker completed and its output has the right shape. */
  function ParsedReport(host: Host): Option<seq<(string, Json)>>
  {
    if !host.spawn.Completed? then None
    else
      match ParsePyrightJson(host.decode(host.spawn.stdout))
      case None => None
      case Some(obj) => Some(obj.fields)
  }

  function BranchOf(params: CheckParams, host: Host): Branch
  {
    if !host.targetExists then MissingTarget
    else if ExpansionRaises(params, host) then ExpansionError
    else if Invocation(host).prefix == [] then ToolUnavailable
    else
      match host.spawn
      case TimedOut => Timeout
      case SpawnNotFound => SpawnFailure
      case SpawnRaised => SpawnError
      case Completed(_, _, _) => if ParsedReport(host).None? then MalformedOutput else Parsed
  }

  /** The report's diagnostics, normalised, in their original order; `None` when
      normalising raises. */
  function NormalizedDiagnostics(report: seq<(string, Json)>, resolve: string -> string): Option<seq<Diagnostic>>
  {
    match RawDiagnostics(report)
    case None => None
    case Some(raw) => NormalizeAll(raw, resolve)
  }

  /** Whether expanding the include globs raises (`_iter_included_paths` runs outside any
      `try`); without include globs nothing is expanded. */
  predicate ExpansionRaises(params: CheckParams, host: Host)
  {
    Given(params.includeGlobs) && host.globRaises
  }

  /** Whether the run reaches the subprocess call: the target exists, the include globs
      expand, and a checker was found. */
  predicate Spawns(params: CheckParams, host: Host)
  {
    host.targetExists && !ExpansionRaises(params, host) && Invocation(host).prefix != []
  }

  /** Whether the run ends in an exception: a raising include expansion, an uncaught spawn
      error, or a parsed report whose diagnostics or summary cannot be normalised. */
  predicate RaisesIn(params: CheckParams, host: Host)
  {
    BranchOf(params, host) == ExpansionError || BranchOf(params, host) == SpawnError ||
    (BranchOf(params, host) == Parsed &&
     (NormalizedDiagnostics(ParsedReport(host).value, host.resolveFile).None? ||
      NormalizeSummary(ParsedReport(host).value).None?))
  }

  /** The shape of every failure branch: not ok, a reason, no diagnostics, an all-zero
      summary. */
  predicate FailureShape(r: CheckResult)
  {
    !r.ok && r.failReason.Some? && r.diagnostics == [] && r.summary == ZeroSummary
  }

  /** A failure result of a run that got as far as building the command. */
  function SpawnFailed(params: CheckParams, host: Host, reason: string, exitCode: int): CheckResult
  {
    CheckResult(false, Some(reason), Command(params, host), exitCode, ZeroSummary, [],
                VersionInfoOf(host).version, ToStr(AnalyzedRoot(params, host)), CheckedPaths(params, host),
                host.venvPath)
  }

  /** What `run_check` produces, branch by branch. */
  function RunOutcomeOf(params: CheckParams, host: Host): RunOutcome
  {
    if !host.targetExists then
      var missingRoot := if CwdGiven(params) then host.resolvedCwd else host.resolvedTargetParent;
      Returned(CheckResult(false, Some(NotFoundPrefix + host.targetDisplay), [], 4, ZeroSummary, [],
                           VersionInfoOf(host).version, ToStr(missingRoot), [], host.venvPath))
    else if ExpansionRaises(params, host) then Raised
    else if Invocation(host).prefix == [] then
      Returned(CheckResult(false, Some(UnavailableReason), [], -1, ZeroSummary, [], [],
                           ToStr(AnalyzedRoot(params, host)), CheckedPaths(params, host), host.venvPath))
    else SpawnedOutcome(params, host)
  }

  /** The outcome from the subprocess call on. */
  function SpawnedOutcome(params: CheckParams, host: Host): RunOutcome
  {
    match host.spawn
    case TimedOut => Returned(SpawnFailed(params, host, TimeoutReason(params.timeoutSec), -1))
    case SpawnNotFound => Returned(SpawnFailed(params, host, SpawnFailureReason, -1))
    case SpawnRaised => Raised
    case Completed(returnCode, stdout, stderr) =>
      match ParsePyrightJson(host.decode(stdout))
      case None => Returned(SpawnFailed(params, host, ParseFailurePrefix + OutputTail(stdout, stderr), returnCode))
      case Some(obj) => ReportOutcome(params, host, returnCode, obj.fields)
  }

  /** The outcome once the report parsed: normalise, sort, summarise, judge. */
  function ReportOutcome(params: CheckParams, host: Host, returnCode: int, report: seq<(string, Json)>): RunOutcome
  {
    match NormalizedDiagnostics(report, host.resolveFile)
    case None => Raised
    case Some(normalized) =>
      match NormalizeSummary(report)
      case None => Raised
      case Some(summary) =>
        var diags := SortDiagnostics(normalized);
        var verdict := ThresholdVerdict(diags, params.failOn);
        var ver := GetOr(report, "version", JNull);
        var version := if Truthy(ver) then PyStr(ver) else VersionInfoOf(host).version;
        Returned(CheckResult(verdict.0, verdict.1, Command(params, host), returnCode, summary, diags, version,
                             ToStr(AnalyzedRoot(params, host)), CheckedPaths(params, host), host.venvPath))
  }

  /** The path arguments (`checked_paths` and `path_args` are computed alike): the
      filtered include expansion, de-duplicated and sorted, or the resolved target alone. */
  method PathArgs(params: CheckParams, host: Host) returns (r: seq<string>)
    ensures r == CheckedPaths(params, host)
  {
    var rootForGlobs := if host.targetIsDir then host.resolvedTarget else host.resolvedTargetParent;
    var paths := Selection.IterIncludedPaths(rootForGlobs, params.includeGlobs, params.excludeGlobs, host.candidates);
    if Given(params.includeGlobs) {
      r := Strs(SortedUnique(paths));
    } else {
      r := [ToStr(host.resolvedTarget)];
    }
  }

  /** The part of `run_check` after the checker completed and its output parsed. */
  method ReportStage(params: CheckParams, host: Host, cmd: seq<string>, checked: seq<string>, root: string,
                     returnCode: int, report: seq<(string, Json)>)
    returns (out: RunOutcome)
    requires cmd == Command(params, host)
    requires checked == CheckedPaths(params, host)
    requires root == ToStr(AnalyzedRoot(params, host))
    ensures out == ReportOutcome(params, host, returnCode, report)
  {
    var raw := RawDiagnostics(report);
    if raw.None? {
      return Raised;
    }
    var normalized := NormalizeAll(raw.value, host.resolveFile);
    if normalized.None? {
      return Raised;
    }
    var diags := normalized.value;
    diags := SortDiagnostics(diags);
    var summary := NormalizeSummary(report);
    if summary.None? {
      return Raised;
    }
    var ok, reason := ComputeThresholdOk(diags, params.failOn);
    var ver := GetOr(report, "version", JNull);
    var version := if Truthy(ver) then PyStr(ver) else VersionInfoOf(host).version;
    return Returned(CheckResult(ok, reason, cmd, returnCode, summary.value, diags, version,
                                root, checked, host.venvPath));
  }

  /** The part of `run_check` from the subprocess call on. */
  method SpawnStage(params: CheckParams, host: Host, cmd: seq<string>, checked: seq<string>, root: string)
    returns (out: RunOutcome)
    requires cmd == Command(params, host)
    requires checked == CheckedPaths(params, host)
    requires root == ToStr(AnalyzedRoot(params, host))
    ensures out == SpawnedOutcome(params, host)
  {
    var version := VersionInfoOf(host).version;
    match host.spawn {
      case TimedOut =>
        return Returned(CheckResult(false, Some(TimeoutReason(params.timeoutSec)), cmd, -1, ZeroSummary, [],
                                    version, root, checked, host.venvPath));
      case SpawnNotFound =>
        return Returned(CheckResult(false, Some(SpawnFailureReason), cmd, -1, ZeroSummary, [],
                                    version, root, checked, host.venvPath));
      case SpawnRaised =>
        return Raised;
      case Completed(returnCode, stdout, stderr) =>
        var parsed := ParsePyrightJson(host.decode(stdout));
        if parsed.None? {
          var reason := ParseFailurePrefix + OutputTail(stdout, stderr);
          return Returned(CheckResult(false, Some(reason), cmd, returnCode, ZeroSummary, [],
                                      version, root, checked, host.venvPath));
        }
        out := ReportStage(params, host, cmd, checked, root, returnCode, parsed.value.fields);
    }
  }

  /** `PyrightRunner.run_check`. */
  method RunCheck(params: CheckParams, host: Host) returns (out: RunOutcome)
    ensures out == RunOutcomeOf(params, host)
  {
    var venvPath := host.venvPath;
    if !host.targetExists {
      var missingRoot := if CwdGiven(params) then host.resolvedCwd else host.resolvedTargetParent;
      return Returned(CheckResult(false, Some(NotFoundPrefix + host.targetDisplay), [], 4, ZeroSummary, [],
                                  VersionInfoOf(host).version, ToStr(missingRoot), [], venvPath));
    }

    var analyzedRoot := if CwdGiven(params) then host.resolvedCwd
                        else if host.targetIsDir then host.resolvedTarget else host.resolvedTargetParent;
    if Given(params.includeGlobs) && host.globRaises {
      return Raised;
    }
    var checkedPaths := PathArgs(params, host);

    var inv := Invocation(host);
    if inv.prefix == [] {
      return Returned(CheckResult(false, Some(UnavailableReason), [], -1, ZeroSummary, [], [],
                                  ToStr(analyzedRoot), checkedPaths, venvPath));
    }

    var argv := inv.prefix + ["--outputjson"];
    if Given(params.extraArgs) {
      argv := argv + params.extraArgs.value;
    }
    var pathArgs := PathArgs(params, host);
    var cmd := argv + pathArgs;

    out := SpawnStage(params, host, cmd, checkedPaths, ToStr(analyzedRoot));
  }

  /** A missing target never reaches the checker: exit code 4, no command, no checked
      paths, and the analysed root is `cwd` when given, else the target's parent. */
  lemma MissingTargetReport(params: CheckParams, host: Host)
    requires !host.targetExists
    ensures var o := RunOutcomeOf(params, host);
            && o.Returned? && FailureShape(o.result)
            && o.result.exitCode == 4
            && o.result.failReason == Some(NotFoundPrefix + host.targetDisplay)
            && o.result.command == [] && o.result.checkedPaths == []
            && o.result.analyzedRoot == ToStr(if CwdGiven(params) then host.resolvedCwd else host.resolvedTargetParent)
  {
  }

  /** Without a checker the run stops before the subprocess: exit code -1, no command, an
      empty version, but the checked paths are already listed. */
  lemma UnavailableReport(params: CheckParams, host: Host)
    requires host.targetExists && !ExpansionRaises(params, host) && Invocation(host).prefix == []
    ensures var o := RunOutcomeOf(params, host);
            && o.Returned? && FailureShape(o.result)
            && o.result.exitCode == -1
            && o.result.failReason == Some(UnavailableReason)
            && o.result.command == [] && o.result.pyrightVersion == []
            && o.result.checkedPaths == CheckedPaths(params, host)
  {
  }

  /** A timeout reports exit code -1 with the command that was attempted and a message
      naming the configured limit. */
  lemma TimeoutReport(params: CheckParams, host: Host)
    requires Spawns(params, host) && host.spawn.TimedOut?
    ensures var o := RunOutcomeOf(params, host);
            && o.Returned? && FailureShape(o.result)
            && o.result.exitCode == -1
            && o.result.command == Command(params, host)
            && o.result.failReason == Some(TimeoutReason(params.timeoutSec))
  {
    assert RunOutcomeOf(params, host) == Returned(SpawnFailed(params, host, TimeoutReason(params.timeoutSec), -1));
  }

  /** A missing executable reports exit code -1 with the command that was attempted. */
  lemma SpawnFailureReport(params: CheckParams, host: Host)
    requires Spawns(params, host) && host.spawn.SpawnNotFound?
    ensures var o := RunOutcomeOf(params, host);
            && o.Returned? && FailureShape(o.result)
            && o.result.exitCode == -1
            && o.result.command == Command(params, host)
            && o.result.failReason == Some(SpawnFailureReason)
  {
    assert RunOutcomeOf(params, host) == Returned(SpawnFailed(params, host, SpawnFailureReason, -1));
  }

  /** The checker ran but its output is no report: the exit code is the checker's, and the
      message ends with at most 1000 characters taken from the end of the stripped output. */
  lemma MalformedOutputReport(params: CheckParams, host: Host)
    requires Spawns(params, host) && host.spawn.Completed? && ParsedReport(host).None?
    ensures var o := RunOutcomeOf(params, host);
            var t := Text.Strip(host.spawn.stdout + "\n" + host.spawn.stderr);
            && o.Returned? && FailureShape(o.result)
            && o.result.exitCode == host.spawn.returnCode
            && o.result.failReason == Some(ParseFailurePrefix + OutputTail(host.spawn.stdout, host.spawn.stderr))
            && exists tail :: |tail| == (if |t| <= 1000 then |t| else 1000) && tail == t[|t| - |tail|..] &&
                              o.result.failReason == Some(ParseFailurePrefix + tail)
  {
    var tail := OutputTail(host.spawn.stdout, host.spawn.stderr);
    assert RunOutcomeOf(params, host).result.failReason == Some(ParseFailurePrefix + tail);
  }

  /** Exactly the uncaught cases escape as exceptions: a spawn error other than timeout and
      missing executable, or a report whose diagnostics or summary do not normalise. */
  lemma RaisesExactly(params: CheckParams, host: Host)
    ensures RunOutcomeOf(params, host).Raised? <==> RaisesIn(params, host)
  {
    if Spawns(params, host) && host.spawn.Completed? && ParsedReport(host).Some? {
      assert BranchOf(params, host) == Parsed;
    }
  }

  /** Every branch but a parsed report fails with no diagnostics and an all-zero summary. */
  lemma FailuresCarryNothing(params: CheckParams, host: Host)
    requires RunOutcomeOf(params, host).Returned? && BranchOf(params, host) != Parsed
    ensures FailureShape(RunOutcomeOf(params, host).result)
  {
    if !host.targetExists {
      MissingTargetReport(params, host);
    } else if ExpansionRaises(params, host) {
      assert false;
    } else if Invocation(host).prefix == [] {
      UnavailableReport(params, host);
    } else if host.spawn.TimedOut? {
      TimeoutReport(params, host);
    } else if host.spawn.SpawnNotFound? {
      SpawnFailureReport(params, host);
    } else if host.spawn.Completed? {
      MalformedOutputReport(params, host);
    }
  }

  /** A result is ok exactly when it has no failure reason. */
  lemma OkIffNoReason(params: CheckParams, host: Host)
    requires RunOutcomeOf(params, host).Returned?
    ensures RunOutcomeOf(params, host).result.ok <==> RunOutcomeOf(params, host).result.failReason.None?
  {
    if Spawns(params, host) && host.spawn.Completed? && ParsedReport(host).Some? {
      ParsedVerdict(params, host);
    }
  }

  /** The verdict of a parsed report: with threshold "none" always ok, otherwise ok exactly
      when every diagnostic's level is below the threshold's. */
  lemma ParsedVerdict(params: CheckParams, host: Host)
    requires Spawns(params, host) && host.spawn.Completed? && ParsedReport(host).Some?
    requires RunOutcomeOf(params, host).Returned?
    ensures var r := RunOutcomeOf(params, host).result;
            && (r.ok <==> r.failReason.None?)
            && (params.failOn.FailNone? ==> r.ok)
            && (params.failOn.FailAt? ==>
                  (r.ok <==> forall j :: 0 <= j < |r.diagnostics| ==>
                                          r.diagnostics[j].severityLevel < Level(params.failOn.severity)))
  {
    var report := ParsedReport(host).value;
    assert RunOutcomeOf(params, host) == ReportOutcome(params, host, host.spawn.returnCode, report);
  }

  /** The diagnostics of a parsed report are the normalised raw diagnostics, every one of
      them, sorted by file, line and character; the summary is the report's own. */
  lemma ParsedDiagnostics(params: CheckParams, host: Host)
    requires Spawns(params, host) && host.spawn.Completed? && ParsedReport(host).Some?
    requires RunOutcomeOf(params, host).Returned?
    ensures var report := ParsedReport(host).value;
            var r := RunOutcomeOf(params, host).result;
            && NormalizedDiagnostics(report, host.resolveFile).Some?
            && r.diagnostics == SortDiagnostics(NormalizedDiagnostics(report, host.resolveFile).value)
            && multiset(r.diagnostics) == multiset(NormalizedDiagnostics(report, host.resolveFile).value)
            && StableSort.Sorted(r.diagnostics, DiagKey)
            && Some(r.summary) == NormalizeSummary(report)
            && r.exitCode == host.spawn.returnCode
            && r.command == Command(params, host)
  {
    var report := ParsedReport(host).value;
    assert RunOutcomeOf(params, host) == ReportOutcome(params, host, host.spawn.returnCode, report);
  }

  /** Every diagnostic a run reports is internally consistent: its level is its severity's. */
  lemma ReportedDiagnosticsConsistent(params: CheckParams, host: Host)
    requires RunOutcomeOf(params, host).Returned?
    ensures forall d :: d in RunOutcomeOf(params, host).result.diagnostics ==> Consistent(d)
  {
    if Spawns(params, host) && host.spawn.Completed? && ParsedReport(host).Some? {
      ParsedDiagnostics(params, host);
      var normalized := NormalizedDiagnostics(ParsedReport(host).value, host.resolveFile).value;
      var ds := RunOutcomeOf(params, host).result.diagnostics;
      assert forall d :: d in normalized ==> Consistent(d);
      forall d | d in ds ensures Consistent(d) {
        assert d in multiset(normalized);
      }
    }
  }

  /** The version comes from the report when it names a truthy one, else from the probe. */
  lemma ReportedVersion(params: CheckParams, host: Host)
    requires Spawns(params, host) && host.spawn.Completed? && ParsedReport(host).Some?
    requires RunOutcomeOf(params, host).Returned?
    ensures var ver := GetOr(ParsedReport(host).value, "version", JNull);
            RunOutcomeOf(params, host).result.pyrightVersion ==
              (if Truthy(ver) then PyStr(ver) else VersionInfoOf(host).version)
  {
    var report := ParsedReport(host).value;
    assert RunOutcomeOf(params, host) == ReportOutcome(params, host, host.spawn.returnCode, report);
  }

  /** The command puts `--outputjson` right after the invocation prefix and ends with the
      checked paths. */
  lemma CommandLayout(params: CheckParams, host: Host)
    ensures var cmd := Command(params, host);
            var pre := Invocation(host).prefix;
            var paths := CheckedPaths(params, host);
            && |cmd| >= |pre| + 1 + |paths|
            && cmd[..|pre|] == pre && cmd[|pre|] == "--outputjson"
            && cmd[|cmd| - |paths|..] == paths
            && cmd == pre + ["--outputjson"] + (if Given(params.extraArgs) then params.extraArgs.value else []) + paths
  {
    var pre := Invocation(host).prefix;
    var extra := if Given(params.extraArgs) then params.extraArgs.value else [];
    var paths := CheckedPaths(params, host);
    assert Command(params, host) == pre + ["--outputjson"] + extra + paths;
    ArgvLayout(pre, extra, paths);
  }

  lemma ArgvLayout(pre: seq<string>, extra: seq<string>, paths: seq<string>)
    ensures var cmd := pre + ["--outputjson"] + extra + paths;
            && |cmd| >= |pre| + 1 + |paths|
            && cmd[..|pre|] == pre && cmd[|pre|] == "--outputjson"
            && cmd[|cmd| - |paths|..] == paths
  {
  }

  /** With include globs the checked paths are the non-excluded candidates, each once, in
      ascending component order; without them, the resolved target alone. */
  lemma CheckedPathsSelection(params: CheckParams, host: Host)
    ensures Given(params.includeGlobs) ==>
              var ps := CheckedPathObjects(params, host);
              && (forall p :: p in ps <==> p in host.candidates &&
                                            !Selection.Excluded(p, GlobRoot(host), OrEmpty(params.excludeGlobs)))
              && (forall i :: 0 < i < |ps| ==> Ordering.KeyLess(PathKey(ps[i - 1]), PathKey(ps[i])))
    ensures !Given(params.includeGlobs) ==> CheckedPaths(params, host) == [ToStr(host.resolvedTarget)]
  {
  }
}
