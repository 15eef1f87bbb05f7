# pyright-mcp core, modelled in Dafny

pyright-mcp wraps the Pyright type checker for automated callers. This project models two
parts of it.

- **`PyrightRunner.run_check`** (runner.py). It takes one set of check parameters, locates
  the checker, works out which paths to check, and runs the checker with `--outputjson`.
  It then validates and normalises the JSON report, sorts the diagnostics, and judges them
  against a `fail_on_severity` threshold. Every branch ends in a `CheckResult`. A missing
  target, a missing checker, a timeout, a failed spawn and unparseable output each end in a
  failure result with its own fixed message.
- **`find_pyright_config`** (config.py). It searches upward from a start directory for
  `pyrightconfig.json`, or else for a `pyproject.toml` with a `[tool.pyright]` header.

Everything the core asks the outside world becomes an explicit input value:

- the filesystem (existence, `is_file`, `resolve`, reading a file, glob expansion);
- `shutil.which` and the interpreter path;
- the outcome of each subprocess;
- what `json.loads` decodes;
- the detected virtual-environment path.

`run_check` is the method `Runner.RunCheck`. It is proved equal to the branch-by-branch
function `Runner.RunOutcomeOf`, and each branch's promises are proved as lemmas about that
function. An exception that escapes `run_check` is the outcome `Raised`. The threshold scan,
the exclude filter and the upward configuration search are loops in the source, so they
are methods with loop invariants, each proved against a specification function.

Module layout, one file each:

- `Wrappers`: the `Option` type.
- `Text`: Python whitespace, `str.strip`, `int()` on strings, integer rendering.
- `PyJson`: decoded JSON values, `dict.get`, truthiness, `int()`, `str()`.
- `Ordering`: Python's order on the sort keys.
- `StableSort`: `list.sort` / `sorted`.
- `Paths`: `pathlib` paths as component sequences.
- `Glob`: `fnmatch`.
- `Version`: checker discovery and the version regular expressions.
- `Diagnostics`: the report shape and its normalisation.
- `Threshold`: the pass/fail verdict.
- `Selection`: include/exclude path selection.
- `Runner`: `run_check`.
- `Config`: the configuration search.

Three behaviours of the code are easy to misread, and the model keeps them as written:

- **Threshold message.** The message labels its number `max_severity_level=`
  (runner.py:275). The scan in `_compute_threshold_ok` stops at the first diagnostic whose
  level reaches the threshold (runner.py:269-273), so the number is the level of that
  diagnostic, not the largest level in the report. `Threshold.ReportedLevelNotTheMaximum`
  gives a list where the two differ.
- **Path order.** `sorted(set(paths))` (runner.py:322) sorts `Path` objects, which compare
  component by component, not by their string form.
  `Paths.ComponentOrderDiffersFromStringOrder` gives two paths that the two orders rank
  differently.
- **Configuration header.** The header test is the regular expression
  `(?m)^\s*\[tool\.pyright\]\s*$`. Because `\s` also matches newlines, one match may span
  several lines. `Config.SectionIffHeaderLine` proves that this still amounts to "some line
  is the header with only whitespace around it".

## Model

| member | source | states |
|---|---|---|
| Text.Strip | src/pyright_mcp/runner.py:119 | `str.strip()`: the result is the input with only whitespace (Python's `isspace` set) removed at each end, and it neither starts nor ends with whitespace |
| Text.StripPadded | src/pyright_mcp/runner.py:432 | stripping whitespace + core + whitespace gives back the core when the core has non-whitespace ends |
| Text.NatToDigits | src/pyright_mcp/runner.py:275 | the decimal rendering of n is a non-empty digit string without a leading zero whose value is n |
| Text.ParseIntOfDigits | src/pyright_mcp/runner.py:252-253 | `int()` of a digit string is its decimal value |
| Text.ParseIntOfIntToString | src/pyright_mcp/runner.py:252-253 | `int()` reads the rendering of every integer, negative ones included, back as that integer |
| PyJson.Lookup | src/pyright_mcp/runner.py:243-248 | `dict.get` on a decoded object: absent exactly when no member has the key, otherwise the value of the last member with that key |
| PyJson.IntOf | src/pyright_mcp/runner.py:252-253 | `int()` on a decoded value: a number is itself, a boolean 1 or 0, a string is read as an integer literal; null, a list or an object raises |
| PyJson.PyStr | src/pyright_mcp/runner.py:243-257 | `str()` on a decoded value: a string is itself, null is `"None"`, a boolean `"True"` or `"False"`, a number its decimal rendering, which `int()` reads back as that number |
| Ordering.KeyLeTotalOrder | src/pyright_mcp/runner.py:459 | the order on sort keys (tuples of strings and integers) is reflexive, antisymmetric, transitive and total |
| Ordering.KeyLessIrreflexive | src/pyright_mcp/runner.py:459 | no sort key is below itself |
| Ordering.StrLessTotal | src/pyright_mcp/runner.py:459 | any two different strings are ordered one way or the other |
| StableSort.Sort | src/pyright_mcp/runner.py:459 | the sort result is ascending, is a permutation of the input, and keeps the input order among equal keys |
| StableSort.SortSortedIsIdentity | src/pyright_mcp/runner.py:459 | sorting an ascending list returns it unchanged |
| StableSort.SortIdempotent | src/pyright_mcp/runner.py:459 | sorting twice is sorting once |
| Paths.Parent | src/pyright_mcp/config.py:57-60 | the root is its own parent; any other path's parent is one component shorter and is the path without its name |
| Paths.RelativePosix | src/pyright_mcp/runner.py:229-233 | `relative_to` succeeds exactly when the root is a prefix of the path, gives `"."` for the root itself, and the result has no backslash left |
| Paths.RelativePosixValue | src/pyright_mcp/runner.py:229-231 | below the root, `str(p)` is `str(root)`, a `/` (none after the filesystem root), then the relative path, with backslashes turned into slashes on both sides |
| Paths.RelativePosixPlain | src/pyright_mcp/runner.py:229-231 | for a path without backslashes, the relative path is exactly the text of `str(p)` after `str(root)` and its `/` |
| Paths.RelativePosixExample | src/pyright_mcp/runner.py:229-235 | `/w/sub/x.py` under `/w` has the relative path `sub/x.py` |
| Paths.SlashBackslashes | src/pyright_mcp/runner.py:231 | `.replace("\\", "/")`: same length, every backslash becomes `/`, every other character stays, and no backslash remains |
| Paths.PathKeyInjective | src/pyright_mcp/runner.py:322 | different paths have different sort keys |
| Paths.Dedup | src/pyright_mcp/runner.py:322 | `set(paths)` as a list: the same members as the input, each once |
| Paths.SortedUnique | src/pyright_mcp/runner.py:322 | `sorted(set(paths))` has exactly the input's members, strictly ascending in component order |
| Paths.ComponentOrderDiffersFromStringOrder | src/pyright_mcp/runner.py:322 | `/a/b` sorts before `/a-c` as a path, although `"/a-c"` is below `"/a/b"` as a string |
| Glob.Compile | src/pyright_mcp/runner.py:235 | a pattern without `*`, `?` or `[` compiles to one literal per character |
| Glob.StarMatchesAll | src/pyright_mcp/runner.py:235 | `*` matches every name, `/` included |
| Glob.QuestionMatchesOneChar | src/pyright_mcp/runner.py:235 | `?` matches exactly the one-character names |
| Glob.LiteralPattern | src/pyright_mcp/runner.py:235 | a pattern without special characters matches exactly the name spelled the same |
| Glob.StarThenLiteral | src/pyright_mcp/runner.py:235 | `*` plus a literal tail matches exactly the names ending in that tail |
| Glob.ClassRange | src/pyright_mcp/runner.py:235 | `[lo-hi]` matches exactly the one-character names between `lo` and `hi` |
| Glob.NegatedClass | src/pyright_mcp/runner.py:235 | `[!x]` matches exactly the one-character names other than `x` |
| Glob.UnclosedBracketLiteral | src/pyright_mcp/runner.py:235 | a `[` that is never closed is an ordinary character, so such a pattern matches only itself |
| Version.TripleAtIff | src/pyright_mcp/runner.py:118 | the greedy matcher ends at e exactly when the text from p to e is `digits.digits.digits` with a maximal last run |
| Version.MatchAt | src/pyright_mcp/runner.py:118 | the match of `\b(\d+\.\d+\.\d+)\b` at a position, or a proof that there is none there |
| Version.FindFrom | src/pyright_mcp/runner.py:118 | the leftmost match at or after a position, or none anywhere after it |
| Version.ParseVersionString | src/pyright_mcp/runner.py:116-119 | the leftmost version triple in the text, or the stripped text when there is none |
| Version.SupportsIffVersionFound | src/pyright_mcp/runner.py:116-124 | the output-JSON capability holds exactly when the probe output contains a version triple |
| Version.IsTripleIff | src/pyright_mcp/runner.py:124 | a whole string matches `^\d+\.\d+\.\d+$` exactly when it is three non-empty digit runs joined by dots |
| Version.BuildPyrightArgv | src/pyright_mcp/runner.py:155-183 | a non-empty `which` result wins; otherwise `python -m pyright` when its probe returned 0 with output; otherwise no invocation |
| Version.GetPyrightVersion | src/pyright_mcp/runner.py:185-203 | no invocation gives empty info; otherwise the display name, or the first argument when the display is empty; a completed probe gives the version parsed from its output, a raising one an empty version; the capability flag holds exactly when the probe output contains a version |
| Version.NoCheckerNoVersion | src/pyright_mcp/runner.py:164-188 | with no `pyright` on the path and a failed module probe, the version info is empty |
| Diagnostics.Level | src/pyright_mcp/runner.py:17-21 | every severity level lies between 1 and 3 |
| Diagnostics.SeverityOf | src/pyright_mcp/runner.py:244-245 | a severity other than information is only produced from its exact name |
| Diagnostics.SubObject | src/pyright_mcp/runner.py:246-248 | `x.get(key) or {}`: a missing or falsy member is the empty object, an object is its members, any other truthy value raises at the next `.get` |
| Diagnostics.Coordinate | src/pyright_mcp/runner.py:252-253 | `int(pos.get(key, 0))`: a missing coordinate is 0, a present one is `int()` of its value |
| Diagnostics.PositionOf | src/pyright_mcp/runner.py:252-253 | a position normalises exactly when its line and character both pass `int()`, and then carries those two values; the empty object is (0, 0) |
| Diagnostics.RangeOf | src/pyright_mcp/runner.py:246-254 | a missing range is all zeros; otherwise the range normalises exactly when it, its start and its end are objects (or falsy) whose positions normalise, and start and end are those positions |
| Diagnostics.MissingEndpointDefaults | src/pyright_mcp/runner.py:247-254 | inside a range that normalises, a missing start or end is position (0, 0) |
| Diagnostics.StartOnlyRange | src/pyright_mcp/runner.py:246-254 | a range with a numeric start and no end keeps the start's line and character and ends at (0, 0) |
| Diagnostics.RuleOf | src/pyright_mcp/runner.py:259-260 | the rule is kept exactly when it is a string, and then unchanged |
| Diagnostics.NormalizeDiag | src/pyright_mcp/runner.py:242-262 | a non-object raises; an object normalises exactly when its range does; the result is consistent (level from the table, code equal to rule) and each field comes from the raw member named for it, defaults applied |
| Diagnostics.SeverityNormalization | src/pyright_mcp/runner.py:244-256 | a recognised severity keeps its name and table level; anything else becomes information, level 1 |
| Diagnostics.AbsentFieldsDefault | src/pyright_mcp/runner.py:243-257 | a diagnostic without a range always normalises; file and message default to the empty string |
| Diagnostics.NullLineRaises | src/pyright_mcp/runner.py:252 | a null line number makes normalisation raise |
| Diagnostics.ParsePyrightJson | src/pyright_mcp/runner.py:87-113 | accepted exactly when the text decodes to an object with both `summary` and `generalDiagnostics`; the accepted document is unchanged |
| Diagnostics.RawDiagnostics | src/pyright_mcp/runner.py:457 | an absent or falsy member is the empty list, a non-empty list is its items, and any other truthy value raises |
| Diagnostics.NormalizeAll | src/pyright_mcp/runner.py:458 | the comprehension succeeds exactly when every element normalises, and then it normalises each element in place |
| Diagnostics.NormalizeSummary | src/pyright_mcp/runner.py:462-469 | the summary normalises exactly when the summary member is an object (or falsy) whose four counters all pass `int()`; the counters are those values and `time_sec` is the raw `timeInSec` (0 when absent) |
| Diagnostics.SortDiagnostics | src/pyright_mcp/runner.py:459 | the diagnostics are sorted by (file, line, character), permuted only, stable among equal keys |
| Diagnostics.SortedDiagnosticsAscending | src/pyright_mcp/runner.py:459 | any earlier diagnostic has a smaller file, or the same file and a smaller line, or the same file and line and no larger character |
| Diagnostics.SortDiagnosticsIdempotent | src/pyright_mcp/runner.py:459 | re-sorting the sorted diagnostics changes nothing |
| Diagnostics.SortKeepsConsistent | src/pyright_mcp/runner.py:456-459 | sorting keeps every diagnostic consistent |
| Threshold.FirstBreach | src/pyright_mcp/runner.py:269-273 | none exactly when every level is below the threshold; otherwise the first index whose level reaches it |
| Threshold.MaxLevel | src/pyright_mcp/runner.py:269-271 | the largest level present (0 for none), an upper bound attained by some diagnostic |
| Threshold.ThresholdVerdict | src/pyright_mcp/runner.py:265-277 | "none" always passes; otherwise the check passes exactly when every level is below the threshold; a reason is given exactly on failure and names the first breaching level |
| Threshold.ComputeThresholdOk | src/pyright_mcp/runner.py:265-277 | the running-maximum scan with early exit returns exactly the verdict and reason above |
| Threshold.ReportedLevelBounds | src/pyright_mcp/runner.py:272-275 | the reported level is at least the threshold's level and at most the largest level present |
| Threshold.ReportedLevelNotTheMaximum | src/pyright_mcp/runner.py:269-275 | threshold warning with a warning before an error: the breach is found at the warning (level 2) while the maximum is 3 |
| Selection.KeepUnexcluded | src/pyright_mcp/runner.py:225-238 | a path is kept exactly when no exclude pattern matches its relative path or its name, and the kept paths keep their order |
| Selection.NoExcludeKeepsAll | src/pyright_mcp/runner.py:225-239 | without exclude patterns every path is kept |
| Selection.KeepStep | src/pyright_mcp/runner.py:228-237 | each loop step appends the path unless it is excluded |
| Selection.MatchesExclude | src/pyright_mcp/runner.py:229-235 | the pattern scan reports a hit exactly when the path is excluded |
| Selection.IterIncludedPaths | src/pyright_mcp/runner.py:206-239 | the candidates when include globs are given, else the root, minus the excluded paths, in order |
| Selection.LiteralNameExcluded | src/pyright_mcp/runner.py:234-236 | a path whose name is listed literally among the exclude patterns is dropped |
| Runner.OutputTail | src/pyright_mcp/runner.py:432-433 | the excerpt is the last min(1000, n) characters of the stripped combined output of length n: all of it when short, exactly the final 1000 otherwise |
| Runner.Strs | src/pyright_mcp/runner.py:322 | each path is rendered with `str()`, in order |
| Runner.PathArgs | src/pyright_mcp/runner.py:316-324 | the path arguments equal the checked paths |
| Runner.ReportStage | src/pyright_mcp/runner.py:456-485 | normalising, sorting, summarising and judging a parsed report gives the outcome the specification function defines |
| Runner.SpawnStage | src/pyright_mcp/runner.py:373-454 | from the subprocess call on, each exception and each output gives its specified outcome |
| Runner.RunCheck | src/pyright_mcp/runner.py:285-485 | `run_check` returns, or raises, exactly what the branch-by-branch specification says |
| Runner.MissingTargetReport | src/pyright_mcp/runner.py:288-307 | a missing target gives exit code 4, the not-found message, no command, no checked paths, and as analysed root `cwd` when given, else the target's parent |
| Runner.UnavailableReport | src/pyright_mcp/runner.py:326-350 | no checker gives exit code -1, the install hint, no command and an empty version, but the checked paths are listed |
| Runner.TimeoutReport | src/pyright_mcp/runner.py:385-406 | a timeout gives exit code -1, the attempted command and a message naming the limit in seconds |
| Runner.SpawnFailureReport | src/pyright_mcp/runner.py:407-426 | a missing executable at spawn time gives exit code -1, the attempted command and the fixed message |
| Runner.MalformedOutputReport | src/pyright_mcp/runner.py:428-454 | unparseable output keeps the checker's exit code; the message is the fixed prefix followed by exactly the last min(1000, n) characters of the stripped combined output |
| Runner.RaisesExactly | src/pyright_mcp/runner.py:285-469 | the run raises exactly when the include globs are given and their expansion raises, when the spawn raises something other than a timeout or a missing file, or when a parsed report's diagnostics or summary cannot be normalised |
| Runner.FailuresCarryNothing | src/pyright_mcp/runner.py:288-454 | every branch other than a parsed report fails with a reason, no diagnostics and an all-zero summary |
| Runner.OkIffNoReason | src/pyright_mcp/runner.py:471-475 | a result is ok exactly when it has no failure reason |
| Runner.ParsedVerdict | src/pyright_mcp/runner.py:471-475 | for a parsed report, "none" is always ok; otherwise ok exactly when every reported level is below the threshold |
| Runner.ParsedDiagnostics | src/pyright_mcp/runner.py:456-479 | the reported diagnostics are the stable sort of the normalised raw ones (ascending, a permutation); the summary, exit code and command are the report's, the checker's and the built one |
| Runner.ReportedDiagnosticsConsistent | src/pyright_mcp/runner.py:456-479 | every reported diagnostic has its severity's level and a code equal to its rule |
| Runner.ReportedVersion | src/pyright_mcp/runner.py:480 | the version is the report's when that is truthy, else the probed one |
| Runner.CommandLayout | src/pyright_mcp/runner.py:353-371 | the command is exactly the invocation prefix, `--outputjson`, the extra arguments when given, then the checked paths |
| Runner.CheckedPathsSelection | src/pyright_mcp/runner.py:316-324 | with include globs the checked paths are the non-excluded candidates, each once, strictly ascending in component order; without them, the resolved target alone |
| Config.MatchGivesLine | src/pyright_mcp/config.py:16 | every match of the header pattern lies inside one line, and that line strips to `[tool.pyright]` |
| Config.LineGivesMatch | src/pyright_mcp/config.py:16 | every line that strips to `[tool.pyright]` is matched by the pattern |
| Config.SectionIffHeaderLine | src/pyright_mcp/config.py:10-16 | the header search succeeds exactly when some line is `[tool.pyright]` with only whitespace around it |
| Config.SectionAfterOtherTables | src/pyright_mcp/config.py:16 | the header is found on its own line after other tables |
| Config.CommentedHeaderIgnored | src/pyright_mcp/config.py:16 | a header behind a comment sign is not found |
| Config.SearchUpNearest | src/pyright_mcp/config.py:35-69 | the search stops at the deepest ancestor holding a configuration and reports it; with none it reports not found |
| Config.FindPyrightConfig | src/pyright_mcp/config.py:19-69 | the upward loop (ending at the root, its own parent) returns exactly the search's result |
| Config.FoundIffSomeAncestorHolds | src/pyright_mcp/config.py:35-69 | found exactly when the start or an ancestor holds a configuration; the reported directory is the nearest such one, and the path is the file inside it |
| Config.PrefersPyrightJson | src/pyright_mcp/config.py:36-54 | in the chosen directory the kind is `pyrightconfig.json` exactly when that file is there, and then the path is that file; `pyproject.toml` is chosen only with its section present, and then the path is that file |
| Config.ResultShape | src/pyright_mcp/config.py:32-69 | `searched_from` is always the resolved start; path and kind are set exactly when found; the kind is never "unknown"; not found reports the start as `resolve_dir` |
| Config.BothFilesInStart | src/pyright_mcp/config.py:36-44 | with both files in the start directory, `pyrightconfig.json` in the start is reported |
| Config.UnreadablePyprojectIgnored | src/pyright_mcp/config.py:11-47 | with `pyproject.toml` unreadable, a directory qualifies exactly when it holds `pyrightconfig.json` |

## Left out

- JSON decoding itself (`json.loads`) is an input, `Host.decode`. Its result is modelled,
  with integers as the only numbers.
- Floating point: `time_sec` keeps the raw decoded value of `timeInSec`.
  `float()` is not modelled.
- `Diagnostics.NormalizeSummary`: does not model that `float()` of a malformed `timeInSec`
  raises. In the code that makes `run_check` raise; the model returns the summary.
- `PyJson.PyStr`: quoting of strings nested inside lists or objects is simplified to plain
  single quotes. Top-level strings and scalars are rendered exactly.
- `_detect_venv_path`: it reads environment variables and interpreter state, so its
  result is the input `Host.venvPath`.
- The include expansion (`root.glob`, `rglob`, `is_file`, `resolve`) is filesystem work.
  Its result, the candidate list, is an input (`Host.candidates`). Whether `root.glob`
  raises (for an empty or an absolute pattern, say) is the input `Host.globRaises`; the
  model does not decide which patterns raise. A raising expansion escapes `run_check`
  before the checker is looked up. `run_check` computes the selection twice; both
  computations see the same filesystem, so they agree.
- `Path.resolve`, `Path.exists`, `is_dir`, `Path.cwd` and `str(Path(target))` are inputs;
  symlinks, `..` and relative paths are not modelled. Paths are absolute, with `/`-separated components.
- Subprocesses (`--version` probes and the check run) are inputs: their outcome, return
  code and output. Timing and the `timeout` mechanism are not modelled.
- The diagnostics list is sorted in place (`diags.sort`). The model sorts its value; aliasing
  plays no part because the list is local.
- Unicode: strings are sequences of code points; `\d` and `\w` are read as ASCII, and
  `errors="replace"` decoding is assumed to have already happened.
- `get_pyright_version` runs twice in `run_check` (runner.py:303 and runner.py:326), and
  `_build_pyright_argv` runs inside each call and once more on its own (runner.py:186 and
  runner.py:327). The model gives every one of these calls the same `which` result and the
  same probe outcomes (`Host.which`, `Host.moduleProbe`, `Host.versionProbe`). It does not
  capture an environment that changes between the calls.
- `Text.ParseInt`: reads only ASCII digits without underscores. Python's `int()` also
  accepts `1_000` (PEP 515) and non-ASCII decimal digits; the model treats both as raising.
  `PyJson.IntOf` inherits this for string values.
- The server, command-line front end and result models (server_main.py, cli.py, models.py) are not part of this model.
