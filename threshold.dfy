/**
 * `_compute_threshold_ok`: the pass/fail verdict of a check against the
 * `fail_on_severity` setting. The scan keeps a running maximum of the levels
 * and stops at the first diagnostic whose level reaches the threshold, so
 * the failure message reports that diagnostic's level, which need not be the
 * largest level in the list.
 */
module Threshold {
  import opened Wrappers
  import opened Diagnostics
  import Text

  /** `fail_on_severity`: "none", or the severity at and above which the check fails. */
  datatype FailOn = FailNone | FailAt(severity: Severity)

  function BreachMessage(threshold: Severity, level: int): string
  {
    "fail_on_severity '" + SeverityName(threshold) + "' breached (max_severity_level=" +
    Text.IntToString(level) + ")."
  }

  /** Index of the first diagnostic whose level is at least `th`. */
  function FirstBreach(ds: seq<Diagnostic>, th: int): (r: Option<nat>)
    ensures r.None? <==> forall j :: 0 <= j < |ds| ==> ds[j].severityLevel < th
    ensures r.Some? ==> r.value < |ds| && ds[r.value].severityLevel >= th &&
                        forall j :: 0 <= j < r.value ==> ds[j].severityLevel < th
  {
    if ds == [] then None
    else if ds[0].severityLevel >= th then Some(0)
    else
      match FirstBreach(ds[1..], th)
      case None => None
      case Some(k) => Some(k + 1)
  }

  /** The largest level in the list, 0 when the list is empty or holds no positive level. */
  function MaxLevel(ds: seq<Diagnostic>): (m: int)
    ensures m >= 0 && forall j :: 0 <= j < |ds| ==> ds[j].severityLevel <= m
    ensures m == 0 || exists j :: 0 <= j < |ds| && ds[j].severityLevel == m
  {
    if ds == [] then 0
    else
      var rest := MaxLevel(ds[1..]);
      assert forall j :: 1 <= j < |ds| ==> ds[j] == ds[1..][j - 1];
      if ds[0].severityLevel > rest then ds[0].severityLevel else rest
  }

  /** The verdict and failure message for a list of diagnostics: the check fails exactly
      when some level reaches the threshold, and the message names the level of the first
      diagnostic that does. */
  function ThresholdVerdict(ds: seq<Diagnostic>, threshold: FailOn): (v: (bool, Option<string>))
    ensures threshold.FailNone? ==> v == (true, None)
    ensures threshold.FailAt? ==>
              (v.0 <==> forall j :: 0 <= j < |ds| ==> ds[j].severityLevel < Level(threshold.severity))
    ensures v.0 <==> v.1.None?
    ensures !v.0 ==> (threshold.FailAt? &&
                      exists k :: 0 <= k < |ds| && ds[k].severityLevel >= Level(threshold.severity) &&
                        (forall j :: 0 <= j < k ==> ds[j].severityLevel < Level(threshold.severity)) &&
                        v.1 == Some(BreachMessage(threshold.severity, ds[k].severityLevel)))
  {
    match threshold
    case FailNone => (true, None)
    case FailAt(s) =>
      match FirstBreach(ds, Level(s))
      case None => (true, None)
      case Some(k) => (false, Some(BreachMessage(s, ds[k].severityLevel)))
  }

  /** `_compute_threshold_ok`: a scan with a running maximum that stops at the first level
      reaching the threshold. */
  method ComputeThresholdOk(ds: seq<Diagnostic>, threshold: FailOn) returns (ok: bool, reason: Option<string>)
    ensures (ok, reason) == ThresholdVerdict(ds, threshold)
  {
    if threshold.FailNone? {
      return true, None;
    }
    var th := Level(threshold.severity);
    var maxSev := 0;
    var i := 0;
    while i < |ds|
      invariant 0 <= i <= |ds|
      invariant forall j :: 0 <= j < i ==> ds[j].severityLevel < th
      invariant maxSev < th
    {
      maxSev := if ds[i].severityLevel > maxSev then ds[i].severityLevel else maxSev;
      if maxSev >= th {
        break;
      }
      i := i + 1;
    }
    if maxSev >= th && maxSev > 0 {
      assert i < |ds| && maxSev == ds[i].severityLevel;
      assert FirstBreach(ds, th) == Some(i);
      return false, Some(BreachMessage(threshold.severity, maxSev));
    }
    return true, None;
  }

  /** The level a failure message reports is at least the threshold's and at most the
      largest level present. */
  lemma ReportedLevelBounds(ds: seq<Diagnostic>, threshold: Severity)
    requires FirstBreach(ds, Level(threshold)).Some?
    ensures var lvl := ds[FirstBreach(ds, Level(threshold)).value].severityLevel;
            Level(threshold) <= lvl <= MaxLevel(ds)
  {
  }

  /** With threshold "warning" and a warning listed before an error, the message reports
      level 2 although the largest level present is 3. */
  lemma ReportedLevelNotTheMaximum(w: Diagnostic, e: Diagnostic)
    requires w.severityLevel == 2 && e.severityLevel == 3
    ensures FirstBreach([w, e], Level(Warning)) == Some(0)
    ensures MaxLevel([w, e]) == 3
  {
    assert [w, e][1..] == [e];
    assert [e][1..] == [];
  }
}
