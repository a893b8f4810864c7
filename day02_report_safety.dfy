/** Reactor report safety (2/day2.go): a report is safe when its levels move in one direction
    by steps of 1 to 3; with the problem dampener an unsafe report also counts when deleting
    one level makes it safe. A report too short to have a direction stops the program, which
    the model reports as an error. */
module ReportSafety {

  datatype Result<T> = Ok(value: T) | Err(message: string)

  const MaxSafeDist: int := 3

  const LengthViolation: string := "Violations around length assumptions"

  function Abs(x: int): int
  {
    if x < 0 then -x else x
  }

  /** isPairSafe: the step a -> b has size 1 to 3 and goes the stated way. */
  function IsPairSafe(a: int, b: int, increasing: bool): (safe: bool)
    ensures safe <==> 1 <= Abs(a - b) <= MaxSafeDist && (if increasing then a < b else b < a)
  {
    var diff := Abs(a - b);
    if diff > MaxSafeDist || diff < 1 then false
    else if (b < a && increasing) || (b > a && !increasing) then false
    else true
  }

  /** The direction is fixed by the first pair, and every adjacent pair must be safe. */
  predicate ReportSafe(report: seq<int>)
    requires |report| >= 2
  {
    forall i :: 0 <= i < |report| - 1 ==> IsPairSafe(report[i], report[i + 1], report[1] > report[0])
  }

  /** calculateIsReportSafe: a report shorter than two levels is fatal; otherwise the loop
      stops at the first unsafe pair. */
  method CalculateIsReportSafe(report: seq<int>) returns (r: Result<bool>)
    ensures |report| < 2 <==> r.Err?
    ensures r.Err? ==> r.message == LengthViolation
    ensures r.Ok? ==> r.value == ReportSafe(report)
  {
    if |report| < 2 {
      return Err(LengthViolation);
    }
    var increasing := report[1] > report[0];
    var i := 0;
    while i < |report| - 1
      invariant 0 <= i <= |report| - 1
      invariant forall k :: 0 <= k < i ==> IsPairSafe(report[k], report[k + 1], increasing)
    {
      if !IsPairSafe(report[i], report[i + 1], increasing) {
        return Ok(false);
      }
      i := i + 1;
    }
    return Ok(true);
  }

  /** A safe report is strictly monotone, in the direction of its first pair, with every
      step between 1 and 3. */
  lemma {:induction false} SafeReportIsMonotone(report: seq<int>, i: int, j: int)
    requires |report| >= 2 && ReportSafe(report)
    requires 0 <= i < j < |report|
    ensures report[1] > report[0] ==> report[i] + (j - i) <= report[j] <= report[i] + 3 * (j - i)
    ensures report[1] <= report[0] ==> report[i] - 3 * (j - i) <= report[j] <= report[i] - (j - i)
    decreases j - i
  {
    assert IsPairSafe(report[j - 1], report[j], report[1] > report[0]);
    if i < j - 1 {
      SafeReportIsMonotone(report, i, j - 1);
    }
  }

  /** The report with the level at index i deleted. */
  function Remove(report: seq<int>, i: int): (s: seq<int>)
    requires 0 <= i < |report|
    ensures |s| == |report| - 1
    ensures forall k :: 0 <= k < |s| ==> s[k] == (if k < i then report[k] else report[k + 1])
  {
    report[..i] + report[i + 1..]
  }

  /** Whether a report is counted. With the dampener, an unsafe report of two levels is
      fatal, because its first copy with a level deleted is too short. */
  function Verdict(report: seq<int>, margin: bool): Result<bool>
  {
    if |report| < 2 then Err(LengthViolation)
    else if ReportSafe(report) then Ok(true)
    else if !margin then Ok(false)
    else if |report| < 3 then Err(LengthViolation)
    else Ok(exists i :: 0 <= i < |report| && SafeWithout(report, i))
  }

  /** Deleting level i leaves a safe report. */
  predicate SafeWithout(report: seq<int>, i: int)
    requires 0 <= i < |report|
  {
    |report| >= 3 && ReportSafe(Remove(report, i))
  }

  /** The number of counted reports, or the first fatal error. */
  function Tally(reports: seq<seq<int>>, margin: bool): (r: Result<nat>)
    ensures r.Ok? ==> r.value <= |reports|
  {
    if reports == [] then Ok(0)
    else
      match Tally(reports[..|reports| - 1], margin)
      case Err(m) => Err(m)
      case Ok(n) =>
        match Verdict(reports[|reports| - 1], margin)
        case Err(m) => Err(m)
        case Ok(counted) => Ok(if counted then n + 1 else n)
  }

  /** A fatal error in a prefix of the reports is the error of the whole batch. */
  lemma {:induction false} ErrorStops(reports: seq<seq<int>>, k: int, margin: bool)
    requires 0 <= k <= |reports| && Tally(reports[..k], margin).Err?
    ensures Tally(reports, margin) == Tally(reports[..k], margin)
    decreases |reports| - k
  {
    if k < |reports| {
      assert reports[..k + 1][..k] == reports[..k];
      ErrorStops(reports, k + 1, margin);
    } else {
      assert reports[..k] == reports;
    }
  }

  /** calculateSafeReports: each report is checked; with the dampener an unsafe one is retried
      on copies with one level deleted, in index order, stopping at the first safe copy. The
      reports themselves are never changed. */
  method CalculateSafeReports(reports: seq<seq<int>>, margin: bool) returns (r: Result<nat>)
    ensures r == Tally(reports, margin)
  {
    var safeReports: nat := 0;
    var k := 0;
    while k < |reports|
      invariant 0 <= k <= |reports|
      invariant Tally(reports[..k], margin) == Ok(safeReports)
    {
      assert reports[..k + 1][..k] == reports[..k];
      var verdict := CheckReport(reports[k], margin);
      if verdict.Err? {
        assert Tally(reports[..k + 1], margin).Err?;
        ErrorStops(reports, k + 1, margin);
        return Err(verdict.message);
      }
      if verdict.value {
        safeReports := safeReports + 1;
      }
      k := k + 1;
    }
    assert reports[..k] == reports;
    return Ok(safeReports);
  }

  /** The check of one report inside calculateSafeReports, dampener included. */
  method CheckReport(report: seq<int>, margin: bool) returns (r: Result<bool>)
    ensures r == Verdict(report, margin)
  {
    r := CalculateIsReportSafe(report);
    if r.Ok? && !r.value && margin {
      r := Dampen(report);
    }
  }

  /** The dampener: copies of an unsafe report with one level deleted are checked in index
      order until one is safe; a copy too short to check is fatal. */
  method Dampen(report: seq<int>) returns (r: Result<bool>)
    requires |report| >= 2 && !ReportSafe(report)
    ensures r == Verdict(report, true)
  {
    var i := 0;
    var madeSafe := false;
    while i < |report| && !madeSafe
      invariant 0 <= i <= |report|
      invariant i > 0 ==> |report| >= 3
      invariant !madeSafe ==> forall m :: 0 <= m < i ==> !SafeWithout(report, m)
      invariant madeSafe ==> 0 < i && SafeWithout(report, i - 1)
    {
      var result := CalculateIsReportSafe(Remove(report, i));
      if result.Err? {
        return result;
      }
      madeSafe := result.value;
      i := i + 1;
    }
    return Ok(madeSafe);
  }

  /** The dampener only adds reports: when it runs to completion, so does the plain count, and
      the dampened count lies between the plain count and the number of reports. */
  lemma {:induction false} MarginCountsMore(reports: seq<seq<int>>)
    requires Tally(reports, true).Ok?
    ensures Tally(reports, false).Ok?
    ensures Tally(reports, false).value <= Tally(reports, true).value <= |reports|
  {
    if reports != [] {
      MarginCountsMore(reports[..|reports| - 1]);
    }
  }
}
