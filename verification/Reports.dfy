/** The JSON report: canonical order, summary and exit code. Redaction is an arbitrary function `redact`. */
module Reports {
  import opened ByteOrder
  import opened CheckResults
  import opened Truncation
  import opened Utf8

  datatype Summary = Summary(pass: nat, fail: nat, notApplicable: nat, insufficientData: nat, error: nat)

  type Redactor = string -> (string, bool)

  datatype JSONReport = JSONReport(exitCode: int, summary: Summary, results: seq<CheckResult>)

  /** How many results carry the status. */
  function CountStatus(results: seq<CheckResult>, status: Status): nat {
    if results == [] then 0
    else CountStatus(results[..|results| - 1], status) + (if results[|results| - 1].status == status then 1 else 0)
  }

  function Tally(results: seq<CheckResult>): Summary {
    Summary(CountStatus(results, Pass), CountStatus(results, Fail), CountStatus(results, NotApplicable),
            CountStatus(results, InsufficientData), CountStatus(results, Error))
  }

  method SummarizeResults(results: seq<CheckResult>) returns (summary: Summary)
    ensures summary == Tally(results)
  {
    var pass, fail, notApplicable, insufficientData, error := 0, 0, 0, 0, 0;
    var i := 0;
    while i < |results|
      invariant 0 <= i <= |results|
      invariant Summary(pass, fail, notApplicable, insufficientData, error) == Tally(results[..i])
    {
      assert results[..i + 1][..i] == results[..i];
      match results[i].status {
        case Pass => pass := pass + 1;
        case Fail => fail := fail + 1;
        case NotApplicable => notApplicable := notApplicable + 1;
        case InsufficientData => insufficientData := insufficientData + 1;
        case Error => error := error + 1;
        case Other(_) =>
      }
      i := i + 1;
    }
    assert results[..i] == results;
    return Summary(pass, fail, notApplicable, insufficientData, error);
  }

  function ExitCodeForResults(results: seq<CheckResult>): int {
    var summary := Tally(results);
    if summary.error > 0 || summary.insufficientData > 0 then 2
    else if summary.fail > 0 then 1
    else 0
  }

  function SanitizeEvidence(ev: Evidence, includeRaw: bool, redact: Redactor): Evidence {
    if ev.raw == "" || includeRaw then ev
    else
      var (sanitized, redacted) := redact(ev.raw);
      var (raw, truncated) := TruncatedEvidenceRaw(sanitized, DEFAULT_EVIDENCE_RAW_LIMIT);
      ev.(raw := raw, redacted := ev.redacted || redacted, truncated := ev.truncated || truncated)
  }

  function SanitizeResult(r: CheckResult, includeRaw: bool, redact: Redactor): CheckResult {
    r.(evidence := SanitizeEvidence(r.evidence, includeRaw, redact))
  }

  function ById(r: CheckResult): string {
    r.checkID
  }

  function SanitizeAll(results: seq<CheckResult>, includeRaw: bool, redact: Redactor): (r: seq<CheckResult>)
    ensures |r| == |results|
  {
    seq(|results|, i requires 0 <= i < |results| => SanitizeResult(results[i], includeRaw, redact))
  }

  function Normalized(results: seq<CheckResult>, includeRaw: bool, redact: Redactor): seq<CheckResult> {
    SanitizeAll(SortBy(results, ById), includeRaw, redact)
  }

  method NormalizeResults(results: seq<CheckResult>, includeRaw: bool, redact: Redactor) returns (r: seq<CheckResult>)
    ensures r == Normalized(results, includeRaw, redact)
  {
    hide SortBy, SanitizeEvidence;
    var sorted := SortBy(results, ById);
    var cloned := new CheckResult[|sorted|](i requires 0 <= i < |sorted| => sorted[i]);
    var index := 0;
    while index < cloned.Length
      invariant 0 <= index <= cloned.Length
      invariant forall k | 0 <= k < index :: cloned[k] == SanitizeResult(sorted[k], includeRaw, redact)
      invariant forall k | index <= k < cloned.Length :: cloned[k] == sorted[k]
    {
      cloned[index] := cloned[index].(evidence := SanitizeEvidence(cloned[index].evidence, includeRaw, redact));
      index := index + 1;
    }
    return cloned[..];
  }

  function BuildJSONReport(results: seq<CheckResult>, includeRaw: bool, redact: Redactor): JSONReport {
    var normalized := Normalized(results, includeRaw, redact);
    JSONReport(ExitCodeForResults(normalized), Tally(normalized), normalized)
  }

  // ---- what the report guarantees ----

  lemma {:induction false} CountIsPresence(results: seq<CheckResult>, status: Status)
    ensures CountStatus(results, status) > 0 <==> exists r | r in results :: r.status == status
  {
    if results != [] {
      var init, last := results[..|results| - 1], results[|results| - 1];
      assert results == init + [last];
      CountIsPresence(init, status);
      if CountStatus(results, status) > 0 && last.status != status {
        var r :| r in init && r.status == status;
        assert r in results;
      }
      assert last in results;
    }
  }

  ghost predicate Has(results: seq<CheckResult>, status: Status) {
    exists r | r in results :: r.status == status
  }

  /** 2 when something is an error or undecided, else 1 when something failed, else 0. */
  lemma ExitCodeMeans(results: seq<CheckResult>)
    ensures ExitCodeForResults(results) ==
            if Has(results, Error) || Has(results, InsufficientData) then 2 else if Has(results, Fail) then 1 else 0
  {
    CountIsPresence(results, Error);
    CountIsPresence(results, InsufficientData);
    CountIsPresence(results, Fail);
  }

  /** The summary accounts for every result exactly when no result carries an unknown status. */
  lemma {:induction false} SummaryIsCompleteIffStatusesKnown(results: seq<CheckResult>)
    ensures var t := Tally(results);
            && t.pass + t.fail + t.notApplicable + t.insufficientData + t.error <= |results|
            && (t.pass + t.fail + t.notApplicable + t.insufficientData + t.error == |results| <==>
                forall r | r in results :: !r.status.Other?)
  {
    if results != [] {
      var init, last := results[..|results| - 1], results[|results| - 1];
      assert results == init + [last];
      SummaryIsCompleteIffStatusesKnown(init);
      assert last in results;
    }
  }

  lemma {:induction false} CountConcat(a: seq<CheckResult>, b: seq<CheckResult>, status: Status)
    ensures CountStatus(a + b, status) == CountStatus(a, status) + CountStatus(b, status)
  {
    if b == [] {
      assert a + b == a;
    } else {
      assert (a + b)[..|a + b| - 1] == a + b[..|b| - 1];
      CountConcat(a, b[..|b| - 1], status);
    }
  }

  lemma {:induction false} CountIgnoresOrder(a: seq<CheckResult>, b: seq<CheckResult>, status: Status)
    requires multiset(a) == multiset(b)
    ensures CountStatus(a, status) == CountStatus(b, status)
    decreases |a|
  {
    SameLength(a, b);
    if a != [] {
      var last := a[|a| - 1];
      SameElements(a, b);
      assert last in a && last in b;
      var k :| 0 <= k < |b| && b[k] == last;
      var init, rest := a[..|a| - 1], b[..k] + b[k + 1..];
      RemoveBoth(a, b, k);
      CountIgnoresOrder(init, rest, status);
      assert b == b[..k] + ([last] + b[k + 1..]);
      CountConcat(b[..k], [last] + b[k + 1..], status);
      CountConcat([last], b[k + 1..], status);
      CountConcat(b[..k], b[k + 1..], status);
      assert CountStatus([last], status) == CountStatus(a, status) - CountStatus(init, status);
    }
  }

  lemma RemoveBoth<T>(a: seq<T>, b: seq<T>, k: nat)
    requires a != [] && k < |b| && b[k] == a[|a| - 1] && multiset(a) == multiset(b)
    ensures multiset(a[..|a| - 1]) == multiset(b[..k] + b[k + 1..])
  {
    WithoutOne(a, |a| - 1);
    WithoutOne(b, k);
    assert a[..|a| - 1] + a[|a|..] == a[..|a| - 1];
  }

  lemma WithoutOne<T>(s: seq<T>, k: nat)
    requires k < |s|
    ensures multiset(s[..k] + s[k + 1..]) == multiset(s) - multiset{s[k]}
  {
    assert s == s[..k] + [s[k]] + s[k + 1..];
  }

  lemma {:induction false} CountIgnoresEvidence(a: seq<CheckResult>, b: seq<CheckResult>, status: Status)
    requires |a| == |b| && forall i | 0 <= i < |a| :: a[i].status == b[i].status
    ensures CountStatus(a, status) == CountStatus(b, status)
  {
    if a != [] {
      CountIgnoresEvidence(a[..|a| - 1], b[..|a| - 1], status);
    }
  }

  lemma CountSurvivesNormalizing(results: seq<CheckResult>, includeRaw: bool, redact: Redactor, status: Status)
    ensures CountStatus(Normalized(results, includeRaw, redact), status) == CountStatus(results, status)
  {
    var sorted := SortBy(results, ById);
    SameLength(sorted, results);
    CountIgnoresOrder(sorted, results, status);
    CountIgnoresEvidence(Normalized(results, includeRaw, redact), sorted, status);
  }

  /** The exit code and summary printed in the report are those of the raw results, so the report agrees with the
      exit code of the process. */
  lemma ReportAgreesWithProcess(results: seq<CheckResult>, includeRaw: bool, redact: Redactor)
    ensures var report := BuildJSONReport(results, includeRaw, redact);
            report.exitCode == ExitCodeForResults(results) && report.summary == Tally(results)
  {
    CountSurvivesNormalizing(results, includeRaw, redact, Pass);
    CountSurvivesNormalizing(results, includeRaw, redact, Fail);
    CountSurvivesNormalizing(results, includeRaw, redact, NotApplicable);
    CountSurvivesNormalizing(results, includeRaw, redact, InsufficientData);
    CountSurvivesNormalizing(results, includeRaw, redact, Error);
  }

  ghost predicate DistinctIds(results: seq<CheckResult>) {
    forall i, j | 0 <= i < j < |results| :: results[i].checkID != results[j].checkID
  }

  lemma DistinctIdsKeepApart(results: seq<CheckResult>)
    requires DistinctIds(results)
    ensures KeyedApart(results, ById)
  {
  }

  lemma DistinctIdsSurviveSorting(results: seq<CheckResult>)
    requires DistinctIds(results)
    ensures DistinctIds(SortBy(results, ById))
  {
    var sorted := SortBy(results, ById);
    SameElements(sorted, results);
    forall i, j | 0 <= i < j < |results| ensures results[i] != results[j] {
      assert results[i].checkID != results[j].checkID;
    }
    SameElements(results, sorted);
    forall i, j | 0 <= i < j < |sorted| ensures sorted[i].checkID != sorted[j].checkID {
      var a, b := sorted[i], sorted[j];
      assert a in results && b in results && a != b;
      DistinctIdsKeepApart(results);
    }
  }

  lemma SanitizeAllCarries(a: seq<CheckResult>, b: seq<CheckResult>, includeRaw: bool, redact: Redactor, x: CheckResult)
    requires forall r | r in a :: r in b
    ensures x in SanitizeAll(a, includeRaw, redact) ==> x in SanitizeAll(b, includeRaw, redact)
  {
    var c, d := SanitizeAll(a, includeRaw, redact), SanitizeAll(b, includeRaw, redact);
    if x in c {
      var i :| 0 <= i < |c| && c[i] == x;
      assert a[i] in b;
      var k :| 0 <= k < |b| && b[k] == a[i];
      assert d[k] == x;
    }
  }

  lemma SanitizeAllStaysDistinct(results: seq<CheckResult>, includeRaw: bool, redact: Redactor)
    requires DistinctIds(results)
    ensures NoDuplicates(SanitizeAll(results, includeRaw, redact))
  {
    var c := SanitizeAll(results, includeRaw, redact);
    forall i, j | 0 <= i < j < |c| ensures c[i] != c[j] {
      assert c[i].checkID != c[j].checkID;
    }
  }

  lemma SanitizeAllPermutes(a: seq<CheckResult>, b: seq<CheckResult>, includeRaw: bool, redact: Redactor)
    requires DistinctIds(a) && DistinctIds(b) && multiset(a) == multiset(b)
    ensures multiset(SanitizeAll(a, includeRaw, redact)) == multiset(SanitizeAll(b, includeRaw, redact))
  {
    var c, d := SanitizeAll(a, includeRaw, redact), SanitizeAll(b, includeRaw, redact);
    SanitizeAllStaysDistinct(a, includeRaw, redact);
    SanitizeAllStaysDistinct(b, includeRaw, redact);
    forall x ensures x in c <==> x in d {
      SameElements(a, b);
      SanitizeAllCarries(a, b, includeRaw, redact, x);
      SanitizeAllCarries(b, a, includeRaw, redact, x);
    }
    DistinctSequencesPermute(c, d);
  }

  /** With distinct ids the reported order is strictly ascending and holds every sanitised result once. */
  lemma ReportIsStrictlyAscending(results: seq<CheckResult>, includeRaw: bool, redact: Redactor)
    requires DistinctIds(results)
    ensures var r := Normalized(results, includeRaw, redact);
            && (forall i, j | 0 <= i < j < |r| :: Less(r[i].checkID, r[j].checkID))
            && multiset(r) == multiset(SanitizeAll(results, includeRaw, redact))
  {
    var sorted, r := SortBy(results, ById), Normalized(results, includeRaw, redact);
    SortByIsSorted(results, ById);
    DistinctIdsSurviveSorting(results);
    SanitizeAllPermutes(sorted, results, includeRaw, redact);
    forall i, j | 0 <= i < j < |r| ensures Less(r[i].checkID, r[j].checkID) {
      assert !Less(ById(sorted[j]), ById(sorted[i]));
      LessIsTotal(sorted[i].checkID, sorted[j].checkID);
    }
  }

  /** Evidence that is not shown raw is at most the limit long, and valid UTF-8 if redaction leaves it so; flags are
      only ever set, and nothing else of the result changes. */
  lemma SanitizedEvidenceIsBounded(r: CheckResult, includeRaw: bool, redact: Redactor)
    ensures var x := SanitizeResult(r, includeRaw, redact);
            && x.(evidence := r.evidence) == r
            && x.evidence.(raw := "", redacted := false, truncated := false) ==
               r.evidence.(raw := "", redacted := false, truncated := false)
            && (r.evidence.redacted ==> x.evidence.redacted) && (r.evidence.truncated ==> x.evidence.truncated)
            && (includeRaw ==> x == r)
            && (!includeRaw ==> |x.evidence.raw| <= DEFAULT_EVIDENCE_RAW_LIMIT)
            && (!includeRaw && Valid(redact(r.evidence.raw).0) ==> Valid(x.evidence.raw))
            && (!includeRaw && r.evidence.raw != "" && |redact(r.evidence.raw).0| > DEFAULT_EVIDENCE_RAW_LIMIT ==>
                  x.evidence.truncated)
  {
    hide TruncatedEvidenceRaw, Valid;
    var sanitized := redact(r.evidence.raw).0;
    TruncationRespectsLimit(sanitized, DEFAULT_EVIDENCE_RAW_LIMIT);
    if Valid(sanitized) { TruncationKeepsValidity(sanitized, DEFAULT_EVIDENCE_RAW_LIMIT); }
    AsciiIsValid("");
  }

  /** What is shown when raw evidence is not: the redacted text, or a beginning of it with the mark; and the flags are
      the old ones or what redaction and truncation did. */
  lemma SanitizedEvidenceIsRedacted(ev: Evidence, redact: Redactor)
    requires ev.raw != ""
    ensures var x, (text, redacted) := SanitizeEvidence(ev, false, redact), redact(ev.raw);
            && (x.redacted <==> ev.redacted || redacted)
            && (x.truncated <==> ev.truncated || |text| > 4096)
            && (|text| <= 4096 ==> x.raw == text)
            && (|text| > 4096 ==>
                  exists cut :: 0 <= cut <= |text| && cut <= 4096 && x.raw == text[..cut] + "\n...[truncated]")
  {
    hide TruncatedEvidenceRaw;
    var text := redact(ev.raw).0;
    TruncationRespectsLimit(text, DEFAULT_EVIDENCE_RAW_LIMIT);
    if |text| > 4096 {
      var cut := TruncationShowsABeginning(text, DEFAULT_EVIDENCE_RAW_LIMIT);
    }
  }

  /** The report lists every result once, sanitized, in strictly ascending order of the ids, and nothing else. */
  lemma ReportHoldsEveryResult(results: seq<CheckResult>, includeRaw: bool, redact: Redactor)
    requires DistinctIds(results)
    ensures var r := BuildJSONReport(results, includeRaw, redact).results;
            && |r| == |results|
            && (forall i, j | 0 <= i < j < |r| :: Less(r[i].checkID, r[j].checkID))
            && forall y :: y in r <==> exists x :: x in results && y == SanitizeResult(x, includeRaw, redact)
  {
    hide SanitizeResult;
    ReportIsStrictlyAscending(results, includeRaw, redact);
    var r, all := Normalized(results, includeRaw, redact), SanitizeAll(results, includeRaw, redact);
    SameLength(r, all);
    SameElements(r, all);
    forall y ensures y in all <==> exists x :: x in results && y == SanitizeResult(x, includeRaw, redact) {
      SanitizedMembers(results, includeRaw, redact, y);
    }
  }

  lemma SanitizedMembers(results: seq<CheckResult>, includeRaw: bool, redact: Redactor, y: CheckResult)
    ensures y in SanitizeAll(results, includeRaw, redact) <==>
            exists x :: x in results && y == SanitizeResult(x, includeRaw, redact)
  {
    var all := SanitizeAll(results, includeRaw, redact);
    if x :| x in results && y == SanitizeResult(x, includeRaw, redact) {
      var i :| 0 <= i < |results| && results[i] == x;
      assert all[i] == y;
    }
    if y in all {
      var i :| 0 <= i < |all| && all[i] == y;
      assert results[i] in results;
    }
  }

  /** The positions of the results with the status. */
  function Positions(results: seq<CheckResult>, status: Status): set<nat> {
    set i: nat | i < |results| && results[i].status == status
  }

  lemma PositionsStep(results: seq<CheckResult>, status: Status)
    requires results != []
    ensures var n := |results| - 1;
            && n !in Positions(results[..n], status)
            && Positions(results, status) ==
               if results[n].status == status then Positions(results[..n], status) + {n} else Positions(results[..n], status)
  {
  }

  lemma {:induction false} CountIsPositions(results: seq<CheckResult>, status: Status)
    ensures CountStatus(results, status) == |Positions(results, status)|
  {
    hide Positions;
    if results == [] {
      NoPositions(status);
    } else {
      CountIsPositions(results[..|results| - 1], status);
      PositionsStep(results, status);
    }
  }

  lemma NoPositions(status: Status)
    ensures Positions([], status) == {}
  {
  }

  /** Each counter is the number of positions with its status. */
  lemma SummaryCounts(results: seq<CheckResult>)
    ensures var t := Tally(results);
            && t.pass == |Positions(results, Pass)|
            && t.fail == |Positions(results, Fail)|
            && t.notApplicable == |Positions(results, NotApplicable)|
            && t.insufficientData == |Positions(results, InsufficientData)|
            && t.error == |Positions(results, Error)|
  {
    CountIsPositions(results, Pass);
    CountIsPositions(results, Fail);
    CountIsPositions(results, NotApplicable);
    CountIsPositions(results, InsufficientData);
    CountIsPositions(results, Error);
  }

  /** The report does not depend on the order in which the checks ran. */
  lemma ReportIgnoresExecutionOrder(a: seq<CheckResult>, b: seq<CheckResult>, includeRaw: bool, redact: Redactor)
    requires DistinctIds(a) && multiset(a) == multiset(b)
    ensures BuildJSONReport(a, includeRaw, redact) == BuildJSONReport(b, includeRaw, redact)
  {
    DistinctIdsKeepApart(a);
    SortIgnoresOrder(a, b, ById);
  }
}
