/** What a check reports. Times and durations are left out. */
module CheckResults {
  /** A status string outside the five the reports know. */
  type UnknownStatus = name: string | name !in {"PASS", "FAIL", "NOT_APPLICABLE", "INSUFFICIENT_DATA", "ERROR"} witness ""

  datatype Status = Pass | Fail | NotApplicable | InsufficientData | Error | Other(name: UnknownStatus)

  datatype Reason =
    | NoReason | Timeout | PermissionDenied | NotFound | ParseError
    | NamespaceIsolation | InternalError | PrerequisiteFailed

  datatype Evidence = Evidence(source: string, collector: string, raw: string, redacted: bool, truncated: bool)

  datatype CheckResult = CheckResult(
    checkID: string, domain: string, status: Status, reason: Reason, evidence: Evidence, message: string)

  function StatusName(s: Status): string {
    match s
    case Pass => "PASS"
    case Fail => "FAIL"
    case NotApplicable => "NOT_APPLICABLE"
    case InsufficientData => "INSUFFICIENT_DATA"
    case Error => "ERROR"
    case Other(name) => name
  }

  /** A status is its string. */
  lemma StatusNameIsInjective(a: Status, b: Status)
    requires StatusName(a) == StatusName(b)
    ensures a == b
  {
  }
}
