/** Engine.Run: take the scheduled checks one by one, blocking those with a prerequisite that did not pass. */
module Runs {
  import opened ByteOrder
  import opened Graph
  import opened Schedule
  import opened CheckResults
  import opened Engine

  datatype Blocking = Clear | BlockedBy(id: string, status: Status)

  function PropagatePrerequisiteStatus(status: Status): Status {
    match status
    case Fail => NotApplicable
    case NotApplicable => NotApplicable
    case _ => InsufficientData
  }

  function FirstBlocking(prerequisites: seq<string>, results: map<string, CheckResult>): Blocking {
    if prerequisites == [] then Clear
    else if prerequisites[0] in results && results[prerequisites[0]].status != Pass then
      BlockedBy(prerequisites[0], results[prerequisites[0]].status)
    else FirstBlocking(prerequisites[1..], results)
  }

  function PrerequisiteFailure(check: Check, blockedBy: string, status: Status): CheckResult {
    CheckResult(
      check.id, check.domain, PropagatePrerequisiteStatus(status), PrerequisiteFailed,
      Evidence("engine.prerequisite", "engine", "", false, false),
      "blocked by prerequisite " + blockedBy + " with status " + StatusName(status))
  }

  /** runCheck with finalizeResult: whatever happens, the result carries the check's own id and domain. */
  function Attempt(check: Check, outcome: Outcome): CheckResult {
    match outcome
    case Returned(result) => result.(checkID := check.id, domain := check.domain)
    case Panicked(recovered) =>
      CheckResult(check.id, check.domain, Error, InternalError,
                  Evidence("engine.panic", "engine", "", false, false),
                  "panic recovered while running check: " + recovered)
    case DeadlineExceeded =>
      CheckResult(check.id, check.domain, Error, Timeout,
                  Evidence("engine.timeout", "engine", "", false, false), "collector timed out")
    case Cancelled =>
      CheckResult(check.id, check.domain, Error, NoReason,
                  Evidence("engine.context", "engine", "", false, false), "collector context cancelled")
  }

  /** The variables of Run, and the ids on which it called the collector. */
  datatype RunState = RunState(results: seq<CheckResult>, byID: map<string, CheckResult>, attempted: seq<string>)

  function Record(s: RunState, check: Check, result: CheckResult): RunState {
    s.(results := s.results + [result], byID := s.byID[check.id := result])
  }

  function RunStep(s: RunState, check: Check, outcome: Outcome): RunState {
    match FirstBlocking(check.prerequisites, s.byID)
    case BlockedBy(id, status) => Record(s, check, PrerequisiteFailure(check, id, status))
    case Clear => Record(s, check, Attempt(check, outcome)).(attempted := s.attempted + [check.id])
  }

  /** Run on checks already in order; `env` picks the outcome of each check that is attempted. */
  function RunAll(ordered: seq<Check>, env: string -> Outcome): RunState {
    if ordered == [] then RunState([], map[], [])
    else
      var last := ordered[|ordered| - 1];
      RunStep(RunAll(ordered[..|ordered| - 1], env), last, env(last.id))
  }

  method FindBlockingPrerequisite(check: Check, results: map<string, CheckResult>) returns (r: Blocking)
    ensures r == FirstBlocking(check.prerequisites, results)
  {
    var prerequisites := check.prerequisites;
    var i := 0;
    while i < |prerequisites|
      invariant 0 <= i <= |prerequisites|
      invariant FirstBlocking(prerequisites, results) == FirstBlocking(prerequisites[i..], results)
    {
      assert prerequisites[i..][1..] == prerequisites[i + 1..];
      var p := prerequisites[i];
      if p in results && results[p].status != Pass {
        return BlockedBy(p, results[p].status);
      }
      i := i + 1;
    }
    return Clear;
  }

  method Run(checks: seq<Check>, env: string -> Outcome) returns (r: Result<RunState>)
    ensures r.Ok? <==> Accepted(checks)
    ensures r.Ok? ==> r.value == RunAll(Scheduled(checks), env)
    ensures r.Err? ==> Justified(checks, r.error)
  {
    var validated := ValidateChecks(checks);
    if validated.Err? {
      return Err(validated.error);
    }
    var s := RunOrdered(validated.value, env);
    return Ok(s);
  }

  /** The loop of Run. */
  method RunOrdered(ordered: seq<Check>, env: string -> Outcome) returns (s: RunState)
    ensures s == RunAll(ordered, env)
  {
    var results: seq<CheckResult> := [];
    var byID: map<string, CheckResult> := map[];
    var attempted: seq<string> := [];
    var i := 0;
    while i < |ordered|
      invariant 0 <= i <= |ordered|
      invariant RunState(results, byID, attempted) == RunAll(ordered[..i], env)
    {
      assert ordered[..i + 1][..i] == ordered[..i];
      var check := ordered[i];
      var blocking := FindBlockingPrerequisite(check, byID);
      var result;
      match blocking {
        case BlockedBy(id, status) =>
          result := PrerequisiteFailure(check, id, status);
        case Clear =>
          result := Attempt(check, env(check.id));
          attempted := attempted + [check.id];
      }
      results := results + [result];
      byID := byID[check.id := result];
      i := i + 1;
    }
    assert ordered[..i] == ordered;
    return RunState(results, byID, attempted);
  }
}
