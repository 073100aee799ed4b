/** How the engine's propagation rule interacts with the exit code. */
module Verdict {
  import opened ByteOrder
  import opened Graph
  import opened CheckResults
  import opened Engine
  import opened Runs
  import opened RunTheorems
  import opened Reports

  /** The results of the attempted checks, in run order. */
  function AttemptedResults(results: seq<CheckResult>, attempted: seq<string>): (r: seq<CheckResult>)
    ensures forall x :: x in r <==> x in results && x.checkID in attempted
  {
    if results == [] then []
    else
      var init, last := results[..|results| - 1], results[|results| - 1];
      assert results == init + [last];
      AttemptedResults(init, attempted) + (if last.checkID in attempted then [last] else [])
  }

  /** Some check is held back by a prerequisite whose collector returned a status outside the five. */
  ghost predicate HeldByUnknown(checks: seq<Check>, s: RunState) {
    exists c | c in checks :: var b := FirstBlocking(c.prerequisites, s.byID); b.BlockedBy? && b.status.Other?
  }

  lemma ResultOfCheck(checks: seq<Check>, env: string -> Outcome, c: Check)
    requires Accepted(checks) && c in checks
    ensures var s := Final(checks, env); c.id in s.byID && s.byID[c.id] in s.results && s.byID[c.id].checkID == c.id
  {
    var ordered := Scheduled(checks);
    ScheduleIsTopologicalPermutation(checks);
    SameElements(ordered, checks);
    var i :| 0 <= i < |ordered| && ordered[i] == c;
    RunSettles(ordered, env, i);
    RunShape(ordered, env);
  }

  lemma CauseIsListed(checks: seq<Check>, env: string -> Outcome, id: string, q: string)
    requires Accepted(checks) && Reaches(GraphOf(checks), id, q) && q in Final(checks, env).attempted
    ensures var s := Final(checks, env);
            q in s.byID && s.byID[q] in AttemptedResults(s.results, s.attempted)
  {
    var c := NodeIsCheck(checks, q);
    ResultOfCheck(checks, env, c);
  }

  lemma PositionOf(checks: seq<Check>, env: string -> Outcome, r: CheckResult) returns (i: nat)
    requires Accepted(checks) && r in Final(checks, env).results
    ensures i < |Scheduled(checks)| && Scheduled(checks)[i].id == r.checkID
    ensures r.checkID in Final(checks, env).byID && Final(checks, env).byID[r.checkID] == r
  {
    OneResultPerCheck(checks, env);
    var results := Final(checks, env).results;
    i :| 0 <= i < |results| && results[i] == r;
    assert ResultIds(results)[i] == Ids(Scheduled(checks))[i];
  }

  /** A blocked result in the undecided class goes back to an attempted error or undecided result, unless an
      unknown status is holding something back. It is never a failure or an error itself. */
  lemma BlockedResultHasCause(checks: seq<Check>, env: string -> Outcome, r: CheckResult)
    requires Accepted(checks) && r in Final(checks, env).results && r.checkID !in Final(checks, env).attempted
    ensures r.status == NotApplicable || r.status == InsufficientData
    ensures var s := Final(checks, env);
            r.status == InsufficientData && !HeldByUnknown(checks, s) ==>
            Has(AttemptedResults(s.results, s.attempted), Error) ||
            Has(AttemptedResults(s.results, s.attempted), InsufficientData)
  {
    var i := PositionOf(checks, env, r);
    var q := BlockedByAttempted(checks, env, i);
    CauseIsListed(checks, env, r.checkID, q);
  }

  /** A check held back by an unknown status reports insufficient data. */
  lemma HeldByUnknownShows(checks: seq<Check>, env: string -> Outcome)
    requires Accepted(checks) && HeldByUnknown(checks, Final(checks, env))
    ensures Has(Final(checks, env).results, InsufficientData)
  {
    var s := Final(checks, env);
    var c :| c in checks && var b := FirstBlocking(c.prerequisites, s.byID); b.BlockedBy? && b.status.Other?;
    CheckSettles(checks, env, c);
    ResultOfCheck(checks, env, c);
    assert s.byID[c.id].status == InsufficientData;
  }

  /** The exit code over all results is the exit code over the attempted checks alone, exactly when the attempted
      ones already exit with 2 or no unknown status holds a check back. */
  lemma PropagationKeepsVerdictIff(checks: seq<Check>, env: string -> Outcome)
    requires Accepted(checks)
    ensures var s := Final(checks, env);
            var attempted := AttemptedResults(s.results, s.attempted);
            ExitCodeForResults(s.results) == ExitCodeForResults(attempted) <==>
            ExitCodeForResults(attempted) == 2 || !HeldByUnknown(checks, s)
  {
    var s := Final(checks, env);
    var attempted := AttemptedResults(s.results, s.attempted);
    ExitCodeMeans(s.results);
    ExitCodeMeans(attempted);
    assert forall status | Has(attempted, status) :: Has(s.results, status);
    if HeldByUnknown(checks, s) {
      HeldByUnknownShows(checks, env);
    } else {
      forall r | r in s.results && r !in attempted
        ensures r.status == NotApplicable || r.status == InsufficientData
        ensures r.status == InsufficientData ==> Has(attempted, Error) || Has(attempted, InsufficientData)
      {
        BlockedResultHasCause(checks, env, r);
      }
    }
  }

  lemma StatusStaysKnown(checks: seq<Check>, env: string -> Outcome, c: Check)
    requires Accepted(checks) && c in checks
    requires env(c.id).Returned? ==> !env(c.id).result.status.Other?
    ensures c.id in Final(checks, env).byID && !Final(checks, env).byID[c.id].status.Other?
  {
    CheckSettles(checks, env, c);
  }

  lemma BlockerIsKnown(checks: seq<Check>, env: string -> Outcome, c: Check)
    requires Accepted(checks) && c in checks
    requires forall d | d in checks :: env(d.id).Returned? ==> !env(d.id).result.status.Other?
    ensures var b := FirstBlocking(c.prerequisites, Final(checks, env).byID); b.BlockedBy? ==> !b.status.Other?
  {
    var s := Final(checks, env);
    var b := FirstBlocking(c.prerequisites, s.byID);
    CheckSettles(checks, env, c);
    if b.BlockedBy? {
      FirstBlockingMeans(c.prerequisites, s.byID);
      CheckIsNode(checks, c);
      assert b.id in GraphOf(checks)[c.id];
      var d := NodeIsCheck(checks, b.id);
      StatusStaysKnown(checks, env, d);
    }
  }

  /** With collectors that keep to the five statuses, propagation never changes the verdict. */
  lemma PropagationKeepsVerdict(checks: seq<Check>, env: string -> Outcome)
    requires Accepted(checks)
    requires forall c | c in checks :: env(c.id).Returned? ==> !env(c.id).result.status.Other?
    ensures var s := Final(checks, env);
            ExitCodeForResults(s.results) == ExitCodeForResults(AttemptedResults(s.results, s.attempted))
  {
    PropagationKeepsVerdictIff(checks, env);
    forall c | c in checks
      ensures var b := FirstBlocking(c.prerequisites, Final(checks, env).byID); !(b.BlockedBy? && b.status.Other?)
    {
      BlockerIsKnown(checks, env, c);
    }
  }

  /** The check waits for one whose collector returned a status outside the five, and nothing before it blocks. */
  ghost predicate BehindUnknown(c: Check, env: string -> Outcome, s: RunState) {
    var b := FirstBlocking(c.prerequisites, s.byID);
    b.BlockedBy? && b.id in s.attempted && env(b.id).Returned? && env(b.id).result.status.Other?
  }

  lemma BehindUnknownMeans(checks: seq<Check>, env: string -> Outcome, c: Check)
    requires Accepted(checks) && c in checks
    ensures var s := Final(checks, env); var b := FirstBlocking(c.prerequisites, s.byID);
            b.BlockedBy? && b.status.Other? <==> BehindUnknown(c, env, s)
  {
    hide Final, Accepted;
    var s := Final(checks, env);
    var b := FirstBlocking(c.prerequisites, s.byID);
    CheckSettles(checks, env, c);
    FirstBlockingMeans(c.prerequisites, s.byID);
    if b.BlockedBy? {
      var d := PrerequisiteIsCheck(checks, c, b.id);
      CheckSettles(checks, env, d);
    }
  }

  lemma PrerequisiteIsCheck(checks: seq<Check>, c: Check, p: string) returns (d: Check)
    requires Accepted(checks) && c in checks && p in c.prerequisites
    ensures d in checks && d.id == p
  {
    CheckIsNode(checks, c);
    assert p in GraphOf(checks)[c.id] && p in GraphOf(checks);
    d := NodeIsCheck(checks, p);
  }

  /** What holds a check back is always an attempted check whose own collector returned the unknown status. */
  lemma HeldByUnknownMeans(checks: seq<Check>, env: string -> Outcome)
    requires Accepted(checks)
    ensures HeldByUnknown(checks, Final(checks, env)) <==>
            exists c :: c in checks && BehindUnknown(c, env, Final(checks, env))
  {
    hide Final, Accepted, BehindUnknown;
    forall c | c in checks
      ensures (var b := FirstBlocking(c.prerequisites, Final(checks, env).byID); b.BlockedBy? && b.status.Other?) <==>
              BehindUnknown(c, env, Final(checks, env))
    {
      BehindUnknownMeans(checks, env, c);
    }
  }

  // ---- a verdict that changes ----

  const ASKED := Check("asked", "paths", [])
  const WAITING := Check("waiting", "paths", ["asked"])

  lemma PairIsAccepted()
    ensures Accepted([ASKED, WAITING])
  {
    var checks := [ASKED, WAITING];
    RegistryHolds(checks);
    assert checks[..1] == [ASKED] && checks[..1][..0] == [];
    assert Registry(checks) == map["asked" := ASKED, "waiting" := WAITING];
    var g := PrerequisiteGraph(Registry(checks));
    assert g == map["asked" := [], "waiting" := ["asked"]];
    RankedIsAcyclic(g, map["asked" := 0, "waiting" := 1]);
  }

  lemma PairSettles(env: string -> Outcome)
    requires Accepted([ASKED, WAITING])
    requires env("asked").Returned? && env("asked").result.status.Other?
    ensures var s := Final([ASKED, WAITING], env);
            && "asked" in s.byID && s.byID["asked"].status.Other?
            && "waiting" in s.byID && s.byID["waiting"].status == InsufficientData && "waiting" !in s.attempted
  {
    hide Final, Accepted;
    var checks := [ASKED, WAITING];
    CheckSettles(checks, env, ASKED);
    CheckSettles(checks, env, WAITING);
    FirstBlockingMeans(WAITING.prerequisites, Final(checks, env).byID);
    assert "asked" in WAITING.prerequisites;
  }

  lemma ResultHasCheck(checks: seq<Check>, env: string -> Outcome, r: CheckResult)
    requires Accepted(checks) && r in Final(checks, env).results
    ensures r.checkID in Ids(checks)
  {
    hide Final, Accepted;
    var results := Final(checks, env).results;
    OneResultPerCheck(checks, env);
    SameElements(ResultIds(results), Ids(checks));
    var i :| 0 <= i < |results| && results[i] == r;
    assert ResultIds(results)[i] == r.checkID;
  }

  /** One check with an unknown status and one behind it: the process exits with 2, on the attempted check alone it
      would exit with 0. */
  lemma UnknownStatusChangesVerdict(env: string -> Outcome)
    requires env("asked").Returned? && env("asked").result.status.Other?
    ensures Accepted([ASKED, WAITING])
    ensures var s := Final([ASKED, WAITING], env);
            && ExitCodeForResults(s.results) == 2
            && ExitCodeForResults(AttemptedResults(s.results, s.attempted)) == 0
  {
    hide Final, Accepted, AttemptedResults, ExitCodeForResults, Ids;
    PairIsAccepted();
    var checks := [ASKED, WAITING];
    var s := Final(checks, env);
    PairSettles(env);
    ResultOfCheck(checks, env, WAITING);
    ExitCodeMeans(s.results);
    ExitCodeMeans(AttemptedResults(s.results, s.attempted));
    assert Has(s.results, InsufficientData);
    forall r | r in s.results && r.checkID in s.attempted ensures r.status.Other? {
      ResultHasCheck(checks, env, r);
      OneResultPerCheck(checks, env);
      assert Ids(checks) == ["asked", "waiting"];
    }
  }
}
