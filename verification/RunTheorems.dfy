/** What scheduling and running guarantee, for every accepted graph and every choice of outcomes. */
module RunTheorems {
  import opened ByteOrder
  import opened Graph
  import opened Schedule
  import opened CheckResults
  import opened Engine
  import opened Runs

  ghost function GraphOf(checks: seq<Check>): Graph {
    PrerequisiteGraph(Registry(checks))
  }

  /** Ids are distinct and every prerequisite strictly precedes its dependents. */
  ghost predicate InOrder(ordered: seq<Check>) {
    && NoDuplicates(Ids(ordered))
    && (forall i, p | 0 <= i < |ordered| && p in ordered[i].prerequisites :: p in Ids(ordered[..i]))
  }

  // ---- scheduling ----

  /** The schedule is a permutation of the checks with every prerequisite strictly before its dependents. */
  lemma ScheduleIsTopologicalPermutation(checks: seq<Check>)
    requires Accepted(checks)
    ensures multiset(Scheduled(checks)) == multiset(checks)
    ensures InOrder(Scheduled(checks))
  {
    var ordered := Scheduled(checks);
    RegistryHolds(checks);
    LookupIds(Registry(checks), ScheduledIds(checks));
    ScheduleIsInOrder(checks);
    DistinctIdsMeanDistinctChecks(ordered);
    DistinctIdsMeanDistinctChecks(checks);
    forall c ensures c in ordered <==> c in checks {
      SameCheckBothSides(checks, ordered, c);
    }
    DistinctSequencesPermute(ordered, checks);
  }

  lemma ScheduleIsInOrder(checks: seq<Check>)
    requires Accepted(checks)
    ensures InOrder(Scheduled(checks))
  {
    var ordered := Scheduled(checks);
    RegistryHolds(checks);
    LookupIds(Registry(checks), ScheduledIds(checks));
    forall i, p | 0 <= i < |ordered| && p in ordered[i].prerequisites ensures p in Ids(ordered[..i]) {
      PrerequisiteIsEarlier(checks, ordered, i, p);
    }
  }

  lemma PrerequisiteIsEarlier(checks: seq<Check>, ordered: seq<Check>, i: nat, p: string)
    requires i < |ordered| && p in ordered[i].prerequisites && Topological(GraphOf(checks), Ids(ordered))
    requires ordered[i].id in Registry(checks) && Registry(checks)[ordered[i].id] == ordered[i]
    ensures p in Ids(ordered[..i])
  {
    hide Registry;
    assert p in GraphOf(checks)[Ids(ordered)[i]];
    assert Ids(ordered[..i]) == Ids(ordered)[..i];
  }

  lemma SameCheckBothSides(checks: seq<Check>, ordered: seq<Check>, c: Check)
    requires NoDuplicates(Ids(checks)) && Covers(GraphOf(checks), Ids(ordered))
    requires forall d | d in ordered :: d.id in Registry(checks) && Registry(checks)[d.id] == d
    ensures c in ordered <==> c in checks
  {
    RegistryHolds(checks);
    if c in checks {
      var k :| 0 <= k < |checks| && checks[k] == c;
      assert Ids(checks)[k] == c.id && c.id in GraphOf(checks);
      var i :| 0 <= i < |ordered| && Ids(ordered)[i] == c.id;
      assert ordered[i] in ordered;
    }
  }

  lemma DistinctIdsMeanDistinctChecks(checks: seq<Check>)
    requires NoDuplicates(Ids(checks))
    ensures NoDuplicates(checks)
  {
    forall i, j | 0 <= i < j < |checks| ensures checks[i] != checks[j] {
      assert Ids(checks)[i] != Ids(checks)[j];
    }
  }

  lemma DistinctIdsSurvivePermutation(a: seq<Check>, b: seq<Check>)
    requires multiset(a) == multiset(b) && NoDuplicates(Ids(a))
    ensures NoDuplicates(Ids(b))
  {
    SameElements(a, b);
    DistinctIdsMeanDistinctChecks(a);
    forall i, j | 0 <= i < j < |b| ensures Ids(b)[i] != Ids(b)[j] {
      assert b[i] in a && b[j] in a && b[i] != b[j];
      var k :| 0 <= k < |a| && a[k] == b[i];
      var l :| 0 <= l < |a| && a[l] == b[j];
      assert k != l && Ids(a)[k] != Ids(a)[l];
    }
  }

  lemma RegistryCarries(a: seq<Check>, b: seq<Check>)
    requires NoDuplicates(Ids(a)) && NoDuplicates(Ids(b)) && (forall c | c in a :: c in b)
    ensures forall id | id in Registry(a) :: id in Registry(b) && Registry(b)[id] == Registry(a)[id]
  {
    RegistryHolds(a);
    RegistryHolds(b);
    forall id | id in Registry(a) ensures id in Registry(b) && Registry(b)[id] == Registry(a)[id] {
      var k :| 0 <= k < |b| && b[k] == Registry(a)[id];
      assert Ids(b)[k] == id;
    }
  }

  lemma RegistryIgnoresOrder(a: seq<Check>, b: seq<Check>)
    requires multiset(a) == multiset(b) && NoDuplicates(Ids(a))
    ensures Registry(a) == Registry(b)
    ensures NoDuplicates(Ids(b))
  {
    SameElements(a, b);
    DistinctIdsSurvivePermutation(a, b);
    RegistryCarries(a, b);
    RegistryCarries(b, a);
    assert Registry(a).Keys == Registry(b).Keys;
  }

  lemma IdsIgnoreOrder(a: seq<Check>, b: seq<Check>)
    requires multiset(a) == multiset(b) && NoDuplicates(Ids(a))
    ensures multiset(Ids(a)) == multiset(Ids(b))
  {
    RegistryIgnoresOrder(a, b);
    assert forall id :: id in Ids(a) <==> id in Ids(b) by {
      RegistryHolds(a);
      RegistryHolds(b);
    }
    DistinctSequencesPermute(Ids(a), Ids(b));
  }

  /** Acceptance and the schedule do not depend on the order in which the checks were listed. */
  lemma ScheduleIgnoresInputOrder(a: seq<Check>, b: seq<Check>)
    requires multiset(a) == multiset(b)
    ensures Accepted(a) <==> Accepted(b)
    ensures Accepted(a) && Accepted(b) ==> Scheduled(a) == Scheduled(b)
  {
    SameElements(a, b);
    if NoDuplicates(Ids(a)) {
      RegistryIgnoresOrder(a, b);
      IdsIgnoreOrder(a, b);
      SortStringsIgnoresOrder(Ids(a), Ids(b));
    } else if NoDuplicates(Ids(b)) {
      DistinctIdsSurvivePermutation(b, a);
    }
  }

  // ---- running ----

  /** What the run leaves for the check at position `i`. */
  ghost predicate Settled(ordered: seq<Check>, env: string -> Outcome, i: nat)
    requires i < |ordered|
  {
    var s, c := RunAll(ordered, env), ordered[i];
    && i < |s.results| && c.id in s.byID && s.byID[c.id] == s.results[i]
    && (forall p | p in c.prerequisites :: p in s.byID)
    && (c.id in s.attempted <==> FirstBlocking(c.prerequisites, s.byID) == Clear)
    && s.results[i] == Settlement(c, env(c.id), s.byID)
  }

  lemma {:induction false} FirstBlockingAgrees(ps: seq<string>, a: map<string, CheckResult>, b: map<string, CheckResult>)
    requires forall p | p in ps :: p in a && p in b && a[p] == b[p]
    ensures FirstBlocking(ps, a) == FirstBlocking(ps, b)
  {
    if ps != [] {
      FirstBlockingAgrees(ps[1..], a, b);
    }
  }

  /** Clear means every prerequisite passed; otherwise the first one that did not pass is named. */
  lemma {:induction false} FirstBlockingMeans(ps: seq<string>, results: map<string, CheckResult>)
    requires forall p | p in ps :: p in results
    ensures FirstBlocking(ps, results) == Clear <==> forall p | p in ps :: results[p].status == Pass
    ensures forall p, status | FirstBlocking(ps, results) == BlockedBy(p, status) ::
              p in ps && results[p].status == status != Pass
  {
    if ps != [] {
      FirstBlockingMeans(ps[1..], results);
    }
  }

  ghost function Settlement(c: Check, outcome: Outcome, byID: map<string, CheckResult>): CheckResult {
    match FirstBlocking(c.prerequisites, byID)
    case BlockedBy(p, status) => PrerequisiteFailure(c, p, status)
    case Clear => Attempt(c, outcome)
  }

  lemma StepRecords(s: RunState, c: Check, outcome: Outcome)
    ensures var r, x := RunStep(s, c, outcome), Settlement(c, outcome, s.byID);
            && x.checkID == c.id
            && r.results == s.results + [x]
            && r.byID == s.byID[c.id := x]
            && r.attempted == (if FirstBlocking(c.prerequisites, s.byID) == Clear then s.attempted + [c.id] else s.attempted)
  {
  }

  lemma {:induction false} RunShape(ordered: seq<Check>, env: string -> Outcome)
    ensures var s := RunAll(ordered, env);
            && |s.results| == |ordered|
            && (forall i | 0 <= i < |ordered| :: s.results[i].checkID == ordered[i].id)
            && (forall id :: id in s.byID <==> id in Ids(ordered))
            && (forall id | id in s.attempted :: id in Ids(ordered))
  {
    if ordered != [] {
      var init, last := ordered[..|ordered| - 1], ordered[|ordered| - 1];
      RunShape(init, env);
      StepRecords(RunAll(init, env), last, env(last.id));
      IdsOfInit(ordered);
      hide RunStep, Settlement;
      assert RunAll(ordered, env) == RunStep(RunAll(init, env), last, env(last.id));
    }
  }

  lemma IdsOfInit(ordered: seq<Check>)
    requires ordered != []
    ensures Ids(ordered) == Ids(ordered[..|ordered| - 1]) + [ordered[|ordered| - 1].id]
  {
  }

  lemma InitInOrder(ordered: seq<Check>)
    requires InOrder(ordered) && ordered != []
    ensures InOrder(ordered[..|ordered| - 1])
    ensures ordered[|ordered| - 1].id !in Ids(ordered[..|ordered| - 1])
  {
    var init := ordered[..|ordered| - 1];
    assert Ids(init) == Ids(ordered)[..|init|];
    forall i, p | 0 <= i < |init| && p in init[i].prerequisites ensures p in Ids(init[..i]) {
      assert init[..i] == ordered[..i] && init[i] == ordered[i];
    }
  }

  lemma LastSettles(init: seq<Check>, c: Check, env: string -> Outcome)
    requires c.id !in Ids(init) && forall p | p in c.prerequisites :: p in Ids(init)
    ensures Settled(init + [c], env, |init|)
  {
    var before, s := RunAll(init, env), RunAll(init + [c], env);
    assert (init + [c])[..|init|] == init;
    RunShape(init, env);
    StepRecords(before, c, env(c.id));
    FirstBlockingAgrees(c.prerequisites, before.byID, s.byID);
  }

  lemma EarlierStaysSettled(init: seq<Check>, last: Check, env: string -> Outcome, i: nat)
    requires i < |init| && Settled(init, env, i) && last.id !in Ids(init)
    ensures Settled(init + [last], env, i)
  {
    var before, s := RunAll(init, env), RunAll(init + [last], env);
    assert (init + [last])[..|init|] == init;
    RunShape(init, env);
    StepRecords(before, last, env(last.id));
    var c := init[i];
    assert Ids(init)[i] == c.id;
    FirstBlockingAgrees(c.prerequisites, before.byID, s.byID);
  }

  /** Run never meets a prerequisite without a result, and the local blocking rule survives to the end. */
  lemma {:induction false} RunSettles(ordered: seq<Check>, env: string -> Outcome, i: nat)
    requires InOrder(ordered) && i < |ordered|
    ensures Settled(ordered, env, i)
    decreases |ordered|
  {
    hide Settled, NoDuplicates;
    var n := |ordered| - 1;
    var init := ordered[..n];
    assert ordered == init + [ordered[n]];
    InitInOrder(ordered);
    if i < n {
      RunSettles(init, env, i);
      EarlierStaysSettled(init, ordered[n], env, i);
    } else {
      LastSettles(init, ordered[n], env);
    }
  }

  lemma {:induction false} AttemptedOnce(ordered: seq<Check>, env: string -> Outcome)
    requires NoDuplicates(Ids(ordered))
    ensures NoDuplicates(RunAll(ordered, env).attempted)
  {
    if ordered != [] {
      var init, last := ordered[..|ordered| - 1], ordered[|ordered| - 1];
      assert Ids(init) == Ids(ordered)[..|init|];
      AttemptedOnce(init, env);
      RunShape(init, env);
      StepRecords(RunAll(init, env), last, env(last.id));
      assert last.id !in Ids(init) by {
        assert forall k | 0 <= k < |init| :: Ids(ordered)[k] != Ids(ordered)[|init|];
      }
    }
  }

  // ---- what a whole run means ----

  /** The state Run ends in on accepted checks. */
  ghost function Final(checks: seq<Check>, env: string -> Outcome): RunState
    requires Accepted(checks)
  {
    RunAll(Scheduled(checks), env)
  }

  /** The local rule, read off the final state. */
  lemma CheckSettles(checks: seq<Check>, env: string -> Outcome, c: Check)
    requires Accepted(checks) && c in checks
    ensures var s := Final(checks, env);
            && c.id in s.byID && s.byID[c.id] == Settlement(c, env(c.id), s.byID)
            && (forall p | p in c.prerequisites :: p in s.byID)
            && (c.id in s.attempted <==> FirstBlocking(c.prerequisites, s.byID) == Clear)
            && (c.id in s.attempted <==> forall p | p in c.prerequisites :: s.byID[p].status == Pass)
  {
    var ordered := Scheduled(checks);
    ScheduleIsTopologicalPermutation(checks);
    SameElements(ordered, checks);
    var i :| 0 <= i < |ordered| && ordered[i] == c;
    RunSettles(ordered, env, i);
    FirstBlockingMeans(c.prerequisites, Final(checks, env).byID);
  }

  /** Only a collector that returned can make a check pass or fail: a panic, a timeout or a cancellation is an error,
      and a blocked check names its first prerequisite that did not pass. */
  lemma VerdictsComeFromCollectors(checks: seq<Check>, env: string -> Outcome, c: Check)
    requires Accepted(checks) && c in checks
    ensures var s := Final(checks, env);
            && c.id in s.byID && s.byID[c.id].checkID == c.id && s.byID[c.id].domain == c.domain
            && (s.byID[c.id].status == Pass <==>
                  c.id in s.attempted && env(c.id).Returned? && env(c.id).result.status == Pass)
            && (s.byID[c.id].status == Fail <==>
                  c.id in s.attempted && env(c.id).Returned? && env(c.id).result.status == Fail)
            && (c.id in s.attempted && !env(c.id).Returned? ==> s.byID[c.id].status == Error)
            && (c.id !in s.attempted ==>
                  exists p | p in c.prerequisites ::
                    p in s.byID && s.byID[p].status != Pass && s.byID[c.id] == PrerequisiteFailure(c, p, s.byID[p].status))
  {
    hide Final;
    var s := Final(checks, env);
    CheckSettles(checks, env, c);
    FirstBlockingMeans(c.prerequisites, s.byID);
    if c.id !in s.attempted {
      var p := FirstBlocking(c.prerequisites, s.byID).id;
      assert p in c.prerequisites && s.byID[c.id] == PrerequisiteFailure(c, p, s.byID[p].status);
    }
  }

  /** The result says nothing but its source about the evidence, and the engine collected it. */
  predicate FromEngine(r: CheckResult, source: string) {
    r.evidence == Evidence(source, "engine", "", false, false)
  }

  /** What an attempted check reports: the collector's own result under the check's id and domain, or an error of the
      engine that says what happened to the collector. */
  lemma AttemptedReportsItsCollector(checks: seq<Check>, env: string -> Outcome, c: Check)
    requires Accepted(checks) && c in checks && c.id in Final(checks, env).attempted
    ensures c.id in Final(checks, env).byID
    ensures var r, outcome := Final(checks, env).byID[c.id], env(c.id);
            && r.checkID == c.id && r.domain == c.domain
            && (outcome.Returned? ==> r == outcome.result.(checkID := c.id, domain := c.domain))
            && (outcome.Panicked? ==>
                  r.status == Error && r.reason == InternalError && FromEngine(r, "engine.panic") &&
                  r.message == "panic recovered while running check: " + outcome.recovered)
            && (outcome.DeadlineExceeded? ==>
                  r.status == Error && r.reason == Timeout && FromEngine(r, "engine.timeout"))
            && (outcome.Cancelled? ==>
                  r.status == Error && r.reason == NoReason && FromEngine(r, "engine.context") &&
                  r.message == "collector context cancelled")
  {
    hide Final, Accepted;
    CheckSettles(checks, env, c);
  }

  /** What a blocked check reports: the first of its prerequisites that did not pass, and the class of its status. */
  lemma BlockedNamesItsBlocker(checks: seq<Check>, env: string -> Outcome, c: Check)
    requires Accepted(checks) && c in checks && c.id !in Final(checks, env).attempted
    ensures var s := Final(checks, env);
            && c.id in s.byID
            && exists k :: 0 <= k < |c.prerequisites| && BlocksAt(s, c, k)
  {
    hide Final, Accepted;
    var s := Final(checks, env);
    CheckSettles(checks, env, c);
    var k := FirstBlockingPosition(c.prerequisites, s.byID);
    assert BlocksAt(s, c, k);
  }

  /** All prerequisites before the k-th passed, the k-th did not, and the result says so. */
  ghost predicate BlocksAt(s: RunState, c: Check, k: nat)
    requires k < |c.prerequisites|
  {
    var p := c.prerequisites[k];
    && (forall j | 0 <= j < k :: c.prerequisites[j] in s.byID && s.byID[c.prerequisites[j]].status == Pass)
    && p in s.byID && s.byID[p].status != Pass
    && c.id in s.byID
    && var r, status := s.byID[c.id], s.byID[p].status;
       && r.checkID == c.id && r.domain == c.domain
       && r.status == (if status == Fail || status == NotApplicable then NotApplicable else InsufficientData)
       && r.reason == PrerequisiteFailed && FromEngine(r, "engine.prerequisite")
       && r.message == "blocked by prerequisite " + p + " with status " + StatusName(status)
  }

  lemma {:induction false} FirstBlockingPosition(ps: seq<string>, results: map<string, CheckResult>) returns (k: nat)
    requires forall p | p in ps :: p in results
    requires FirstBlocking(ps, results).BlockedBy?
    ensures k < |ps| && results[ps[k]].status != Pass && forall j | 0 <= j < k :: results[ps[j]].status == Pass
    ensures FirstBlocking(ps, results) == BlockedBy(ps[k], results[ps[k]].status)
  {
    if results[ps[0]].status != Pass {
      k := 0;
    } else {
      var rest := FirstBlockingPosition(ps[1..], results);
      k := rest + 1;
      assert forall j | 0 < j < k :: ps[j] == ps[1..][j - 1];
    }
  }

  function ResultIds(results: seq<CheckResult>): (ids: seq<string>)
    ensures |ids| == |results| && forall i | 0 <= i < |results| :: ids[i] == results[i].checkID
  {
    seq(|results|, i requires 0 <= i < |results| => results[i].checkID)
  }

  /** One result per check, in schedule order, each under its own id; no check is attempted twice. */
  lemma OneResultPerCheck(checks: seq<Check>, env: string -> Outcome)
    requires Accepted(checks)
    ensures ResultIds(Final(checks, env).results) == Ids(Scheduled(checks))
    ensures multiset(ResultIds(Final(checks, env).results)) == multiset(Ids(checks))
    ensures NoDuplicates(ResultIds(Final(checks, env).results)) && NoDuplicates(Final(checks, env).attempted)
    ensures forall r | r in Final(checks, env).results ::
              r.checkID in Final(checks, env).byID && Final(checks, env).byID[r.checkID] == r
  {
    var ordered, s := Scheduled(checks), Final(checks, env);
    ScheduleIsTopologicalPermutation(checks);
    RunShape(ordered, env);
    AttemptedOnce(ordered, env);
    forall r | r in s.results ensures r.checkID in s.byID && s.byID[r.checkID] == r {
      var i :| 0 <= i < |s.results| && s.results[i] == r;
      RunSettles(ordered, env, i);
    }
    assert ResultIds(s.results) == Ids(ordered);
    IdsIgnoreOrder(ordered, checks);
  }

  lemma NodeIsCheck(checks: seq<Check>, id: string) returns (c: Check)
    requires id in GraphOf(checks)
    ensures c in checks && c.id == id && c.prerequisites == GraphOf(checks)[id]
  {
    RegistryHolds(checks);
    c := Registry(checks)[id];
  }

  lemma CheckIsNode(checks: seq<Check>, c: Check)
    requires Accepted(checks) && c in checks
    ensures c.id in GraphOf(checks) && GraphOf(checks)[c.id] == c.prerequisites
  {
    RegistryHolds(checks);
    var k :| 0 <= k < |checks| && checks[k] == c;
    assert Ids(checks)[k] == c.id;
  }

  ghost predicate Passed(s: RunState, id: string) {
    id in s.attempted && id in s.byID && s.byID[id].status == Pass
  }

  lemma PrerequisitesOfAttemptedPassed(checks: seq<Check>, env: string -> Outcome, a: string, p: string)
    requires Accepted(checks) && a in GraphOf(checks) && p in GraphOf(checks)[a]
    requires a in Final(checks, env).attempted
    ensures Passed(Final(checks, env), p)
  {
    var c := NodeIsCheck(checks, a);
    CheckSettles(checks, env, c);
    var d := NodeIsCheck(checks, p);
    CheckSettles(checks, env, d);
  }

  lemma {:induction false} PassesAlongWalk(checks: seq<Check>, env: string -> Outcome, w: seq<string>)
    requires Accepted(checks) && Walk(GraphOf(checks), w) && |w| >= 2
    requires w[0] in Final(checks, env).attempted
    ensures Passed(Final(checks, env), w[|w| - 1])
    decreases |w|
  {
    hide Final, Accepted, GraphOf;
    assert w[1] in GraphOf(checks)[w[0]];
    PrerequisitesOfAttemptedPassed(checks, env, w[0], w[1]);
    if |w| > 2 {
      PassesAlongWalk(checks, env, w[1..]);
    }
  }

  /** Local blocking is a global statement: a check is attempted exactly when everything it transitively waits
      for was attempted and passed. */
  lemma AttemptedIffAllBelowPassed(checks: seq<Check>, env: string -> Outcome, c: Check)
    requires Accepted(checks) && c in checks
    ensures var s := Final(checks, env);
            c.id in s.attempted <==>
            forall p | Reaches(GraphOf(checks), c.id, p) :: Passed(s, p)
  {
    var s, g := Final(checks, env), GraphOf(checks);
    CheckIsNode(checks, c);
    CheckSettles(checks, env, c);
    if c.id in s.attempted {
      forall p | Reaches(g, c.id, p) ensures Passed(s, p) {
        var w :| Walk(g, w) && |w| >= 2 && w[0] == c.id && w[|w| - 1] == p;
        PassesAlongWalk(checks, env, w);
      }
    } else {
      var p :| p in c.prerequisites && s.byID[p].status != Pass;
      PrerequisiteIsReached(g, c.id, p);
    }
  }

  lemma AcceptedIsClosed(checks: seq<Check>)
    requires Accepted(checks)
    ensures Closed(GraphOf(checks))
  {
  }

  /** Every blocked check was stopped, directly or through other blocked checks, by an attempted check that did
      not pass, and its status is the class of that check's status. */
  lemma {:induction false} BlockedByAttempted(checks: seq<Check>, env: string -> Outcome, i: nat) returns (q: string)
    requires Accepted(checks) && i < |Scheduled(checks)|
    requires Scheduled(checks)[i].id !in Final(checks, env).attempted
    ensures var s, id := Final(checks, env), Scheduled(checks)[i].id;
            && Reaches(GraphOf(checks), id, q) && q in s.attempted && q in s.byID && id in s.byID
            && s.byID[q].status != Pass
            && s.byID[id].status == PropagatePrerequisiteStatus(s.byID[q].status)
            && s.byID[id].reason == PrerequisiteFailed
            && (exists c | c in checks :: FirstBlocking(c.prerequisites, s.byID) == BlockedBy(q, s.byID[q].status))
    decreases i
  {
    hide Final, Accepted, Scheduled, GraphOf, Reaches;
    var ordered, s, g := Scheduled(checks), Final(checks, env), GraphOf(checks);
    var c := ordered[i];
    ScheduleIsTopologicalPermutation(checks);
    SameElements(ordered, checks);
    assert c in ordered;
    CheckSettles(checks, env, c);
    CheckIsNode(checks, c);
    AcceptedIsClosed(checks);
    FirstBlockingMeans(c.prerequisites, s.byID);
    q := FirstBlocking(c.prerequisites, s.byID).id;
    PrerequisiteIsReached(g, c.id, q);
    if q !in s.attempted {
      assert q in Ids(ordered[..i]);
      var k :| 0 <= k < i && Ids(ordered[..i])[k] == q;
      var b := q;
      q := BlockedByAttempted(checks, env, k);
      PrerequisiteThenReaches(g, c.id, b, q);
    }
  }
}
