/** Runs of built graphs fail closed: a domain whose preflight does not pass is not probed at all. */
module FailClosed {
  import opened ByteOrder
  import opened CheckResults
  import opened Contracts
  import opened Checks
  import opened CheckIds
  import opened Builder
  import opened BuilderTheorems
  import opened Runs
  import opened RunTheorems
  import opened Reports
  import opened Verdict
  import Engine

  /** What the probe of /proc/1/comm gives: an error or the trimmed name. */
  datatype Probe = ProbeDenied | ProbeFailed | Comm(name: string)

  /** serviceNamespaceCheck.Run; the evidence of the individual branches is left out. */
  function NamespaceRun(domain: string, target: string, cancelled: bool, probe: Probe): CheckResult {
    var source := Evidence("/proc/1/comm", domain, "", false, false);
    if cancelled then CheckResult("", "", Error, Timeout, source, "cancelled before the preflight")
    else if target != TARGET_LINUX_SYSTEMD then
      CheckResult("", "", NotApplicable, NoReason, Evidence("contract.metadata.target", domain, target, false, false),
                  "does not apply")
    else
      match probe
      case ProbeDenied => CheckResult("", "", Error, PermissionDenied, source, "failed to inspect")
      case ProbeFailed => CheckResult("", "", Error, ParseError, source, "failed to inspect")
      case Comm(name) =>
        if name == "" then CheckResult("", "", Error, ParseError, source, "empty name")
        else if name != "systemd" then
          CheckResult("", "", Error, NamespaceIsolation, source.(raw := name), "not systemd")
        else CheckResult("", "", Pass, NoReason, source.(raw := name), "systemd confirmed")
  }

  /** The preflight passes only on an observed systemd, for the one supported target. */
  lemma PreflightPassesIff(domain: string, target: string, cancelled: bool, probe: Probe)
    ensures NamespaceRun(domain, target, cancelled, probe).status == Pass <==>
            !cancelled && target == TARGET_LINUX_SYSTEMD && probe == Comm("systemd")
    ensures NamespaceRun(domain, target, cancelled, probe).status in {Pass, NotApplicable, Error}
  {
  }

  /** What a preflight that does not pass reports. */
  lemma PreflightReportsWhy(domain: string, target: string, cancelled: bool, probe: Probe)
    ensures var r := NamespaceRun(domain, target, cancelled, probe);
            && r.evidence.collector == domain
            && (cancelled ==> r.status == Error && r.reason == Timeout)
            && (!cancelled && target != TARGET_LINUX_SYSTEMD ==>
                  r.status == NotApplicable && r.reason == NoReason && r.evidence.source == "contract.metadata.target")
            && (!cancelled && target == TARGET_LINUX_SYSTEMD ==>
                  && r.evidence.source == "/proc/1/comm"
                  && (r.reason == PermissionDenied <==> probe == ProbeDenied)
                  && (r.reason == ParseError <==> probe == ProbeFailed || probe == Comm(""))
                  && (r.reason == NamespaceIsolation <==> probe.Comm? && probe.name !in {"", "systemd"})
                  && (probe.Comm? ==> r.evidence.raw == probe.name))
  {
  }

  /** The preflight that stands before every check of a domain; identity stands behind the one of services. */
  function PreflightOf(domain: string): string {
    match domain
    case "paths" => PATH_NAMESPACE_CHECK_ID
    case "sockets" => SOCKET_NAMESPACE_CHECK_ID
    case _ => SERVICE_NAMESPACE_CHECK_ID
  }

  ghost function RunOf(cfg: Contract, domains: seq<string>, hostRoot: string, env: string -> Engine.Outcome): RunState
    requires NoDuplicates(domains)
  {
    BuiltGraphIsAccepted(cfg, domains, hostRoot);
    Final(Views(BuiltChecks(cfg, domains, hostRoot)), env)
  }

  /** The engine's rule for a built check. */
  lemma BuiltCheckSettles(cfg: Contract, domains: seq<string>, hostRoot: string, env: string -> Engine.Outcome, c: Check)
    requires NoDuplicates(domains) && c in BuiltChecks(cfg, domains, hostRoot)
    ensures var s := RunOf(cfg, domains, hostRoot, env);
            && c.ID() in s.byID
            && (forall p | p in c.Prerequisites() :: p in s.byID)
            && (c.ID() in s.attempted <==> forall p | p in c.Prerequisites() :: s.byID[p].status == Pass)
            && (c.ID() in s.attempted ==> s.byID[c.ID()] == Attempt(c.View(), env(c.ID())))
            && (c.ID() !in s.attempted ==> s.byID[c.ID()].status in {NotApplicable, InsufficientData})
  {
    hide BuiltChecks;
    var checks := BuiltChecks(cfg, domains, hostRoot);
    BuiltGraphIsAccepted(cfg, domains, hostRoot);
    var i :| 0 <= i < |checks| && checks[i] == c;
    assert Views(checks)[i] == c.View() && c.View() in Views(checks);
    CheckSettles(Views(checks), env, c.View());
  }

  /** The checks that stand behind a preflight: all of them without a host root, the service-backed ones always. */
  predicate Guards(hostRoot: string, c: Check) {
    !c.NamespaceCheck? && (hostRoot == "" || c.Domain() == "services" || c.Domain() == "identity")
  }

  /** Such a check waits, directly or through a service state check, for the preflight of its domain. */
  lemma WaitsForPreflight(cfg: Contract, domains: seq<string>, hostRoot: string, c: Check)
    requires NoDuplicates(domains) && c in BuiltChecks(cfg, domains, hostRoot) && Guards(hostRoot, c)
    ensures c.IdentityCheck? || PreflightOf(c.Domain()) in c.Prerequisites()
    ensures c.IdentityCheck? ==>
              exists d :: d in BuiltChecks(cfg, domains, hostRoot) && d.ID() in c.Prerequisites() &&
                          d.Domain() == "services" && !d.NamespaceCheck?
  {
    hide BuiltChecks, PathKind, SocketKind, ServiceKind, IdentityKind;
    BuiltIsProper(cfg, domains, hostRoot);
    if c.IdentityCheck? {
      var p := c.Prerequisites()[0];
      assert p in c.Prerequisites();
      BuiltProvides(cfg, domains, hostRoot, c, p);
      var d :| d in BuiltChecks(cfg, domains, hostRoot) && d.ID() == p && Rank(d) < Rank(c);
      ServiceStateId(cfg, "services" in domains, hostRoot, d, c.identitySpec.service);
      assert d.PrerequisiteCheck? && d.check.ServiceCheck?;
      assert d.Domain() == "services" && !d.NamespaceCheck? && d.ID() in c.Prerequisites();
    } else {
      CompactKeepsElements([c.prerequisite] + c.check.Prerequisites());
    }
  }

  /** The state check of a service as the builder lists it. */
  ghost function StateCheckFor(cfg: Contract, includeServices: bool, name: string): Check {
    PrerequisiteCheck(ServiceCheck(name, ServiceSpecFor(cfg, includeServices, name), "state"), SERVICE_NAMESPACE_CHECK_ID)
  }

  lemma ServiceStateId(cfg: Contract, includeServices: bool, hostRoot: string, d: Check, name: string)
    requires Proper(cfg, includeServices, hostRoot, d) && d.ID() == Named("service.", name, "state")
    ensures d == StateCheckFor(cfg, includeServices, name)
  {
    var e := StateCheckFor(cfg, includeServices, name);
    assert e.ID() == d.ID();
    ProperIdsTellApart(cfg, includeServices, hostRoot, d, e);
  }

  /** If the preflight of a domain did not pass, no other check of the domain is attempted or passes. */
  lemma DomainFailsClosed(cfg: Contract, domains: seq<string>, hostRoot: string, env: string -> Engine.Outcome, c: Check)
    requires NoDuplicates(domains) && c in BuiltChecks(cfg, domains, hostRoot) && Guards(hostRoot, c)
    ensures var s, preflight := RunOf(cfg, domains, hostRoot, env), PreflightOf(c.Domain());
            && preflight in s.byID && c.ID() in s.byID
            && (s.byID[preflight].status != Pass ==> c.ID() !in s.attempted && s.byID[c.ID()].status != Pass)
  {
    hide BuiltChecks, RunOf;
    BuiltCheckSettles(cfg, domains, hostRoot, env, c);
    WaitsForPreflight(cfg, domains, hostRoot, c);
    if c.IdentityCheck? {
      var d :| d in BuiltChecks(cfg, domains, hostRoot) && d.ID() in c.Prerequisites() &&
               d.Domain() == "services" && !d.NamespaceCheck?;
      BuiltCheckSettles(cfg, domains, hostRoot, env, d);
      NotIdentity(d);
      WaitsForPreflight(cfg, domains, hostRoot, d);
    }
  }

  lemma NotIdentity(d: Check)
    requires d.Domain() == "services"
    ensures !d.IdentityCheck?
  {
  }

  /** The id of the check a detail check builds on: existence of the path or socket, or the state of the service. */
  function BaseOf(inner: Check): string {
    match inner
    case PathCheck(path, _, _) => Named("path.", path, "exists")
    case SocketCheck(path, _, _) => Named("socket.", path, "exists")
    case ServiceCheck(name, _, _) => Named("service.", name, "state")
    case IdentityCheck(_, spec, _) => Named("service.", spec.service, "state")
    case _ => ""
  }

  /** In any run, with or without host root, a detail is looked at only once what it is a detail of was found. */
  lemma DetailsNeedTheirBase(cfg: Contract, domains: seq<string>, hostRoot: string, env: string -> Engine.Outcome, c: Check)
    requires NoDuplicates(domains) && c in BuiltChecks(cfg, domains, hostRoot)
    requires !c.NamespaceCheck? && c.ID() != BaseOf(Inner(c))
    requires c.ID() in RunOf(cfg, domains, hostRoot, env).attempted
    ensures Passed(RunOf(cfg, domains, hostRoot, env), BaseOf(Inner(c)))
  {
    hide BuiltChecks, RunOf, Proper, Named;
    BuiltCheckSettles(cfg, domains, hostRoot, env, c);
    var base := BaseOf(Inner(c));
    BaseIsPrerequisite(cfg, domains, hostRoot, c);
    BuiltProvides(cfg, domains, hostRoot, c, base);
    var d :| d in BuiltChecks(cfg, domains, hostRoot) && d.ID() == base && Rank(d) < Rank(c);
    BuiltCheckSettles(cfg, domains, hostRoot, env, d);
  }

  lemma BaseIsPrerequisite(cfg: Contract, domains: seq<string>, hostRoot: string, c: Check)
    requires NoDuplicates(domains) && c in BuiltChecks(cfg, domains, hostRoot)
    requires !c.NamespaceCheck? && c.ID() != BaseOf(Inner(c))
    ensures BaseOf(Inner(c)) in c.Prerequisites()
  {
    hide BuiltChecks, PathKind, SocketKind, ServiceKind, IdentityKind, Named;
    BuiltIsProper(cfg, domains, hostRoot);
    if c.PrerequisiteCheck? {
      CompactKeepsElements([c.prerequisite] + c.check.Prerequisites());
    }
  }

  /** An identity check is attempted only after its service's state check, which expects "active", passed. */
  lemma IdentityNeedsActiveService(cfg: Contract, domains: seq<string>, hostRoot: string, env: string -> Engine.Outcome, c: Check)
    requires NoDuplicates(domains) && Consistent(cfg)
    requires c in BuiltChecks(cfg, domains, hostRoot) && c.IdentityCheck?
    requires c.ID() in RunOf(cfg, domains, hostRoot, env).attempted
    ensures var s := RunOf(cfg, domains, hostRoot, env);
            exists spec: ServiceSpec :: spec.state == SERVICE_STATE_ACTIVE &&
              var state := PrerequisiteCheck(ServiceCheck(c.identitySpec.service, spec, "state"), SERVICE_NAMESPACE_CHECK_ID);
              state in BuiltChecks(cfg, domains, hostRoot) && Passed(s, state.ID())
  {
    hide FilePart, ServicePart, SortedChecks, Guarded;
    var includeServices := "services" in domains;
    var n := c.identitySpec.service;
    var spec := ServiceSpecFor(cfg, includeServices, n);
    var state := StateCheckFor(cfg, includeServices, n);
    IdentityIsListed(cfg, domains, hostRoot, c);
    assert !Contradicts(cfg, c.entry);
    assert spec.state == SERVICE_STATE_ACTIVE;
    StateIsListed(cfg, domains, hostRoot, n);
    BuiltCheckSettles(cfg, domains, hostRoot, env, c);
    BuiltCheckSettles(cfg, domains, hostRoot, env, state);
    assert state.ID() in c.Prerequisites();
  }

  lemma IdentityIsListed(cfg: Contract, domains: seq<string>, hostRoot: string, c: Check)
    requires NoDuplicates(domains) && c in BuiltChecks(cfg, domains, hostRoot) && c.IdentityCheck?
    ensures "identity" in domains && c.entry in cfg.identity && cfg.identity[c.entry] == c.identitySpec
  {
    hide FilePart, ServicePart, Guarded, SortedChecks;
    FilePartIs(cfg, "services" in domains, domains, hostRoot);
    ServiceSideIs(cfg, "services" in domains, "identity" in domains, hostRoot);
    IdentitiesAre(cfg);
  }

  lemma StateIsListed(cfg: Contract, domains: seq<string>, hostRoot: string, n: string)
    requires "identity" in domains && n in ServicesOf(cfg.identity)
    ensures StateCheckFor(cfg, "services" in domains, n) in BuiltChecks(cfg, domains, hostRoot)
  {
    hide FilePart, ServicePart, SortedChecks;
    StateListed(cfg, "services" in domains, true, n);
    ServicesAre(cfg, "services" in domains, true);
    GuardedHas(ServicePart(cfg, "services" in domains, true), ServicePreflight(cfg));
  }

  // ---- away from systemd ----

  /** How the preflight of a domain can end without passing: in a panic, a timeout or a cancellation, or with what
      its own probe made of the world. Each preflight may end in its own way. */
  ghost predicate EndsUnpassed(domain: string, target: string, outcome: Engine.Outcome) {
    outcome.Returned? ==>
      outcome.result.status != Pass &&
      exists cancelled, probe :: outcome.result == NamespaceRun(domain, target, cancelled, probe)
  }

  ghost predicate NonePasses(env: string -> Engine.Outcome, target: string) {
    forall domain | domain in {"paths", "sockets", "services"} :: EndsUnpassed(domain, target, env(PreflightOf(domain)))
  }

  lemma CheckBehind(cfg: Contract, domains: seq<string>, env: string -> Engine.Outcome, id: string) returns (c: Check)
    requires NoDuplicates(domains)
    requires var s := RunOf(cfg, domains, "", env); id in s.byID || id in s.attempted
    ensures c in BuiltChecks(cfg, domains, "") && c.ID() == id
  {
    hide BuiltChecks;
    var checks := BuiltChecks(cfg, domains, "");
    var views := Views(checks);
    BuiltGraphIsAccepted(cfg, domains, "");
    RunShape(Engine.Scheduled(views), env);
    ScheduleIsTopologicalPermutation(views);
    IdsIgnoreOrder(Engine.Scheduled(views), views);
    SameElements(Engine.Ids(Engine.Scheduled(views)), Engine.Ids(views));
    var i :| 0 <= i < |checks| && Engine.Ids(views)[i] == id;
    c := checks[i];
  }

  /** When no preflight passes, only preflights are attempted. */
  lemma OnlyPreflightsAreAttempted(cfg: Contract, domains: seq<string>, env: string -> Engine.Outcome, id: string)
    requires NoDuplicates(domains)
    requires forall domain | domain in {"paths", "sockets", "services"} ::
               var outcome := env(PreflightOf(domain)); outcome.Returned? ==> outcome.result.status != Pass
    requires id in RunOf(cfg, domains, "", env).attempted
    ensures exists domain :: domain in {"paths", "sockets", "services"} && id == PreflightOf(domain)
  {
    hide BuiltChecks, RunOf;
    var c := CheckBehind(cfg, domains, env, id);
    if !c.NamespaceCheck? {
      DomainFailsClosed(cfg, domains, "", env, c);
      var domain := if c.Domain() in {"paths", "sockets"} then c.Domain() else "services";
      assert PreflightOf(domain) == PreflightOf(c.Domain());
      var d := CheckBehind(cfg, domains, env, PreflightOf(domain));
      BuiltCheckSettles(cfg, domains, "", env, d);
    } else {
      BuiltIsProper(cfg, domains, "");
      assert id == PreflightOf("paths") || id == PreflightOf("sockets") || id == PreflightOf("services");
    }
  }

  lemma AttemptedOutsideSystemd(cfg: Contract, domains: seq<string>, env: string -> Engine.Outcome, id: string)
    requires NoDuplicates(domains) && NonePasses(env, cfg.target)
    requires id in RunOf(cfg, domains, "", env).attempted
    ensures var s := RunOf(cfg, domains, "", env);
            && id in s.byID && s.byID[id].status in {Error, NotApplicable}
            && (cfg.target == TARGET_LINUX_SYSTEMD ==> s.byID[id].status == Error)
  {
    hide BuiltChecks, RunOf;
    OnlyPreflightsAreAttempted(cfg, domains, env, id);
    var c := CheckBehind(cfg, domains, env, id);
    BuiltCheckSettles(cfg, domains, "", env, c);
    var domain :| domain in {"paths", "sockets", "services"} && id == PreflightOf(domain);
    assert EndsUnpassed(domain, cfg.target, env(id));
  }

  /** The status of the result is that of an attempted check, or what propagation makes of it. */
  ghost predicate GoesBackTo(s: RunState, r: CheckResult, q: string) {
    q in s.attempted && q in s.byID &&
    r.status in (if s.byID[q].status == Error then {Error, InsufficientData} else {NotApplicable})
  }

  /** Any result of such a run goes back to an attempted preflight, which settles its class. */
  lemma StatusOutsideSystemd(cfg: Contract, domains: seq<string>, env: string -> Engine.Outcome, r: CheckResult)
    returns (q: string)
    requires NoDuplicates(domains) && NonePasses(env, cfg.target)
    requires r in RunOf(cfg, domains, "", env).results
    ensures GoesBackTo(RunOf(cfg, domains, "", env), r, q)
  {
    hide BuiltChecks, Views, NonePasses;
    var s := RunOf(cfg, domains, "", env);
    var views := Views(BuiltChecks(cfg, domains, ""));
    BuiltGraphIsAccepted(cfg, domains, "");
    var i := PositionOf(views, env, r);
    q := r.checkID;
    if r.checkID !in s.attempted {
      q := BlockedByAttempted(views, env, i);
    }
    AttemptedOutsideSystemd(cfg, domains, env, q);
  }

  lemma AttemptedShows(cfg: Contract, domains: seq<string>, env: string -> Engine.Outcome, q: string)
    requires NoDuplicates(domains) && q in RunOf(cfg, domains, "", env).attempted
    ensures var s := RunOf(cfg, domains, "", env); q in s.byID && s.byID[q] in s.results
  {
    hide BuiltChecks, Views;
    var checks := BuiltChecks(cfg, domains, "");
    BuiltGraphIsAccepted(cfg, domains, "");
    var c := CheckBehind(cfg, domains, env, q);
    var i :| 0 <= i < |checks| && checks[i] == c;
    assert Views(checks)[i] == c.View();
    ResultOfCheck(Views(checks), env, c.View());
  }

  ghost predicate SomeAttemptedErred(s: RunState) {
    exists q :: q in s.attempted && q in s.byID && s.byID[q].status == Error
  }

  /** A run whose results all go back to attempted errors and refusals. */
  lemma ExitCodeOfRefusals(s: RunState)
    requires forall r | r in s.results :: exists q :: GoesBackTo(s, r, q)
    requires forall q | q in s.attempted :: q in s.byID && s.byID[q] in s.results
    ensures ExitCodeForResults(s.results) == if SomeAttemptedErred(s) then 2 else 0
  {
    ExitCodeMeans(s.results);
    if SomeAttemptedErred(s) {
      var q :| q in s.attempted && q in s.byID && s.byID[q].status == Error;
      assert Has(s.results, Error);
    } else {
      forall r | r in s.results ensures r.status == NotApplicable {
        var q :| GoesBackTo(s, r, q);
      }
    }
  }

  /** The exit code of a run in which no preflight passes: 2 when some attempted preflight is an error, otherwise 0.
      On linux-systemd it is 2 as soon as there is anything to check. */
  lemma ExitCodeOutsideSystemd(cfg: Contract, domains: seq<string>, env: string -> Engine.Outcome)
    requires NoDuplicates(domains) && NonePasses(env, cfg.target)
    ensures var s := RunOf(cfg, domains, "", env);
            && ExitCodeForResults(s.results) == (if SomeAttemptedErred(s) then 2 else 0)
            && (cfg.target == TARGET_LINUX_SYSTEMD && s.results != [] ==> ExitCodeForResults(s.results) == 2)
  {
    hide RunOf, NonePasses, GoesBackTo, ExitCodeForResults;
    var s := RunOf(cfg, domains, "", env);
    forall r | r in s.results ensures exists q :: GoesBackTo(s, r, q) {
      var q := StatusOutsideSystemd(cfg, domains, env, r);
    }
    forall q | q in s.attempted ensures q in s.byID && s.byID[q] in s.results { AttemptedShows(cfg, domains, env, q); }
    ExitCodeOfRefusals(s);
    if s.results != [] && cfg.target == TARGET_LINUX_SYSTEMD {
      var q := StatusOutsideSystemd(cfg, domains, env, s.results[0]);
      assert q in s.attempted by { GoesBack(s, s.results[0], q); }
      AttemptedOutsideSystemd(cfg, domains, env, q);
    }
  }

  lemma GoesBack(s: RunState, r: CheckResult, q: string)
    requires GoesBackTo(s, r, q)
    ensures q in s.attempted && q in s.byID
  {
  }
}
