/** From the observation of a reader to the result the engine reports. */
module IdentityVerdicts {
  import opened ByteOrder
  import opened Text
  import opened CheckResults
  import opened Contracts
  import opened Checks
  import opened Builder
  import opened BuilderTheorems
  import opened FailClosed
  import Engine
  import Runs
  import Identity
  import IdentityRuns

  /** The builder only makes identity checks whose spec has a value to compare. */
  lemma BuiltIdentityIsDeclared(cfg: Contract, domains: seq<string>, hostRoot: string, c: Check)
    requires NoDuplicates(domains) && c in BuiltChecks(cfg, domains, hostRoot) && c.IdentityCheck?
    ensures Identity.Declared(c.identitySpec, c.kind)
  {
    hide FilePart, ServicePart, SortedChecks, Guarded;
    FilePartIs(cfg, "services" in domains, domains, hostRoot);
    ServiceSideIs(cfg, "services" in domains, "identity" in domains, hostRoot);
    IdentitiesAddOwn();
    SortedChecksAre(cfg.identity, AddIdentityChecks);
    assert c in AddIdentityChecks([], c.entry, cfg.identity[c.entry]);
    AddedIsDeclared(c.entry, cfg.identity[c.entry], c);
  }

  lemma AddedIsDeclared(entry: string, spec: IdentitySpec, c: Check)
    requires c in AddIdentityChecks([], entry, spec)
    ensures c.IdentityCheck? && c.identitySpec == spec && Identity.Declared(spec, c.kind)
  {
    hide AddIdentityChecks;
  }

  /** The collector of the check returned what its own reader of this machine run made of it. */
  ghost predicate AnsweredBy(s: IdentityRuns.State, c: Check, outcome: Engine.Outcome) {
    c.IdentityCheck? && Identity.Declared(c.identitySpec, c.kind) &&
    exists i: nat, cancelled: bool ::
      && i < |s.readers| && s.readers[i].Returned? && s.readers[i].service == c.identitySpec.service
      && outcome == Engine.Returned(Identity.Judged(c.identitySpec, c.kind, cancelled, s.readers[i].observed))
  }

  /** The log joins a systemctl output for the service with a later read of the process it named, in its group, and
      that read gave the status. */
  ghost predicate HasProvenance(s: IdentityRuns.State, service: string, status: Identity.ProcessStatus) {
    exists k: nat, m: nat, pid: int, group: string ::
      && pid > 0 && group != "" && k < m
      && IdentityRuns.ShownAt(s.log, k, service, pid, group)
      && IdentityRuns.InspectedAt(s.log, m, pid, group, status)
  }

  /** In a run of a built graph an identity check reported PASS or FAIL was attempted, and PASS means that a process
      read with provenance meets the contract, FAIL that it does not, however the readers interleaved and whichever
      collectors panicked or timed out. */
  lemma ReportedIdentityHasProvenance(cfg: Contract, domains: seq<string>, hostRoot: string, env: string -> Engine.Outcome,
                                      systemd: Identity.Systemd, actions: seq<IdentityRuns.Action>, c: Check)
    requires NoDuplicates(domains) && c in BuiltChecks(cfg, domains, hostRoot) && c.IdentityCheck?
    requires env(c.ID()).Returned? ==> AnsweredBy(IdentityRuns.Run(systemd, actions), c, env(c.ID()))
    requires var s := RunOf(cfg, domains, hostRoot, env);
             c.ID() in s.byID && s.byID[c.ID()].status in {Pass, Fail}
    ensures c.ID() in RunOf(cfg, domains, hostRoot, env).attempted
    ensures Identity.Declared(c.identitySpec, c.kind)
    ensures exists status ::
              && HasProvenance(IdentityRuns.Run(systemd, actions), c.identitySpec.service, status)
              && (Identity.Canonical(status) ==>
                    (RunOf(cfg, domains, hostRoot, env).byID[c.ID()].status == Pass <==>
                     Identity.Meets(c.identitySpec, c.kind, status)))
  {
    hide BuiltChecks, RunOf, IdentityRuns.Run, Identity.Judged, IdentityRuns.ShownAt, IdentityRuns.InspectedAt,
         Identity.Declared, Identity.Meets, Identity.Canonical;
    var s := IdentityRuns.Run(systemd, actions);
    BuiltCheckSettles(cfg, domains, hostRoot, env, c);
    assert env(c.ID()).Returned?;
    var i: nat, cancelled: bool :|
      && i < |s.readers| && s.readers[i].Returned? && s.readers[i].service == c.identitySpec.service
      && env(c.ID()) == Engine.Returned(Identity.Judged(c.identitySpec, c.kind, cancelled, s.readers[i].observed));
    var o := s.readers[i].observed;
    IdentityRuns.VerdictHasProvenance(systemd, actions, i, c.identitySpec, c.kind, cancelled);
    if Identity.Canonical(o.status) { Identity.VerdictMeans(c.identitySpec, c.kind, cancelled, o); }
    assert HasProvenance(s, c.identitySpec.service, o.status);
  }
}
