/** buildChecksForDomains and selectedDomains of the command line. */
module Builder {
  import opened ByteOrder
  import opened Text
  import opened Contracts
  import opened Checks

  datatype BuildResult = Built(checks: seq<Check>) | SemanticError(entry: string) | UnsupportedDomain(domain: string)

  const KNOWN_DOMAINS := ["identity", "paths", "services", "sockets"]

  function WithPrerequisiteOf(checks: seq<Check>, prerequisite: string): seq<Check> {
    seq(|checks|, i requires 0 <= i < |checks| => PrerequisiteCheck(checks[i], prerequisite))
  }

  /** A domain's checks behind its namespace preflight. */
  function Guarded(checks: seq<Check>, preflight: Check): seq<Check> {
    if checks == [] then [] else [preflight] + WithPrerequisiteOf(checks, preflight.ID())
  }

  function PathPreflight(cfg: Contract): Check {
    NamespaceCheck(PATH_NAMESPACE_CHECK_ID, "paths", cfg.target)
  }

  function SocketPreflight(cfg: Contract): Check {
    NamespaceCheck(SOCKET_NAMESPACE_CHECK_ID, "sockets", cfg.target)
  }

  function ServicePreflight(cfg: Contract): Check {
    NamespaceCheck(SERVICE_NAMESPACE_CHECK_ID, "services", cfg.target)
  }

  ghost function PathPart(cfg: Contract, hostRoot: string): seq<Check> {
    var checks := SortedChecks(cfg.paths, AddPathChecks);
    if hostRoot == "" then Guarded(checks, PathPreflight(cfg)) else checks
  }

  ghost function SocketPart(cfg: Contract, hostRoot: string): seq<Check> {
    var checks := SortedChecks(cfg.sockets, AddSocketChecks);
    if hostRoot == "" then Guarded(checks, SocketPreflight(cfg)) else checks
  }

  ghost function FilePart(cfg: Contract, domains: seq<string>, hostRoot: string): seq<Check> {
    if domains == [] then []
    else
      var front := FilePart(cfg, domains[..|domains| - 1], hostRoot);
      match domains[|domains| - 1]
      case "paths" => front + PathPart(cfg, hostRoot)
      case "sockets" => front + SocketPart(cfg, hostRoot)
      case _ => front
  }

  /** The spec of a state check made up for the identity domain. */
  function StateSpec(cfg: Contract, name: string): ServiceSpec {
    ServiceSpec(if name in cfg.services then cfg.services[name].state else SERVICE_STATE_ACTIVE, None, None, None)
  }

  ghost function StatesFor(cfg: Contract, names: set<string>, includeServices: bool): map<string, ServiceSpec> {
    map name | name in names && (name !in cfg.services || !includeServices) :: StateSpec(cfg, name)
  }

  ghost function ServicesOf(identity: map<string, IdentitySpec>): set<string> {
    set e | e in identity :: identity[e].service
  }

  /** The state checks identity entries need when the services domain does not already bring them. */
  ghost function SynthesizedStates(cfg: Contract, includeServices: bool): map<string, ServiceSpec> {
    StatesFor(cfg, ServicesOf(cfg.identity), includeServices)
  }

  ghost function ServicePart(cfg: Contract, includeServices: bool, includeIdentity: bool): seq<Check> {
    (if includeServices then SortedChecks(cfg.services, AddServiceChecks) else []) +
    (if includeIdentity then SortedChecks(SynthesizedStates(cfg, includeServices), AddServiceStateCheck) else [])
  }

  ghost function IdentityPart(cfg: Contract, includeIdentity: bool): seq<Check> {
    if includeIdentity then SortedChecks(cfg.identity, AddIdentityChecks) else []
  }

  ghost function BuiltChecks(cfg: Contract, domains: seq<string>, hostRoot: string): seq<Check> {
    FilePart(cfg, domains, hostRoot) +
    Guarded(ServicePart(cfg, "services" in domains, "identity" in domains), ServicePreflight(cfg)) +
    IdentityPart(cfg, "identity" in domains)
  }

  method WithPrerequisite(checks: seq<Check>, prerequisite: string) returns (wrapped: seq<Check>)
    ensures wrapped == WithPrerequisiteOf(checks, prerequisite)
  {
    wrapped := [];
    var i := 0;
    while i < |checks|
      invariant 0 <= i <= |checks|
      invariant wrapped == WithPrerequisiteOf(checks[..i], prerequisite)
    {
      wrapped := wrapped + [PrerequisiteCheck(checks[i], prerequisite)];
      i := i + 1;
    }
    assert checks[..i] == checks;
  }

  method BuildServiceBackedChecks(cfg: Contract, includeServices: bool, includeIdentity: bool)
    returns (serviceChecks: seq<Check>, identityChecks: seq<Check>)
    ensures serviceChecks == ServicePart(cfg, includeServices, includeIdentity)
    ensures identityChecks == IdentityPart(cfg, includeIdentity)
  {
    serviceChecks, identityChecks := [], [];
    if includeServices {
      serviceChecks := BuildServiceChecks(cfg.services, false);
    }
    if !includeIdentity { return; }
    var synthesized := SynthesizeStates(cfg, includeServices);
    if |synthesized| > 0 {
      var states := BuildServiceChecks(synthesized, true);
      serviceChecks := serviceChecks + states;
    } else {
      assert synthesized.Keys == {} && SortedKeys(synthesized.Keys) == [];
    }
    identityChecks := BuildIdentityChecks(cfg.identity);
  }

  lemma StatesForOneMore(cfg: Contract, names: set<string>, name: string, includeServices: bool)
    ensures StatesFor(cfg, names + {name}, includeServices) ==
            if name !in cfg.services || !includeServices
            then StatesFor(cfg, names, includeServices)[name := StateSpec(cfg, name)]
            else StatesFor(cfg, names, includeServices)
  {
  }

  /** The loop over the identity entries, in whatever order the map yields them. */
  method SynthesizeStates(cfg: Contract, includeServices: bool) returns (states: map<string, ServiceSpec>)
    ensures states == SynthesizedStates(cfg, includeServices)
  {
    states := map[];
    var rest := cfg.identity.Keys;
    ghost var names: set<string> := {};
    while rest != {}
      invariant rest <= cfg.identity.Keys
      invariant names == set e | e in cfg.identity && e !in rest :: cfg.identity[e].service
      invariant states == StatesFor(cfg, names, includeServices)
      decreases |rest|
    {
      var e :| e in rest;
      rest := rest - {e};
      var service := cfg.identity[e].service;
      StatesForOneMore(cfg, names, service, includeServices);
      names := names + {service};
      if service in cfg.services {
        if !includeServices {
          states := states[service := ServiceSpec(cfg.services[service].state, None, None, None)];
        }
        continue;
      }
      states := states[service := ServiceSpec(SERVICE_STATE_ACTIVE, None, None, None)];
    }
    assert names == ServicesOf(cfg.identity);
  }

  /** The "paths" case of the domain loop. */
  method AppendPathPart(cfg: Contract, hostRoot: string, front: seq<Check>) returns (checks: seq<Check>)
    ensures checks == front + PathPart(cfg, hostRoot)
  {
    var pathChecks := BuildPathChecks(cfg.paths);
    if |pathChecks| == 0 { return front; }
    if hostRoot == "" {
      var wrapped := WithPrerequisite(pathChecks, PATH_NAMESPACE_CHECK_ID);
      return front + [PathPreflight(cfg)] + wrapped;
    } else {
      return front + pathChecks;
    }
  }

  /** The "sockets" case of the domain loop. */
  method AppendSocketPart(cfg: Contract, hostRoot: string, front: seq<Check>) returns (checks: seq<Check>)
    ensures checks == front + SocketPart(cfg, hostRoot)
  {
    var socketChecks := BuildSocketChecks(cfg.sockets);
    if |socketChecks| == 0 { return front; }
    if hostRoot == "" {
      var wrapped := WithPrerequisite(socketChecks, SOCKET_NAMESPACE_CHECK_ID);
      return front + [SocketPreflight(cfg)] + wrapped;
    } else {
      return front + socketChecks;
    }
  }

  /** The domain loop of buildChecksForDomains. */
  method BuildFileChecks(cfg: Contract, domains: seq<string>, hostRoot: string) returns (r: BuildResult)
    ensures !r.SemanticError?
    ensures r.Built? <==> forall d | d in domains :: d in KNOWN_DOMAINS
    ensures r.Built? ==> r.checks == FilePart(cfg, domains, hostRoot)
    ensures r.UnsupportedDomain? ==> r.domain in domains && r.domain !in KNOWN_DOMAINS
  {
    var checks: seq<Check> := [];
    var i := 0;
    while i < |domains|
      invariant 0 <= i <= |domains|
      invariant checks == FilePart(cfg, domains[..i], hostRoot)
      invariant forall d | d in domains[..i] :: d in KNOWN_DOMAINS
    {
      assert domains[..i + 1][..i] == domains[..i];
      var domain := domains[i];
      assert domain in domains;
      i := i + 1;
      match domain {
        case "paths" => checks := AppendPathPart(cfg, hostRoot, checks);
        case "sockets" => checks := AppendSocketPart(cfg, hostRoot, checks);
        case "identity" =>
        case "services" =>
        case _ => return UnsupportedDomain(domain);
      }
    }
    assert domains[..i] == domains;
    return Built(checks);
  }

  /** The service-backed half of buildChecksForDomains. */
  method AppendServiceBacked(cfg: Contract, includeServices: bool, includeIdentity: bool, front: seq<Check>)
    returns (checks: seq<Check>)
    ensures checks == front + Guarded(ServicePart(cfg, includeServices, includeIdentity), ServicePreflight(cfg)) +
                      IdentityPart(cfg, includeIdentity)
  {
    hide ServicePart, IdentityPart;
    var serviceChecks, identityChecks := BuildServiceBackedChecks(cfg, includeServices, includeIdentity);
    checks := front;
    if |serviceChecks| > 0 {
      checks := checks + [ServicePreflight(cfg)];
      var wrapped := WithPrerequisite(serviceChecks, SERVICE_NAMESPACE_CHECK_ID);
      assert checks + wrapped == front + ([ServicePreflight(cfg)] + wrapped);
      checks := checks + wrapped;
    } else {
      assert front + [] == front;
    }
    checks := checks + identityChecks;
  }

  method BuildChecksForDomains(cfg: Contract, domains: seq<string>, hostRoot: string) returns (r: BuildResult)
    ensures r.Built? <==> Consistent(cfg) && forall d | d in domains :: d in KNOWN_DOMAINS
    ensures r.Built? ==> r.checks == BuiltChecks(cfg, domains, hostRoot)
    ensures r.SemanticError? ==> r.entry in cfg.identity && Contradicts(cfg, r.entry)
    ensures r.UnsupportedDomain? ==> r.domain in domains && r.domain !in KNOWN_DOMAINS
  {
    hide FilePart, Guarded;
    var bad := ValidateSemantics(cfg);
    if bad.Some? { return SemanticError(bad.value); }
    var files := BuildFileChecks(cfg, domains, hostRoot);
    if files.UnsupportedDomain? { return files; }
    var checks := files.checks;
    if "services" in domains || "identity" in domains {
      checks := AppendServiceBacked(cfg, "services" in domains, "identity" in domains, checks);
    } else {
      NothingServiceBacked(cfg, checks);
    }
    return Built(checks);
  }

  lemma NothingServiceBacked(cfg: Contract, front: seq<Check>)
    ensures front + Guarded(ServicePart(cfg, false, false), ServicePreflight(cfg)) + IdentityPart(cfg, false) == front
  {
  }

  // ---- the domains to run ----

  /** The nonempty trimmed parts, each at its first occurrence. */
  function DistinctParts(parts: seq<string>): (r: seq<string>)
    ensures NoDuplicates(r)
    ensures forall d :: d in r <==> d != "" && exists p :: p in parts && TrimSpace(p) == d
  {
    if parts == [] then []
    else
      var init, last := parts[..|parts| - 1], parts[|parts| - 1];
      assert parts == init + [last];
      var r := DistinctParts(init);
      var domain := TrimSpace(last);
      if domain == "" || domain in r then r else r + [domain]
  }

  function Also(front: seq<string>, cond: bool, domain: string): seq<string> {
    if cond then front + [domain] else front
  }

  /** The domains the contract has something to say about. */
  function DeclaredDomains(cfg: Contract): seq<string> {
    var domains := Also([], |cfg.paths| > 0, "paths");
    var domains := Also(domains, |cfg.identity| > 0, "identity");
    var domains := Also(domains, |cfg.sockets| > 0, "sockets");
    Also(domains, |cfg.services| > 0, "services")
  }

  lemma AlsoKeepsDistinct(front: seq<string>, cond: bool, domain: string)
    requires NoDuplicates(front) && domain !in front
    ensures NoDuplicates(Also(front, cond, domain))
    ensures forall d :: d in Also(front, cond, domain) <==> d in front || (cond && d == domain)
  {
  }

  lemma DeclaredDomainsAre(cfg: Contract)
    ensures NoDuplicates(DeclaredDomains(cfg))
    ensures forall d :: d in DeclaredDomains(cfg) <==>
              || (d == "paths" && |cfg.paths| > 0) || (d == "identity" && |cfg.identity| > 0)
              || (d == "sockets" && |cfg.sockets| > 0) || (d == "services" && |cfg.services| > 0)
  {
    var a := Also([], |cfg.paths| > 0, "paths");
    AlsoKeepsDistinct([], |cfg.paths| > 0, "paths");
    var b := Also(a, |cfg.identity| > 0, "identity");
    AlsoKeepsDistinct(a, |cfg.identity| > 0, "identity");
    var c := Also(b, |cfg.sockets| > 0, "sockets");
    AlsoKeepsDistinct(b, |cfg.sockets| > 0, "sockets");
    AlsoKeepsDistinct(c, |cfg.services| > 0, "services");
  }

  function SelectedDomainsOf(cfg: Contract, filter: string): seq<string> {
    SortStrings(if filter != "" then DistinctParts(Split(filter, ',')) else DeclaredDomains(cfg))
  }

  method SelectedDomains(cfg: Contract, filter: string) returns (domains: seq<string>)
    ensures domains == SelectedDomainsOf(cfg, filter)
  {
    domains := [];
    if filter != "" {
      var parts := Split(filter, ',');
      var seen: set<string> := {};
      var i := 0;
      while i < |parts|
        invariant 0 <= i <= |parts|
        invariant domains == DistinctParts(parts[..i])
        invariant forall d :: d in seen <==> d in domains
      {
        assert parts[..i + 1][..i] == parts[..i];
        var domain := TrimSpace(parts[i]);
        i := i + 1;
        if domain == "" || domain in seen { continue; }
        seen := seen + {domain};
        domains := domains + [domain];
      }
      assert parts[..i] == parts;
      return SortStrings(domains);
    }
    if |cfg.paths| > 0 { domains := domains + ["paths"]; }
    if |cfg.identity| > 0 { domains := domains + ["identity"]; }
    if |cfg.sockets| > 0 { domains := domains + ["sockets"]; }
    if |cfg.services| > 0 { domains := domains + ["services"]; }
    return SortStrings(domains);
  }

  /** The selected domains are distinct and in byte order; without a filter they are exactly the ones the contract
      declares something for, all of them known. */
  lemma SelectedDomainsAreDistinct(cfg: Contract, filter: string)
    ensures NoDuplicates(SelectedDomainsOf(cfg, filter)) && Sorted(SelectedDomainsOf(cfg, filter))
    ensures filter == "" ==> forall d | d in SelectedDomainsOf(cfg, filter) :: d in KNOWN_DOMAINS
    ensures filter == "" ==> forall d :: d in SelectedDomainsOf(cfg, filter) <==>
              || (d == "paths" && |cfg.paths| > 0) || (d == "identity" && |cfg.identity| > 0)
              || (d == "sockets" && |cfg.sockets| > 0) || (d == "services" && |cfg.services| > 0)
    ensures filter != "" ==> forall d :: d in SelectedDomainsOf(cfg, filter) <==>
              d != "" && exists part :: part in Split(filter, ',') && TrimSpace(part) == d
  {
    hide DeclaredDomains, SortStrings;
    var unsorted := if filter != "" then DistinctParts(Split(filter, ',')) else DeclaredDomains(cfg);
    DeclaredDomainsAre(cfg);
    SameElements(unsorted, SortStrings(unsorted));
    SortStringsIgnoresOrder(unsorted, unsorted);
  }
}
