/** Which checks a contract gets: every declared value of a selected domain has its check, and nothing else has one. */
module BuilderMembers {
  import opened ByteOrder
  import opened Contracts
  import opened Checks
  import opened CheckIds
  import opened Builder
  import opened BuilderTheorems

  // ---- the values a spec sets ----

  predicate PathValue(spec: PathSpec, kind: string) {
    || kind == "exists"
    || (kind == "type" && spec.pathType != "") || (kind == "mode" && spec.mode != "")
    || (kind == "owner" && spec.owner != "") || (kind == "group" && spec.group != "")
  }

  predicate SocketValue(spec: SocketSpec, kind: string) {
    || kind == "exists"
    || (kind == "owner" && spec.owner != "") || (kind == "group" && spec.group != "")
    || (kind == "mode" && spec.mode != "")
  }

  predicate ServiceValue(spec: ServiceSpec, kind: string) {
    || kind == "state"
    || (kind == "restart" && spec.restart.Some?) || (kind == "run_as.user" && spec.runAs.Some?)
    || (kind == "run_as.group" && spec.runAs.Some? && spec.runAs.value.group != "")
    || (kind == "capabilities" && spec.capabilities.Some?)
  }

  predicate IdentityValue(spec: IdentitySpec, kind: string) {
    || (kind == "uid" && spec.uid.Some?) || (kind == "gid" && spec.gid.Some?)
    || (spec.capabilities.Some? &&
        (var caps := spec.capabilities.value;
         || (kind == "capabilities.effective" && caps.effective.Some?)
         || (kind == "capabilities.permitted" && caps.permitted.Some?)
         || (kind == "capabilities.inheritable" && caps.inheritable.Some?)
         || (kind == "capabilities.bounding" && caps.bounding.Some?)
         || (kind == "capabilities.ambient" && caps.ambient.Some?)))
  }

  // ---- what a contract and a choice of domains call for ----

  predicate WantsPath(cfg: Contract, domains: seq<string>, c: Check) {
    c.PathCheck? && "paths" in domains && c.path in cfg.paths && c.pathSpec == cfg.paths[c.path] &&
    PathValue(c.pathSpec, c.kind)
  }

  predicate WantsSocket(cfg: Contract, domains: seq<string>, c: Check) {
    c.SocketCheck? && "sockets" in domains && c.path in cfg.sockets && c.socketSpec == cfg.sockets[c.path] &&
    SocketValue(c.socketSpec, c.kind)
  }

  predicate WantsIdentity(cfg: Contract, domains: seq<string>, c: Check) {
    c.IdentityCheck? && "identity" in domains && c.entry in cfg.identity && c.identitySpec == cfg.identity[c.entry] &&
    IdentityValue(c.identitySpec, c.kind)
  }

  /** A declared service of the services domain, or the state of a service an identity entry needs and the services
      domain does not bring: the declared state if there is one, otherwise "active". */
  predicate WantsService(cfg: Contract, domains: seq<string>, c: Check) {
    c.ServiceCheck? &&
    (|| ("services" in domains && c.name in cfg.services && c.serviceSpec == cfg.services[c.name] &&
         ServiceValue(c.serviceSpec, c.kind))
     || ("identity" in domains && (exists e :: e in cfg.identity && cfg.identity[e].service == c.name) &&
         !("services" in domains && c.name in cfg.services) && c.kind == "state" &&
         c.serviceSpec ==
           ServiceSpec(if c.name in cfg.services then cfg.services[c.name].state else "active", None, None, None)))
  }

  /** The check as it is listed: file checks behind their preflight unless there is a host root, service checks always
      behind theirs, identity checks bare, and a preflight wherever something stands behind it. */
  predicate Wanted(cfg: Contract, domains: seq<string>, hostRoot: string, c: Check) {
    match c
    case PathCheck(_, _, _) => hostRoot != "" && WantsPath(cfg, domains, c)
    case SocketCheck(_, _, _) => hostRoot != "" && WantsSocket(cfg, domains, c)
    case ServiceCheck(_, _, _) => false
    case IdentityCheck(_, _, _) => WantsIdentity(cfg, domains, c)
    case NamespaceCheck(id, domain, target) =>
      target == cfg.target &&
      (|| (id == "path.__preflight__.namespace" && domain == "paths" &&
           hostRoot == "" && "paths" in domains && cfg.paths != map[])
       || (id == "socket.__preflight__.namespace" && domain == "sockets" &&
           hostRoot == "" && "sockets" in domains && cfg.sockets != map[])
       || (id == "service.__preflight__.namespace" && domain == "services" &&
           (("services" in domains && cfg.services != map[]) || ("identity" in domains && cfg.identity != map[]))))
    case PrerequisiteCheck(inner, prerequisite) =>
      || (hostRoot == "" && WantsPath(cfg, domains, inner) && prerequisite == "path.__preflight__.namespace")
      || (hostRoot == "" && WantsSocket(cfg, domains, inner) && prerequisite == "socket.__preflight__.namespace")
      || (WantsService(cfg, domains, inner) && prerequisite == "service.__preflight__.namespace")
  }

  // ---- part by part ----

  lemma PathListed(cfg: Contract, c: Check)
    ensures c in SortedChecks(cfg.paths, AddPathChecks) <==>
            c.PathCheck? && c.path in cfg.paths && c.pathSpec == cfg.paths[c.path] && PathValue(c.pathSpec, c.kind)
  {
    hide AddPathChecks;
    PathsAddOwn();
    SortedChecksAre(cfg.paths, AddPathChecks);
  }

  lemma SocketListed(cfg: Contract, c: Check)
    ensures c in SortedChecks(cfg.sockets, AddSocketChecks) <==>
            c.SocketCheck? && c.path in cfg.sockets && c.socketSpec == cfg.sockets[c.path] &&
            SocketValue(c.socketSpec, c.kind)
  {
    hide AddSocketChecks;
    SocketsAddOwn();
    SortedChecksAre(cfg.sockets, AddSocketChecks);
  }

  lemma ServiceListed(cfg: Contract, c: Check)
    ensures c in SortedChecks(cfg.services, AddServiceChecks) <==>
            c.ServiceCheck? && c.name in cfg.services && c.serviceSpec == cfg.services[c.name] &&
            ServiceValue(c.serviceSpec, c.kind)
  {
    hide AddServiceChecks;
    ServicesAddOwn();
    SortedChecksAre(cfg.services, AddServiceChecks);
  }

  lemma IdentityListed(cfg: Contract, c: Check)
    ensures c in SortedChecks(cfg.identity, AddIdentityChecks) <==>
            c.IdentityCheck? && c.entry in cfg.identity && c.identitySpec == cfg.identity[c.entry] &&
            IdentityValue(c.identitySpec, c.kind)
  {
    hide AddIdentityChecks;
    IdentitiesAddOwn();
    SortedChecksAre(cfg.identity, AddIdentityChecks);
  }

  lemma PathPartMeans(cfg: Contract, domains: seq<string>, hostRoot: string, c: Check)
    requires "paths" in domains
    ensures c in PathPart(cfg, hostRoot) <==>
            if hostRoot != "" then WantsPath(cfg, domains, c)
            else
              || (c == PathPreflight(cfg) && cfg.paths != map[])
              || (c.PrerequisiteCheck? && WantsPath(cfg, domains, c.check) && c.prerequisite == PATH_NAMESPACE_CHECK_ID)
  {
    hide SortedChecks, Guarded, PathValue;
    var checks := SortedChecks(cfg.paths, AddPathChecks);
    PathIsListed(cfg, c);
    PathListed(cfg, c);
    if c.PrerequisiteCheck? { PathListed(cfg, c.check); }
    GuardedMember(checks, PathPreflight(cfg), c);
    AnyPathListed(cfg);
  }

  lemma AnyPathListed(cfg: Contract)
    ensures SortedChecks(cfg.paths, AddPathChecks) == [] <==> cfg.paths == map[]
  {
    hide SortedChecks;
    var checks := SortedChecks(cfg.paths, AddPathChecks);
    if checks != [] {
      PathListed(cfg, checks[0]);
      assert checks[0] in checks;
    }
    if cfg.paths != map[] {
      var k :| k in cfg.paths;
      PathListed(cfg, PathCheck(k, cfg.paths[k], "exists"));
    }
  }

  lemma SocketPartMeans(cfg: Contract, domains: seq<string>, hostRoot: string, c: Check)
    requires "sockets" in domains
    ensures c in SocketPart(cfg, hostRoot) <==>
            if hostRoot != "" then WantsSocket(cfg, domains, c)
            else
              || (c == SocketPreflight(cfg) && cfg.sockets != map[])
              || (c.PrerequisiteCheck? && WantsSocket(cfg, domains, c.check) && c.prerequisite == SOCKET_NAMESPACE_CHECK_ID)
  {
    hide SortedChecks, Guarded, SocketValue;
    var checks := SortedChecks(cfg.sockets, AddSocketChecks);
    SocketIsListed(cfg, c);
    SocketListed(cfg, c);
    if c.PrerequisiteCheck? { SocketListed(cfg, c.check); }
    GuardedMember(checks, SocketPreflight(cfg), c);
    AnySocketListed(cfg);
  }

  lemma AnySocketListed(cfg: Contract)
    ensures SortedChecks(cfg.sockets, AddSocketChecks) == [] <==> cfg.sockets == map[]
  {
    hide SortedChecks;
    var checks := SortedChecks(cfg.sockets, AddSocketChecks);
    if checks != [] {
      SocketListed(cfg, checks[0]);
      assert checks[0] in checks;
    }
    if cfg.sockets != map[] {
      var k :| k in cfg.sockets;
      SocketListed(cfg, SocketCheck(k, cfg.sockets[k], "exists"));
    }
  }

  lemma StateListedIff(states: map<string, ServiceSpec>, c: Check)
    ensures c in SortedChecks(states, AddServiceStateCheck) <==>
            c.ServiceCheck? && c.name in states && c.serviceSpec == states[c.name] && c.kind == "state"
  {
    hide SortedChecks;
    StatesAre(states);
  }

  lemma ServicePartMeans(cfg: Contract, domains: seq<string>, c: Check)
    ensures c in ServicePart(cfg, "services" in domains, "identity" in domains) <==> WantsService(cfg, domains, c)
  {
    hide SortedChecks, ServiceValue;
    ServiceListed(cfg, c);
    StateListedIff(SynthesizedStates(cfg, "services" in domains), c);
  }

  lemma AnyServiceListed(cfg: Contract, domains: seq<string>)
    ensures ServicePart(cfg, "services" in domains, "identity" in domains) != [] <==>
            ("services" in domains && cfg.services != map[]) || ("identity" in domains && cfg.identity != map[])
  {
    hide ServicePart;
    var part := ServicePart(cfg, "services" in domains, "identity" in domains);
    if part != [] {
      ServicePartMeans(cfg, domains, part[0]);
      assert part[0] in part;
    }
    if "services" in domains && cfg.services != map[] {
      var n :| n in cfg.services;
      ServicePartMeans(cfg, domains, ServiceCheck(n, cfg.services[n], "state"));
    } else if "identity" in domains && cfg.identity != map[] {
      var e :| e in cfg.identity;
      var n := cfg.identity[e].service;
      var state := if n in cfg.services then cfg.services[n].state else "active";
      ServicePartMeans(cfg, domains, ServiceCheck(n, ServiceSpec(state, None, None, None), "state"));
    }
  }

  lemma ServiceSideMeans(cfg: Contract, domains: seq<string>, c: Check)
    ensures c in Guarded(ServicePart(cfg, "services" in domains, "identity" in domains), ServicePreflight(cfg)) <==>
            || (c == ServicePreflight(cfg) &&
                (("services" in domains && cfg.services != map[]) || ("identity" in domains && cfg.identity != map[])))
            || (c.PrerequisiteCheck? && WantsService(cfg, domains, c.check) && c.prerequisite == SERVICE_NAMESPACE_CHECK_ID)
  {
    hide ServicePart, Guarded, WantsService;
    var part := ServicePart(cfg, "services" in domains, "identity" in domains);
    ServicesAre(cfg, "services" in domains, "identity" in domains);
    GuardedMember(part, ServicePreflight(cfg), c);
    AnyServiceListed(cfg, domains);
    if c.PrerequisiteCheck? { ServicePartMeans(cfg, domains, c.check); }
  }

  lemma {:induction false} FilePartMeans(cfg: Contract, domains: seq<string>, hostRoot: string, c: Check)
    ensures c in FilePart(cfg, domains, hostRoot) <==>
            ("paths" in domains && c in PathPart(cfg, hostRoot)) || ("sockets" in domains && c in SocketPart(cfg, hostRoot))
  {
    hide PathPart, SocketPart;
    if domains != [] {
      var init := domains[..|domains| - 1];
      FilePartMeans(cfg, init, hostRoot, c);
      assert domains == init + [domains[|domains| - 1]];
    }
  }

  lemma IdentityPartMeans(cfg: Contract, domains: seq<string>, c: Check)
    ensures c in IdentityPart(cfg, "identity" in domains) <==> WantsIdentity(cfg, domains, c)
  {
    hide SortedChecks, IdentityValue;
    IdentityListed(cfg, c);
  }

  /** The built checks are exactly the wanted ones: for every contract, every list of domains and every host root. */
  lemma BuiltIffWanted(cfg: Contract, domains: seq<string>, hostRoot: string, c: Check)
    ensures c in BuiltChecks(cfg, domains, hostRoot) <==> Wanted(cfg, domains, hostRoot, c)
  {
    hide FilePart, PathPart, SocketPart, ServicePart, IdentityPart, Guarded, WantsService;
    FilePartMeans(cfg, domains, hostRoot, c);
    if "paths" in domains { PathPartMeans(cfg, domains, hostRoot, c); }
    if "sockets" in domains { SocketPartMeans(cfg, domains, hostRoot, c); }
    ServiceSideMeans(cfg, domains, c);
    IdentityPartMeans(cfg, domains, c);
    if c.PrerequisiteCheck? { OneKindOfInner(cfg, domains, c.check); }
  }

  lemma OneKindOfInner(cfg: Contract, domains: seq<string>, c: Check)
    ensures WantsService(cfg, domains, c) ==> c.ServiceCheck?
  {
  }

  // ---- what each check waits for ----

  lemma CompactOfTwo(a: string, b: string)
    requires a != b
    ensures Compact([a]) == [a] && Compact([a, b]) == [a, b]
  {
    assert [a, b][1..] == [b];
  }

  lemma NamedText(prefix: string, name: string)
    ensures Named(prefix, name, "exists") == prefix + name + ".exists"
    ensures Named(prefix, name, "state") == prefix + name + ".state"
  {
    assert "." + "exists" == ".exists" && "." + "state" == ".state";
    assert prefix + name + "." + "exists" == prefix + name + ("." + "exists");
    assert prefix + name + "." + "state" == prefix + name + ("." + "state");
  }

  /** Behind its preflight a check waits for the preflight and for what it is a detail of, and for nothing else. */
  lemma PrerequisitesAre(cfg: Contract, domains: seq<string>, hostRoot: string, c: Check)
    requires Wanted(cfg, domains, hostRoot, c)
    ensures var inner := if c.PrerequisiteCheck? then c.check else c;
            var base := match inner
                        case PathCheck(path, _, kind) =>
                          if kind == "exists" then [] else ["path." + path + ".exists"]
                        case SocketCheck(path, _, kind) =>
                          if kind == "exists" then [] else ["socket." + path + ".exists"]
                        case ServiceCheck(name, _, kind) =>
                          if kind == "state" then [] else ["service." + name + ".state"]
                        case IdentityCheck(_, spec, _) => ["service." + spec.service + ".state"]
                        case _ => [];
            c.Prerequisites() == if c.PrerequisiteCheck? then [c.prerequisite] + base else base
  {
    var inner := if c.PrerequisiteCheck? then c.check else c;
    match inner {
      case PathCheck(path, _, _) => NamedText("path.", path);
      case SocketCheck(path, _, _) => NamedText("socket.", path);
      case ServiceCheck(name, _, _) => NamedText("service.", name);
      case IdentityCheck(_, spec, _) => NamedText("service.", spec.service);
      case _ =>
    }
    hide Named;
    if c.PrerequisiteCheck? {
      var base := c.check.Prerequisites();
      match c.check {
        case PathCheck(path, _, _) => PreflightIsNoNamedCheck(c.prerequisite, "path.", path, "exists");
        case SocketCheck(path, _, _) => PreflightIsNoNamedCheck(c.prerequisite, "socket.", path, "exists");
        case ServiceCheck(name, _, _) => PreflightIsNoNamedCheck(c.prerequisite, "service.", name, "state");
      }
      if base == [] {
        CompactOfTwo(c.prerequisite, c.prerequisite + "x");
        assert [c.prerequisite] + base == [c.prerequisite];
      } else {
        CompactOfTwo(c.prerequisite, base[0]);
        assert [c.prerequisite] + base == [c.prerequisite, base[0]];
      }
    }
  }

  /** The ids the reports show. */
  lemma IdsAre(c: Check)
    requires !c.PrerequisiteCheck? && !c.NamespaceCheck?
    ensures forall prerequisite :: PrerequisiteCheck(c, prerequisite).ID() == c.ID()
    ensures c.ID() == match c
                      case PathCheck(path, _, kind) => "path." + path + "." + kind
                      case SocketCheck(path, _, kind) => "socket." + path + "." + kind
                      case ServiceCheck(name, _, kind) => "service." + name + "." + kind
                      case IdentityCheck(entry, _, kind) => "identity." + entry + "." + kind
  {
  }
}
