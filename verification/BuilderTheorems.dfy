/** Every graph the builder makes is one the engine accepts. */
module BuilderTheorems {
  import opened ByteOrder
  import opened Graph
  import opened Contracts
  import opened Checks
  import opened CheckIds
  import opened Builder
  import opened RunTheorems
  import Engine

  /** The user-chosen name a check is about. */
  function Tag(c: Check): string {
    match c
    case PathCheck(path, _, _) => path
    case SocketCheck(path, _, _) => path
    case ServiceCheck(name, _, _) => name
    case IdentityCheck(entry, _, _) => entry
    case NamespaceCheck(id, _, _) => id
    case PrerequisiteCheck(check, _) => Tag(check)
  }

  // ---- lists built spec by spec ----

  /** `add` extends the list by checks of its own, all tagged with the name, none twice. */
  ghost predicate AddsOwn<S(!new)>(add: (seq<Check>, string, S) -> seq<Check>) {
    && (forall front, k, s, c {:trigger c in add(front, k, s)} :: c in add(front, k, s) <==> c in front || c in add([], k, s))
    && (forall k, s, c {:trigger c in add([], k, s)} :: c in add([], k, s) ==> Tag(c) == k)
    && (forall front, k, s {:trigger add(front, k, s)} ::
          NoDuplicates(front) && (forall c | c in front :: Tag(c) != k) ==> NoDuplicates(add(front, k, s)))
  }

  lemma {:induction false} ChecksOfMembers<S(!new)>(specs: map<string, S>, keys: seq<string>,
                                                   add: (seq<Check>, string, S) -> seq<Check>)
    requires AddsOwn(add) && forall k | k in keys :: k in specs
    ensures forall c :: c in ChecksOf(specs, keys, add) <==> Tag(c) in keys && c in add([], Tag(c), specs[Tag(c)])
  {
    if keys != [] {
      var init, last := keys[..|keys| - 1], keys[|keys| - 1];
      ChecksOfMembers(specs, init, add);
      assert keys == init + [last];
    }
  }

  lemma {:induction false} ChecksOfDistinct<S(!new)>(specs: map<string, S>, keys: seq<string>,
                                                    add: (seq<Check>, string, S) -> seq<Check>)
    requires AddsOwn(add) && NoDuplicates(keys) && forall k | k in keys :: k in specs
    ensures NoDuplicates(ChecksOf(specs, keys, add))
  {
    if keys != [] {
      var init, last := keys[..|keys| - 1], keys[|keys| - 1];
      ChecksOfDistinct(specs, init, add);
      ChecksOfMembers(specs, init, add);
    }
  }

  lemma SortedChecksAre<S(!new)>(specs: map<string, S>, add: (seq<Check>, string, S) -> seq<Check>)
    requires AddsOwn(add)
    ensures NoDuplicates(SortedChecks(specs, add))
    ensures forall c {:trigger c in SortedChecks(specs, add)} ::
              c in SortedChecks(specs, add) <==> Tag(c) in specs && c in add([], Tag(c), specs[Tag(c)])
  {
    ChecksOfMembers(specs, SortedKeys(specs.Keys), add);
    ChecksOfDistinct(specs, SortedKeys(specs.Keys), add);
  }

  lemma AppendedDistinct(front: seq<Check>, cond: bool, check: Check)
    requires NoDuplicates(front) && check !in front
    ensures NoDuplicates(Appended(front, cond, check))
  {
  }

  lemma PathsStayDistinct(front: seq<Check>, path: string, spec: PathSpec)
    requires NoDuplicates(front) && forall c | c in front :: Tag(c) != path
    ensures NoDuplicates(AddPathChecks(front, path, spec))
  {
    var a := Appended(front, true, PathCheck(path, spec, "exists"));
    AppendedDistinct(front, true, PathCheck(path, spec, "exists"));
    var b := Appended(a, spec.pathType != "", PathCheck(path, spec, "type"));
    AppendedDistinct(a, spec.pathType != "", PathCheck(path, spec, "type"));
    var c := Appended(b, spec.mode != "", PathCheck(path, spec, "mode"));
    AppendedDistinct(b, spec.mode != "", PathCheck(path, spec, "mode"));
    var d := Appended(c, spec.owner != "", PathCheck(path, spec, "owner"));
    AppendedDistinct(c, spec.owner != "", PathCheck(path, spec, "owner"));
    AppendedDistinct(d, spec.group != "", PathCheck(path, spec, "group"));
  }

  lemma SocketsStayDistinct(front: seq<Check>, path: string, spec: SocketSpec)
    requires NoDuplicates(front) && forall c | c in front :: Tag(c) != path
    ensures NoDuplicates(AddSocketChecks(front, path, spec))
  {
    var a := Appended(front, true, SocketCheck(path, spec, "exists"));
    AppendedDistinct(front, true, SocketCheck(path, spec, "exists"));
    var b := Appended(a, spec.owner != "", SocketCheck(path, spec, "owner"));
    AppendedDistinct(a, spec.owner != "", SocketCheck(path, spec, "owner"));
    var c := Appended(b, spec.group != "", SocketCheck(path, spec, "group"));
    AppendedDistinct(b, spec.group != "", SocketCheck(path, spec, "group"));
    AppendedDistinct(c, spec.mode != "", SocketCheck(path, spec, "mode"));
  }

  lemma ServicesStayDistinct(front: seq<Check>, name: string, spec: ServiceSpec)
    requires NoDuplicates(front) && forall c | c in front :: Tag(c) != name
    ensures NoDuplicates(AddServiceChecks(front, name, spec))
  {
    var a := Appended(front, true, ServiceCheck(name, spec, "state"));
    AppendedDistinct(front, true, ServiceCheck(name, spec, "state"));
    var b := Appended(a, spec.restart.Some?, ServiceCheck(name, spec, "restart"));
    AppendedDistinct(a, spec.restart.Some?, ServiceCheck(name, spec, "restart"));
    var c := Appended(b, spec.runAs.Some?, ServiceCheck(name, spec, "run_as.user"));
    AppendedDistinct(b, spec.runAs.Some?, ServiceCheck(name, spec, "run_as.user"));
    var d := Appended(c, spec.runAs.Some? && spec.runAs.value.group != "", ServiceCheck(name, spec, "run_as.group"));
    AppendedDistinct(c, spec.runAs.Some? && spec.runAs.value.group != "", ServiceCheck(name, spec, "run_as.group"));
    AppendedDistinct(d, spec.capabilities.Some?, ServiceCheck(name, spec, "capabilities"));
  }

  lemma CapabilitiesStayDistinct(front: seq<Check>, entry: string, spec: IdentitySpec, caps: CapabilitySetSpec)
    requires NoDuplicates(front)
    requires forall c | c in front :: Tag(c) != entry || (c.IdentityCheck? && c.kind in {"uid", "gid"})
    ensures NoDuplicates(AddCapabilityChecks(front, entry, spec, caps))
  {
    var a := Appended(front, caps.effective.Some?, IdentityCheck(entry, spec, "capabilities.effective"));
    AppendedDistinct(front, caps.effective.Some?, IdentityCheck(entry, spec, "capabilities.effective"));
    var b := Appended(a, caps.permitted.Some?, IdentityCheck(entry, spec, "capabilities.permitted"));
    AppendedDistinct(a, caps.permitted.Some?, IdentityCheck(entry, spec, "capabilities.permitted"));
    var c := Appended(b, caps.inheritable.Some?, IdentityCheck(entry, spec, "capabilities.inheritable"));
    AppendedDistinct(b, caps.inheritable.Some?, IdentityCheck(entry, spec, "capabilities.inheritable"));
    var d := Appended(c, caps.bounding.Some?, IdentityCheck(entry, spec, "capabilities.bounding"));
    AppendedDistinct(c, caps.bounding.Some?, IdentityCheck(entry, spec, "capabilities.bounding"));
    AppendedDistinct(d, caps.ambient.Some?, IdentityCheck(entry, spec, "capabilities.ambient"));
  }

  lemma IdentitiesStayDistinct(front: seq<Check>, entry: string, spec: IdentitySpec)
    requires NoDuplicates(front) && forall c | c in front :: Tag(c) != entry
    ensures NoDuplicates(AddIdentityChecks(front, entry, spec))
  {
    var a := Appended(front, spec.uid.Some?, IdentityCheck(entry, spec, "uid"));
    AppendedDistinct(front, spec.uid.Some?, IdentityCheck(entry, spec, "uid"));
    var b := Appended(a, spec.gid.Some?, IdentityCheck(entry, spec, "gid"));
    AppendedDistinct(a, spec.gid.Some?, IdentityCheck(entry, spec, "gid"));
    if spec.capabilities.Some? {
      CapabilitiesStayDistinct(b, entry, spec, spec.capabilities.value);
    }
  }

  lemma PathsAddOwn()
    ensures AddsOwn(AddPathChecks)
  {
    hide AddPathChecks;
    forall front: seq<Check>, k, s: PathSpec
      ensures NoDuplicates(front) && (forall c | c in front :: Tag(c) != k) ==> NoDuplicates(AddPathChecks(front, k, s))
    {
      if NoDuplicates(front) && forall c | c in front :: Tag(c) != k {
        PathsStayDistinct(front, k, s);
      }
    }
  }

  lemma SocketsAddOwn()
    ensures AddsOwn(AddSocketChecks)
  {
    hide AddSocketChecks;
    forall front: seq<Check>, k, s: SocketSpec
      ensures NoDuplicates(front) && (forall c | c in front :: Tag(c) != k) ==> NoDuplicates(AddSocketChecks(front, k, s))
    {
      if NoDuplicates(front) && forall c | c in front :: Tag(c) != k {
        SocketsStayDistinct(front, k, s);
      }
    }
  }

  lemma ServicesAddOwn()
    ensures AddsOwn(AddServiceChecks)
  {
    hide AddServiceChecks;
    forall front: seq<Check>, k, s: ServiceSpec
      ensures NoDuplicates(front) && (forall c | c in front :: Tag(c) != k) ==> NoDuplicates(AddServiceChecks(front, k, s))
    {
      if NoDuplicates(front) && forall c | c in front :: Tag(c) != k {
        ServicesStayDistinct(front, k, s);
      }
    }
  }

  lemma IdentitiesAddOwn()
    ensures AddsOwn(AddIdentityChecks)
  {
    hide AddIdentityChecks;
    forall front: seq<Check>, k, s: IdentitySpec
      ensures NoDuplicates(front) && (forall c | c in front :: Tag(c) != k) ==> NoDuplicates(AddIdentityChecks(front, k, s))
    {
      if NoDuplicates(front) && forall c | c in front :: Tag(c) != k {
        IdentitiesStayDistinct(front, k, s);
      }
    }
  }

  lemma ServiceStatesAddOwn()
    ensures AddsOwn(AddServiceStateCheck)
  {
    forall front: seq<Check>, k, s: ServiceSpec
      ensures NoDuplicates(front) && (forall c | c in front :: Tag(c) != k) ==> NoDuplicates(AddServiceStateCheck(front, k, s))
    {
      if NoDuplicates(front) && forall c | c in front :: Tag(c) != k {
        AppendedDistinct(front, true, ServiceCheck(k, s, "state"));
      }
    }
  }

  // ---- the parts of a built graph ----

  function Inner(c: Check): Check {
    if c.PrerequisiteCheck? then c.check else c
  }

  lemma GuardedHas(checks: seq<Check>, preflight: Check)
    requires NoDuplicates(checks) && !preflight.PrerequisiteCheck?
    ensures NoDuplicates(Guarded(checks, preflight))
    ensures forall c :: c in Guarded(checks, preflight) <==>
              || (checks != [] && c == preflight)
              || (c.PrerequisiteCheck? && c.check in checks && c.prerequisite == preflight.ID())
  {
    var wrapped := WithPrerequisiteOf(checks, preflight.ID());
    forall c ensures c in wrapped <==> c.PrerequisiteCheck? && c.check in checks && c.prerequisite == preflight.ID() {
      if c.PrerequisiteCheck? && c.check in checks && c.prerequisite == preflight.ID() {
        var i :| 0 <= i < |checks| && checks[i] == c.check;
        assert wrapped[i] == c;
      }
    }
  }

  lemma GuardedMember(checks: seq<Check>, preflight: Check, c: Check)
    requires NoDuplicates(checks) && !preflight.PrerequisiteCheck?
    ensures c in Guarded(checks, preflight) <==>
            || (checks != [] && c == preflight)
            || (c.PrerequisiteCheck? && c.check in checks && c.prerequisite == preflight.ID())
  {
    GuardedHas(checks, preflight);
  }

  lemma PathsAre(cfg: Contract)
    ensures NoDuplicates(SortedChecks(cfg.paths, AddPathChecks))
    ensures forall c | c in SortedChecks(cfg.paths, AddPathChecks) ::
              c.PathCheck? && c.path in cfg.paths && c.pathSpec == cfg.paths[c.path] && PathKind(c.kind)
  {
    hide AddPathChecks;
    PathsAddOwn();
    SortedChecksAre(cfg.paths, AddPathChecks);
  }

  lemma PathExistsListed(cfg: Contract, p: string)
    requires p in cfg.paths
    ensures PathCheck(p, cfg.paths[p], "exists") in SortedChecks(cfg.paths, AddPathChecks)
  {
    hide AddPathChecks;
    PathsAddOwn();
    SortedChecksAre(cfg.paths, AddPathChecks);
    assert Tag(PathCheck(p, cfg.paths[p], "exists")) == p;
  }

  lemma SocketsAre(cfg: Contract)
    ensures NoDuplicates(SortedChecks(cfg.sockets, AddSocketChecks))
    ensures forall c | c in SortedChecks(cfg.sockets, AddSocketChecks) ::
              c.SocketCheck? && c.path in cfg.sockets && c.socketSpec == cfg.sockets[c.path] && SocketKind(c.kind)
  {
    hide AddSocketChecks;
    SocketsAddOwn();
    SortedChecksAre(cfg.sockets, AddSocketChecks);
  }

  lemma SocketExistsListed(cfg: Contract, p: string)
    requires p in cfg.sockets
    ensures SocketCheck(p, cfg.sockets[p], "exists") in SortedChecks(cfg.sockets, AddSocketChecks)
  {
    hide AddSocketChecks;
    SocketsAddOwn();
    SortedChecksAre(cfg.sockets, AddSocketChecks);
    assert Tag(SocketCheck(p, cfg.sockets[p], "exists")) == p;
  }

  lemma DeclaredServicesAre(cfg: Contract)
    ensures NoDuplicates(SortedChecks(cfg.services, AddServiceChecks))
    ensures forall c | c in SortedChecks(cfg.services, AddServiceChecks) ::
              c.ServiceCheck? && c.name in cfg.services && c.serviceSpec == cfg.services[c.name] && ServiceKind(c.kind)
  {
    hide AddServiceChecks;
    ServicesAddOwn();
    SortedChecksAre(cfg.services, AddServiceChecks);
  }

  lemma ServiceStateListed(cfg: Contract, n: string)
    requires n in cfg.services
    ensures ServiceCheck(n, cfg.services[n], "state") in SortedChecks(cfg.services, AddServiceChecks)
  {
    hide AddServiceChecks;
    ServicesAddOwn();
    SortedChecksAre(cfg.services, AddServiceChecks);
    assert Tag(ServiceCheck(n, cfg.services[n], "state")) == n;
  }

  lemma StatesAre(states: map<string, ServiceSpec>)
    ensures NoDuplicates(SortedChecks(states, AddServiceStateCheck))
    ensures forall c :: c in SortedChecks(states, AddServiceStateCheck) <==>
              c.ServiceCheck? && c.name in states && c == ServiceCheck(c.name, states[c.name], "state")
  {
    hide AddServiceStateCheck;
    ServiceStatesAddOwn();
    SortedChecksAre(states, AddServiceStateCheck);
    forall c
      ensures c in SortedChecks(states, AddServiceStateCheck) <==>
              c.ServiceCheck? && c.name in states && c == ServiceCheck(c.name, states[c.name], "state")
    {
    }
  }

  lemma IdentitiesAre(cfg: Contract)
    ensures NoDuplicates(SortedChecks(cfg.identity, AddIdentityChecks))
    ensures forall c | c in SortedChecks(cfg.identity, AddIdentityChecks) ::
              c.IdentityCheck? && c.entry in cfg.identity && c.identitySpec == cfg.identity[c.entry] && IdentityKind(c.kind)
  {
    hide AddIdentityChecks;
    IdentitiesAddOwn();
    SortedChecksAre(cfg.identity, AddIdentityChecks);
  }

  /** The spec a service's checks are built from. */
  ghost function ServiceSpecFor(cfg: Contract, includeServices: bool, name: string): ServiceSpec {
    if includeServices && name in cfg.services then cfg.services[name] else StateSpec(cfg, name)
  }

  lemma ServicesAre(cfg: Contract, includeServices: bool, includeIdentity: bool)
    ensures NoDuplicates(ServicePart(cfg, includeServices, includeIdentity))
    ensures forall c | c in ServicePart(cfg, includeServices, includeIdentity) ::
              c.ServiceCheck? && ServiceKind(c.kind) && c.serviceSpec == ServiceSpecFor(cfg, includeServices, c.name)
  {
    hide SortedChecks;
    var declared := if includeServices then SortedChecks(cfg.services, AddServiceChecks) else [];
    var states := if includeIdentity then SortedChecks(SynthesizedStates(cfg, includeServices), AddServiceStateCheck) else [];
    DeclaredServicesAre(cfg);
    StatesAre(SynthesizedStates(cfg, includeServices));
    DisjointConcat(declared, states);
  }

  /** Every service with any check in the part has its state check there. */
  lemma StateListed(cfg: Contract, includeServices: bool, includeIdentity: bool, name: string)
    requires (includeIdentity && name in ServicesOf(cfg.identity)) ||
             exists c :: c in ServicePart(cfg, includeServices, includeIdentity) && Tag(c) == name
    ensures ServiceCheck(name, ServiceSpecFor(cfg, includeServices, name), "state") in
              ServicePart(cfg, includeServices, includeIdentity)
  {
    hide SortedChecks;
    DeclaredServicesAre(cfg);
    StatesAre(SynthesizedStates(cfg, includeServices));
    if includeServices && name in cfg.services {
      ServiceStateListed(cfg, name);
    }
  }

  lemma DisjointConcat<T>(a: seq<T>, b: seq<T>)
    requires NoDuplicates(a) && NoDuplicates(b) && forall x | x in a :: x !in b
    ensures NoDuplicates(a + b)
  {
    forall i, j | 0 <= i < j < |a + b| ensures (a + b)[i] != (a + b)[j] {
      if i < |a| <= j {
        assert a[i] in a && b[j - |a|] in b;
      }
    }
  }

  // ---- the whole graph ----

  /** What a check of a built graph can look like: its spec comes from the contract by its name, and whether it
      waits for a preflight is settled by its domain. */
  ghost predicate Proper(cfg: Contract, includeServices: bool, hostRoot: string, c: Check) {
    match c
    case PathCheck(path, spec, kind) => hostRoot != "" && ProperInner(cfg, includeServices, c)
    case SocketCheck(path, spec, kind) => hostRoot != "" && ProperInner(cfg, includeServices, c)
    case ServiceCheck(_, _, _) => false
    case IdentityCheck(_, _, _) => ProperInner(cfg, includeServices, c)
    case NamespaceCheck(_, _, _) => c == PathPreflight(cfg) || c == SocketPreflight(cfg) || c == ServicePreflight(cfg)
    case PrerequisiteCheck(inner, prerequisite) =>
      ProperInner(cfg, includeServices, inner) &&
      match inner
      case PathCheck(_, _, _) => hostRoot == "" && prerequisite == PATH_NAMESPACE_CHECK_ID
      case SocketCheck(_, _, _) => hostRoot == "" && prerequisite == SOCKET_NAMESPACE_CHECK_ID
      case ServiceCheck(_, _, _) => prerequisite == SERVICE_NAMESPACE_CHECK_ID
      case _ => false
  }

  ghost predicate ProperInner(cfg: Contract, includeServices: bool, c: Check) {
    match c
    case PathCheck(path, spec, kind) => path in cfg.paths && spec == cfg.paths[path] && PathKind(kind)
    case SocketCheck(path, spec, kind) => path in cfg.sockets && spec == cfg.sockets[path] && SocketKind(kind)
    case ServiceCheck(name, spec, kind) => spec == ServiceSpecFor(cfg, includeServices, name) && ServiceKind(kind)
    case IdentityCheck(entry, spec, kind) => entry in cfg.identity && spec == cfg.identity[entry] && IdentityKind(kind)
    case _ => false
  }

  lemma PathPartIs(cfg: Contract, includeServices: bool, hostRoot: string)
    ensures NoDuplicates(PathPart(cfg, hostRoot))
    ensures forall c | c in PathPart(cfg, hostRoot) :: c.Domain() == "paths" && Proper(cfg, includeServices, hostRoot, c)
  {
    hide SortedChecks, PathKind;
    var checks := SortedChecks(cfg.paths, AddPathChecks);
    PathsAre(cfg);
    GuardedHas(checks, PathPreflight(cfg));
    forall c | c in PathPart(cfg, hostRoot) ensures c.Domain() == "paths" && Proper(cfg, includeServices, hostRoot, c) {
      assert c in checks || c == PathPreflight(cfg) || (c.PrerequisiteCheck? && c.check in checks);
    }
  }

  lemma SocketPartIs(cfg: Contract, includeServices: bool, hostRoot: string)
    ensures NoDuplicates(SocketPart(cfg, hostRoot))
    ensures forall c | c in SocketPart(cfg, hostRoot) :: c.Domain() == "sockets" && Proper(cfg, includeServices, hostRoot, c)
  {
    hide SortedChecks, SocketKind;
    var checks := SortedChecks(cfg.sockets, AddSocketChecks);
    SocketsAre(cfg);
    GuardedHas(checks, SocketPreflight(cfg));
    forall c | c in SocketPart(cfg, hostRoot) ensures c.Domain() == "sockets" && Proper(cfg, includeServices, hostRoot, c) {
      assert c in checks || c == SocketPreflight(cfg) || (c.PrerequisiteCheck? && c.check in checks);
    }
  }

  lemma {:induction false} FilePartIs(cfg: Contract, includeServices: bool, domains: seq<string>, hostRoot: string)
    requires NoDuplicates(domains)
    ensures NoDuplicates(FilePart(cfg, domains, hostRoot))
    ensures forall c :: c in FilePart(cfg, domains, hostRoot) <==>
              ("paths" in domains && c in PathPart(cfg, hostRoot)) || ("sockets" in domains && c in SocketPart(cfg, hostRoot))
    ensures forall c | c in FilePart(cfg, domains, hostRoot) ::
              c.Domain() in {"paths", "sockets"} && Proper(cfg, includeServices, hostRoot, c)
  {
    hide PathPart, SocketPart, Proper;
    if domains != [] {
      var init, last := domains[..|domains| - 1], domains[|domains| - 1];
      assert domains == init + [last];
      FilePartIs(cfg, includeServices, init, hostRoot);
      PathPartIs(cfg, includeServices, hostRoot);
      SocketPartIs(cfg, includeServices, hostRoot);
      if last == "paths" {
        DisjointConcat(FilePart(cfg, init, hostRoot), PathPart(cfg, hostRoot));
      } else if last == "sockets" {
        DisjointConcat(FilePart(cfg, init, hostRoot), SocketPart(cfg, hostRoot));
      }
    }
  }

  lemma ServiceSideIs(cfg: Contract, includeServices: bool, includeIdentity: bool, hostRoot: string)
    ensures var part := Guarded(ServicePart(cfg, includeServices, includeIdentity), ServicePreflight(cfg));
            NoDuplicates(part) &&
            forall c | c in part :: c.Domain() == "services" && Proper(cfg, includeServices, hostRoot, c)
  {
    hide ServicePart, ServiceKind;
    ServicesAre(cfg, includeServices, includeIdentity);
    GuardedHas(ServicePart(cfg, includeServices, includeIdentity), ServicePreflight(cfg));
    var part := Guarded(ServicePart(cfg, includeServices, includeIdentity), ServicePreflight(cfg));
    forall c | c in part ensures c.Domain() == "services" && Proper(cfg, includeServices, hostRoot, c) {
      if c != ServicePreflight(cfg) {
        assert c.check in ServicePart(cfg, includeServices, includeIdentity);
      }
    }
  }

  lemma BuiltIsProper(cfg: Contract, domains: seq<string>, hostRoot: string)
    requires NoDuplicates(domains)
    ensures NoDuplicates(BuiltChecks(cfg, domains, hostRoot))
    ensures forall c | c in BuiltChecks(cfg, domains, hostRoot) :: Proper(cfg, "services" in domains, hostRoot, c)
  {
    hide FilePart, ServicePart, Guarded, SortedChecks;
    var files := FilePart(cfg, domains, hostRoot);
    var services := Guarded(ServicePart(cfg, "services" in domains, "identity" in domains), ServicePreflight(cfg));
    FilePartIs(cfg, "services" in domains, domains, hostRoot);
    ServiceSideIs(cfg, "services" in domains, "identity" in domains, hostRoot);
    IdentitiesAre(cfg);
    DisjointConcat(files, services);
    DisjointConcat(files + services, IdentityPart(cfg, "identity" in domains));
  }

  function PrefixOf(inner: Check): string {
    match inner
    case PathCheck(_, _, _) => "path."
    case SocketCheck(_, _, _) => "socket."
    case ServiceCheck(_, _, _) => "service."
    case _ => "identity."
  }

  lemma ProperIdStartsWithDomain(cfg: Contract, includeServices: bool, hostRoot: string, c: Check)
    requires Proper(cfg, includeServices, hostRoot, c)
    ensures |c.ID()| > 2
    ensures c.Domain() == "paths" ==> c.ID()[0] == 'p'
    ensures c.Domain() == "sockets" ==> c.ID()[0] == 's' && c.ID()[1] == 'o'
    ensures c.Domain() == "services" ==> c.ID()[0] == 's' && c.ID()[1] == 'e'
    ensures c.Domain() == "identity" ==> c.ID()[0] == 'i'
    ensures c.Domain() in {"paths", "sockets", "services", "identity"}
  {
    hide PathKind, SocketKind, ServiceKind, IdentityKind;
    if c.NamespaceCheck? {
      assert c.ID() == c.id && PATH_NAMESPACE_CHECK_ID[0] == 'p';
      assert SOCKET_NAMESPACE_CHECK_ID[0] == 's' && SOCKET_NAMESPACE_CHECK_ID[1] == 'o';
      assert SERVICE_NAMESPACE_CHECK_ID[0] == 's' && SERVICE_NAMESPACE_CHECK_ID[1] == 'e';
    } else {
      var inner := Inner(c);
      assert c.ID() == Named(PrefixOf(inner), Tag(inner), inner.kind) && c.Domain() == inner.Domain();
      PrefixShows(PrefixOf(inner), Tag(inner), inner.kind);
    }
  }

  lemma PrefixShows(prefix: string, name: string, kind: string)
    ensures |prefix| > 2 ==> |Named(prefix, name, kind)| > 2 && Named(prefix, name, kind)[0] == prefix[0] &&
                             Named(prefix, name, kind)[1] == prefix[1]
  {
  }

  lemma NamespaceIdsTellApart(cfg: Contract, c: Check, d: Check)
    requires c == PathPreflight(cfg) || c == SocketPreflight(cfg) || c == ServicePreflight(cfg)
    requires d == PathPreflight(cfg) || d == SocketPreflight(cfg) || d == ServicePreflight(cfg)
    requires c.ID() == d.ID()
    ensures c == d
  {
    assert PATH_NAMESPACE_CHECK_ID[0] == 'p' && SOCKET_NAMESPACE_CHECK_ID[1] == 'o' && SERVICE_NAMESPACE_CHECK_ID[1] == 'e';
    assert SOCKET_NAMESPACE_CHECK_ID[0] == SERVICE_NAMESPACE_CHECK_ID[0] == 's';
  }

  lemma NamedIsNoNamespace(cfg: Contract, includeServices: bool, hostRoot: string, c: Check, d: Check)
    requires Proper(cfg, includeServices, hostRoot, c) && !c.NamespaceCheck?
    requires Proper(cfg, includeServices, hostRoot, d) && d.NamespaceCheck?
    ensures c.ID() != d.ID()
  {
    hide PathKind, SocketKind, ServiceKind, IdentityKind;
    var inner := Inner(c);
    assert c.ID() == Named(PrefixOf(inner), Tag(inner), inner.kind);
    PreflightIsNoNamedCheck(d.id, PrefixOf(inner), Tag(inner), inner.kind);
  }

  lemma NamedIdsTellApart(cfg: Contract, includeServices: bool, hostRoot: string, c: Check, d: Check)
    requires Proper(cfg, includeServices, hostRoot, c) && !c.NamespaceCheck?
    requires Proper(cfg, includeServices, hostRoot, d) && !d.NamespaceCheck?
    requires c.ID() == d.ID() && c.Domain() == d.Domain()
    ensures c == d
  {
    hide PathKind, SocketKind, ServiceKind, IdentityKind;
    var x, y := Inner(c), Inner(d);
    assert c.ID() == Named(PrefixOf(x), Tag(x), x.kind) && d.ID() == Named(PrefixOf(y), Tag(y), y.kind);
    assert PrefixOf(x) == PrefixOf(y);
    NamedIsInjective(PrefixOf(x), Tag(x), x.kind, Tag(y), y.kind);
    assert x == y;
  }

  /** Two possible checks of one built graph with the same id are the same check. */
  lemma ProperIdsTellApart(cfg: Contract, includeServices: bool, hostRoot: string, c: Check, d: Check)
    requires Proper(cfg, includeServices, hostRoot, c) && Proper(cfg, includeServices, hostRoot, d)
    requires c.ID() == d.ID()
    ensures c == d
  {
    hide Named;
    ProperIdStartsWithDomain(cfg, includeServices, hostRoot, c);
    ProperIdStartsWithDomain(cfg, includeServices, hostRoot, d);
    if c.NamespaceCheck? && d.NamespaceCheck? {
      NamespaceIdsTellApart(cfg, c, d);
    } else if d.NamespaceCheck? {
      NamedIsNoNamespace(cfg, includeServices, hostRoot, c, d);
    } else if c.NamespaceCheck? {
      NamedIsNoNamespace(cfg, includeServices, hostRoot, d, c);
    } else {
      NamedIdsTellApart(cfg, includeServices, hostRoot, c, d);
    }
  }

  // ---- prerequisites are there, and rank lower ----

  function Rank(c: Check): nat {
    match c
    case NamespaceCheck(_, _, _) => 0
    case PrerequisiteCheck(inner, _) => 1 + Rank(inner)
    case PathCheck(_, _, kind) => if kind == "exists" then 1 else 2
    case SocketCheck(_, _, kind) => if kind == "exists" then 1 else 2
    case ServiceCheck(_, _, kind) => if kind == "state" then 1 else 2
    case IdentityCheck(_, _, _) => 4
  }

  /** Some check of the list has the id and a lower rank. */
  ghost predicate Provided(checks: seq<Check>, p: string, rank: nat) {
    exists d :: d in checks && d.ID() == p && Rank(d) < rank
  }

  lemma {:induction false} CompactKeepsElements(s: seq<string>)
    ensures forall x :: x in Compact(s) <==> x in s
  {
    if |s| >= 2 {
      CompactKeepsElements(s[1..]);
      assert s == [s[0]] + s[1..];
    }
  }

  /** The existence check of a path, as its part lists it. */
  lemma PathBaseListed(cfg: Contract, hostRoot: string, c: Check) returns (d: Check)
    requires c in PathPart(cfg, hostRoot) && Inner(c).PathCheck?
    ensures d in PathPart(cfg, hostRoot) && d.ID() == Named("path.", Inner(c).path, "exists")
    ensures Inner(c).kind != "exists" ==> Rank(d) < Rank(c)
    ensures hostRoot == "" <==> c.PrerequisiteCheck?
    ensures hostRoot == "" ==> c.prerequisite == PATH_NAMESPACE_CHECK_ID && PathPreflight(cfg) in PathPart(cfg, hostRoot)
  {
    hide SortedChecks, Named, Guarded;
    var checks, inner := SortedChecks(cfg.paths, AddPathChecks), Inner(c);
    var target := PathCheck(inner.path, inner.pathSpec, "exists");
    d := if hostRoot == "" then PrerequisiteCheck(target, PATH_NAMESPACE_CHECK_ID) else target;
    PathIsListed(cfg, inner);
    PathIsListed(cfg, c);
    if hostRoot == "" {
      GuardedMember(checks, PathPreflight(cfg), c);
      GuardedMember(checks, PathPreflight(cfg), d);
      GuardedMember(checks, PathPreflight(cfg), PathPreflight(cfg));
    }
  }

  lemma PathIsListed(cfg: Contract, c: Check)
    ensures NoDuplicates(SortedChecks(cfg.paths, AddPathChecks))
    ensures c in SortedChecks(cfg.paths, AddPathChecks) ==>
              c.PathCheck? && PathCheck(c.path, c.pathSpec, "exists") in SortedChecks(cfg.paths, AddPathChecks)
  {
    hide SortedChecks, PathKind;
    PathsAre(cfg);
    if c in SortedChecks(cfg.paths, AddPathChecks) { PathExistsListed(cfg, c.path); }
  }

  lemma PathPartHas(cfg: Contract, hostRoot: string, c: Check)
    requires c in PathPart(cfg, hostRoot)
    ensures Inner(c).PathCheck? || c == PathPreflight(cfg)
  {
    hide SortedChecks, PathKind;
    PathsAre(cfg);
    GuardedHas(SortedChecks(cfg.paths, AddPathChecks), PathPreflight(cfg));
  }

  lemma PathsProvided(cfg: Contract, hostRoot: string, c: Check, p: string)
    requires c in PathPart(cfg, hostRoot) && p in c.Prerequisites()
    ensures Provided(PathPart(cfg, hostRoot), p, Rank(c))
  {
    hide PathPart, PathPreflight, Named;
    PathPartHas(cfg, hostRoot, c);
    if Inner(c).PathCheck? {
      var d := PathBaseListed(cfg, hostRoot, c);
      if hostRoot == "" {
        CompactKeepsElements([PATH_NAMESPACE_CHECK_ID] + c.check.Prerequisites());
        PathPreflightIs(cfg);
      }
    } else {
      PathPreflightIs(cfg);
    }
  }

  lemma PathPreflightIs(cfg: Contract)
    ensures PathPreflight(cfg).ID() == PATH_NAMESPACE_CHECK_ID && PathPreflight(cfg).Prerequisites() == []
    ensures Rank(PathPreflight(cfg)) == 0 && PathPreflight(cfg).NamespaceCheck?
  {
  }

  /** The existence check of a socket, as its part lists it. */
  lemma SocketBaseListed(cfg: Contract, hostRoot: string, c: Check) returns (d: Check)
    requires c in SocketPart(cfg, hostRoot) && Inner(c).SocketCheck?
    ensures d in SocketPart(cfg, hostRoot) && d.ID() == Named("socket.", Inner(c).path, "exists")
    ensures Inner(c).kind != "exists" ==> Rank(d) < Rank(c)
    ensures hostRoot == "" <==> c.PrerequisiteCheck?
    ensures hostRoot == "" ==> c.prerequisite == SOCKET_NAMESPACE_CHECK_ID && SocketPreflight(cfg) in SocketPart(cfg, hostRoot)
  {
    hide SortedChecks, Named, Guarded;
    var checks, inner := SortedChecks(cfg.sockets, AddSocketChecks), Inner(c);
    var target := SocketCheck(inner.path, inner.socketSpec, "exists");
    d := if hostRoot == "" then PrerequisiteCheck(target, SOCKET_NAMESPACE_CHECK_ID) else target;
    SocketIsListed(cfg, inner);
    SocketIsListed(cfg, c);
    if hostRoot == "" {
      GuardedMember(checks, SocketPreflight(cfg), c);
      GuardedMember(checks, SocketPreflight(cfg), d);
      GuardedMember(checks, SocketPreflight(cfg), SocketPreflight(cfg));
    }
  }

  lemma SocketIsListed(cfg: Contract, c: Check)
    ensures NoDuplicates(SortedChecks(cfg.sockets, AddSocketChecks))
    ensures c in SortedChecks(cfg.sockets, AddSocketChecks) ==>
              c.SocketCheck? && SocketCheck(c.path, c.socketSpec, "exists") in SortedChecks(cfg.sockets, AddSocketChecks)
  {
    hide SortedChecks, SocketKind;
    SocketsAre(cfg);
    if c in SortedChecks(cfg.sockets, AddSocketChecks) { SocketExistsListed(cfg, c.path); }
  }

  lemma SocketPartHas(cfg: Contract, hostRoot: string, c: Check)
    requires c in SocketPart(cfg, hostRoot)
    ensures Inner(c).SocketCheck? || c == SocketPreflight(cfg)
  {
    hide SortedChecks, SocketKind;
    SocketsAre(cfg);
    GuardedHas(SortedChecks(cfg.sockets, AddSocketChecks), SocketPreflight(cfg));
  }

  lemma SocketsProvided(cfg: Contract, hostRoot: string, c: Check, p: string)
    requires c in SocketPart(cfg, hostRoot) && p in c.Prerequisites()
    ensures Provided(SocketPart(cfg, hostRoot), p, Rank(c))
  {
    hide SocketPart, SocketPreflight, Named;
    SocketPartHas(cfg, hostRoot, c);
    if Inner(c).SocketCheck? {
      var d := SocketBaseListed(cfg, hostRoot, c);
      if hostRoot == "" {
        CompactKeepsElements([SOCKET_NAMESPACE_CHECK_ID] + c.check.Prerequisites());
        SocketPreflightIs(cfg);
      }
    } else {
      SocketPreflightIs(cfg);
    }
  }

  lemma SocketPreflightIs(cfg: Contract)
    ensures SocketPreflight(cfg).ID() == SOCKET_NAMESPACE_CHECK_ID && SocketPreflight(cfg).Prerequisites() == []
    ensures Rank(SocketPreflight(cfg)) == 0 && SocketPreflight(cfg).NamespaceCheck?
  {
  }

  ghost function ServiceSide(cfg: Contract, includeServices: bool, includeIdentity: bool): seq<Check> {
    Guarded(ServicePart(cfg, includeServices, includeIdentity), ServicePreflight(cfg))
  }

  lemma ServicesProvided(cfg: Contract, includeServices: bool, includeIdentity: bool, c: Check, p: string)
    requires c in ServiceSide(cfg, includeServices, includeIdentity) && p in c.Prerequisites()
    ensures Provided(ServiceSide(cfg, includeServices, includeIdentity), p, Rank(c))
  {
    hide ServicePart, ServiceKind;
    var side := ServiceSide(cfg, includeServices, includeIdentity);
    var inner := Inner(c);
    ServicesAre(cfg, includeServices, includeIdentity);
    GuardedHas(ServicePart(cfg, includeServices, includeIdentity), ServicePreflight(cfg));
    if c != ServicePreflight(cfg) {
      assert inner in ServicePart(cfg, includeServices, includeIdentity) && Tag(inner) == inner.name;
      StateListed(cfg, includeServices, includeIdentity, inner.name);
      CompactKeepsElements([SERVICE_NAMESPACE_CHECK_ID] + inner.Prerequisites());
      var target := ServiceCheck(inner.name, inner.serviceSpec, "state");
      var d := PrerequisiteCheck(target, SERVICE_NAMESPACE_CHECK_ID);
      assert target in ServicePart(cfg, includeServices, includeIdentity) && d in side;
      assert d.ID() == target.ID() && Rank(d) == 2;
      assert p == SERVICE_NAMESPACE_CHECK_ID || (p == target.ID() && inner.kind != "state");
      assert p == SERVICE_NAMESPACE_CHECK_ID ==> ServicePreflight(cfg) in side && ServicePreflight(cfg).ID() == p;
    }
  }

  lemma IdentitiesProvided(cfg: Contract, includeServices: bool, c: Check, p: string)
    requires c in IdentityPart(cfg, true) && p in c.Prerequisites()
    ensures Provided(ServiceSide(cfg, includeServices, true), p, Rank(c))
  {
    hide ServicePart, IdentityKind, SortedChecks;
    IdentitiesAre(cfg);
    var n := c.identitySpec.service;
    assert cfg.identity[c.entry].service == n;
    StateListed(cfg, includeServices, true, n);
    ServicesAre(cfg, includeServices, true);
    GuardedHas(ServicePart(cfg, includeServices, true), ServicePreflight(cfg));
    var target := ServiceCheck(n, ServiceSpecFor(cfg, includeServices, n), "state");
    var d := PrerequisiteCheck(target, SERVICE_NAMESPACE_CHECK_ID);
    assert target.ID() == p && d.ID() == p;
    assert d in ServiceSide(cfg, includeServices, true) && Rank(d) == 2;
  }

  lemma ProvidedIn(part: seq<Check>, whole: seq<Check>, p: string, rank: nat)
    requires Provided(part, p, rank) && forall d | d in part :: d in whole
    ensures Provided(whole, p, rank)
  {
  }

  lemma BuiltProvides(cfg: Contract, domains: seq<string>, hostRoot: string, c: Check, p: string)
    requires NoDuplicates(domains)
    requires c in BuiltChecks(cfg, domains, hostRoot) && p in c.Prerequisites()
    ensures Provided(BuiltChecks(cfg, domains, hostRoot), p, Rank(c))
  {
    hide FilePart, ServicePart, Guarded, SortedChecks, PathPart, SocketPart, Provided;
    var all := BuiltChecks(cfg, domains, hostRoot);
    var includeServices, includeIdentity := "services" in domains, "identity" in domains;
    FilePartIs(cfg, includeServices, domains, hostRoot);
    if "paths" in domains && c in PathPart(cfg, hostRoot) {
      PathsProvided(cfg, hostRoot, c, p);
      ProvidedIn(PathPart(cfg, hostRoot), all, p, Rank(c));
    } else if "sockets" in domains && c in SocketPart(cfg, hostRoot) {
      SocketsProvided(cfg, hostRoot, c, p);
      ProvidedIn(SocketPart(cfg, hostRoot), all, p, Rank(c));
    } else {
      if c in ServiceSide(cfg, includeServices, includeIdentity) {
        ServicesProvided(cfg, includeServices, includeIdentity, c, p);
      } else {
        IdentitiesProvided(cfg, includeServices, c, p);
      }
      ProvidedIn(ServiceSide(cfg, includeServices, includeIdentity), all, p, Rank(c));
    }
  }

  lemma BuiltIdsAreDistinct(cfg: Contract, domains: seq<string>, hostRoot: string)
    requires NoDuplicates(domains)
    ensures NoDuplicates(Engine.Ids(Views(BuiltChecks(cfg, domains, hostRoot))))
  {
    hide BuiltChecks, Proper;
    var checks := BuiltChecks(cfg, domains, hostRoot);
    var ids := Engine.Ids(Views(checks));
    BuiltIsProper(cfg, domains, hostRoot);
    forall i, j | 0 <= i < j < |ids| ensures ids[i] != ids[j] {
      if ids[i] == ids[j] {
        ProperIdsTellApart(cfg, "services" in domains, hostRoot, checks[i], checks[j]);
      }
    }
  }

  /** The node of the engine's graph that a check becomes. */
  lemma NodeOfCheck(checks: seq<Check>, c: Check)
    requires NoDuplicates(Engine.Ids(Views(checks))) && c in checks
    ensures c.ID() in GraphOf(Views(checks)) && GraphOf(Views(checks))[c.ID()] == c.Prerequisites()
  {
    var views := Views(checks);
    Engine.RegistryHolds(views);
    var i :| 0 <= i < |checks| && checks[i] == c;
    assert views[i] == c.View() && Engine.Ids(views)[i] == c.ID();
    assert views[i] in views;
  }

  lemma CheckOfNode(checks: seq<Check>, id: string) returns (c: Check)
    requires id in GraphOf(Views(checks))
    ensures c in checks && c.ID() == id && c.Prerequisites() == GraphOf(Views(checks))[id]
  {
    var views := Views(checks);
    Engine.RegistryHolds(views);
    var i :| 0 <= i < |views| && views[i] == Engine.Registry(views)[id];
    c := checks[i];
  }

  ghost function IdSet(checks: seq<Check>): set<string> {
    set c | c in checks :: c.ID()
  }

  ghost function RankOfId(checks: seq<Check>, id: string): nat
    requires id in IdSet(checks)
  {
    var c :| c in checks && c.ID() == id;
    Rank(c)
  }

  ghost function RankById(checks: seq<Check>): map<string, nat> {
    map id | id in IdSet(checks) :: RankOfId(checks, id)
  }

  lemma RankOfCheck(checks: seq<Check>, c: Check)
    requires NoDuplicates(Engine.Ids(Views(checks))) && c in checks
    ensures c.ID() in RankById(checks) && RankById(checks)[c.ID()] == Rank(c)
  {
    hide Rank;
    forall d | d in checks && d.ID() == c.ID() ensures d == c { IdNamesOneCheck(checks, c, d); }
    assert c.ID() in IdSet(checks);
  }

  lemma IdNamesOneCheck(checks: seq<Check>, c: Check, d: Check)
    requires NoDuplicates(Engine.Ids(Views(checks))) && c in checks && d in checks && c.ID() == d.ID()
    ensures c == d
  {
    var i :| 0 <= i < |checks| && checks[i] == c;
    var j :| 0 <= j < |checks| && checks[j] == d;
    assert Views(checks)[i] == c.View() && Views(checks)[j] == d.View();
    assert Engine.Ids(Views(checks))[i] == Engine.Ids(Views(checks))[j];
  }

  /** Whatever the contract and the distinct domains, the engine accepts the graph that was built. */
  lemma BuiltGraphIsAccepted(cfg: Contract, domains: seq<string>, hostRoot: string)
    requires NoDuplicates(domains)
    ensures Engine.Accepted(Views(BuiltChecks(cfg, domains, hostRoot)))
  {
    hide BuiltChecks, RankById;
    var checks := BuiltChecks(cfg, domains, hostRoot);
    var g, rank := GraphOf(Views(checks)), RankById(checks);
    BuiltIdsAreDistinct(cfg, domains, hostRoot);
    forall id | id in g ensures id in rank {
      var c := CheckOfNode(checks, id);
      RankOfCheck(checks, c);
    }
    forall id, p | id in g && p in g[id] ensures p in g && rank[p] < rank[id] {
      var c := CheckOfNode(checks, id);
      RankOfCheck(checks, c);
      BuiltProvides(cfg, domains, hostRoot, c, p);
      var d :| d in checks && d.ID() == p && Rank(d) < Rank(c);
      NodeOfCheck(checks, d);
      RankOfCheck(checks, d);
    }
    RankedIsAcyclic(g, rank);
    forall v | v in Views(checks) ensures v.id != "" {
      var i :| 0 <= i < |checks| && Views(checks)[i] == v;
      assert checks[i] in checks;
      BuiltIsProper(cfg, domains, hostRoot);
      ProperIdStartsWithDomain(cfg, "services" in domains, hostRoot, checks[i]);
    }
  }

  /** So the checks the command line builds from its own choice of domains always run. */
  lemma SelectedGraphIsAccepted(cfg: Contract, filter: string, hostRoot: string)
    ensures Engine.Accepted(Views(BuiltChecks(cfg, SelectedDomainsOf(cfg, filter), hostRoot)))
  {
    SelectedDomainsAreDistinct(cfg, filter);
    BuiltGraphIsAccepted(cfg, SelectedDomainsOf(cfg, filter), hostRoot);
  }
}
