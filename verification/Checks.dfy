/** From a contract and a choice of domains to the checks the engine runs. */
module Checks {
  import opened ByteOrder
  import opened Text
  import opened Contracts
  import Engine

  const PATH_NAMESPACE_CHECK_ID := "path.__preflight__.namespace"
  const SOCKET_NAMESPACE_CHECK_ID := "socket.__preflight__.namespace"
  const SERVICE_NAMESPACE_CHECK_ID := "service.__preflight__.namespace"

  function Named(prefix: string, name: string, kind: string): string {
    prefix + name + "." + kind
  }

  /** slices.Compact: drop the repeats of neighbours. */
  function Compact(s: seq<string>): seq<string> {
    if |s| < 2 then s
    else if s[0] == s[1] then Compact(s[1..])
    else [s[0]] + Compact(s[1..])
  }

  datatype Check =
    | PathCheck(path: string, pathSpec: PathSpec, kind: string)
    | SocketCheck(path: string, socketSpec: SocketSpec, kind: string)
    | ServiceCheck(name: string, serviceSpec: ServiceSpec, kind: string)
    | IdentityCheck(entry: string, identitySpec: IdentitySpec, kind: string)
    | NamespaceCheck(id: string, domain: string, target: string)
    | PrerequisiteCheck(check: Check, prerequisite: string)
  {
    function ID(): string {
      match this
      case PathCheck(path, _, kind) => Named("path.", path, kind)
      case SocketCheck(path, _, kind) => Named("socket.", path, kind)
      case ServiceCheck(name, _, kind) => Named("service.", name, kind)
      case IdentityCheck(entry, _, kind) => Named("identity.", entry, kind)
      case NamespaceCheck(id, _, _) => id
      case PrerequisiteCheck(check, _) => check.ID()
    }

    function Domain(): string {
      match this
      case PathCheck(_, _, _) => "paths"
      case SocketCheck(_, _, _) => "sockets"
      case ServiceCheck(_, _, _) => "services"
      case IdentityCheck(_, _, _) => "identity"
      case NamespaceCheck(_, domain, _) => domain
      case PrerequisiteCheck(check, _) => check.Domain()
    }

    function Prerequisites(): seq<string> {
      match this
      case PathCheck(path, _, kind) => if kind == "exists" then [] else [Named("path.", path, "exists")]
      case SocketCheck(path, _, kind) => if kind == "exists" then [] else [Named("socket.", path, "exists")]
      case ServiceCheck(name, _, kind) => if kind == "state" then [] else [Named("service.", name, "state")]
      case IdentityCheck(_, spec, _) => [Named("service.", spec.service, "state")]
      case NamespaceCheck(_, _, _) => []
      case PrerequisiteCheck(check, prerequisite) => Compact([prerequisite] + check.Prerequisites())
    }

    /** What the engine sees of the check. */
    function View(): Engine.Check {
      Engine.Check(ID(), Domain(), Prerequisites())
    }
  }

  function Views(checks: seq<Check>): (v: seq<Engine.Check>)
    ensures |v| == |checks| && forall i | 0 <= i < |checks| :: v[i] == checks[i].View()
  {
    seq(|checks|, i requires 0 <= i < |checks| => checks[i].View())
  }

  function Appended(front: seq<Check>, cond: bool, check: Check): (r: seq<Check>)
    ensures forall c :: c in r <==> c in front || (cond && c == check)
  {
    if cond then front + [check] else front
  }

  // ---- what each spec adds to the checks ----

  function AddPathChecks(front: seq<Check>, path: string, spec: PathSpec): (r: seq<Check>)
    ensures forall c :: c in r <==>
              || c in front
              || c == PathCheck(path, spec, "exists")
              || (spec.pathType != "" && c == PathCheck(path, spec, "type"))
              || (spec.mode != "" && c == PathCheck(path, spec, "mode"))
              || (spec.owner != "" && c == PathCheck(path, spec, "owner"))
              || (spec.group != "" && c == PathCheck(path, spec, "group"))
  {
    var checks := front + [PathCheck(path, spec, "exists")];
    var checks := Appended(checks, spec.pathType != "", PathCheck(path, spec, "type"));
    var checks := Appended(checks, spec.mode != "", PathCheck(path, spec, "mode"));
    var checks := Appended(checks, spec.owner != "", PathCheck(path, spec, "owner"));
    var checks := Appended(checks, spec.group != "", PathCheck(path, spec, "group"));
    checks
  }

  function AddSocketChecks(front: seq<Check>, path: string, spec: SocketSpec): (r: seq<Check>)
    ensures forall c :: c in r <==>
              || c in front
              || c == SocketCheck(path, spec, "exists")
              || (spec.owner != "" && c == SocketCheck(path, spec, "owner"))
              || (spec.group != "" && c == SocketCheck(path, spec, "group"))
              || (spec.mode != "" && c == SocketCheck(path, spec, "mode"))
  {
    var checks := front + [SocketCheck(path, spec, "exists")];
    var checks := Appended(checks, spec.owner != "", SocketCheck(path, spec, "owner"));
    var checks := Appended(checks, spec.group != "", SocketCheck(path, spec, "group"));
    var checks := Appended(checks, spec.mode != "", SocketCheck(path, spec, "mode"));
    checks
  }

  function AddServiceChecks(front: seq<Check>, name: string, spec: ServiceSpec): (r: seq<Check>)
    ensures forall c :: c in r <==>
              || c in front
              || c == ServiceCheck(name, spec, "state")
              || (spec.restart.Some? && c == ServiceCheck(name, spec, "restart"))
              || (spec.runAs.Some? && c == ServiceCheck(name, spec, "run_as.user"))
              || (spec.runAs.Some? && spec.runAs.value.group != "" && c == ServiceCheck(name, spec, "run_as.group"))
              || (spec.capabilities.Some? && c == ServiceCheck(name, spec, "capabilities"))
  {
    var checks := front + [ServiceCheck(name, spec, "state")];
    var checks := Appended(checks, spec.restart.Some?, ServiceCheck(name, spec, "restart"));
    var checks := Appended(checks, spec.runAs.Some?, ServiceCheck(name, spec, "run_as.user"));
    var checks := Appended(checks, spec.runAs.Some? && spec.runAs.value.group != "", ServiceCheck(name, spec, "run_as.group"));
    var checks := Appended(checks, spec.capabilities.Some?, ServiceCheck(name, spec, "capabilities"));
    checks
  }

  function AddServiceStateCheck(front: seq<Check>, name: string, spec: ServiceSpec): (r: seq<Check>)
    ensures forall c :: c in r <==>
              || c in front
              || c == ServiceCheck(name, spec, "state")
  {
    front + [ServiceCheck(name, spec, "state")]
  }

  function AddCapabilityChecks(front: seq<Check>, entry: string, spec: IdentitySpec, caps: CapabilitySetSpec): (r: seq<Check>)
    ensures forall c :: c in r <==>
              || c in front
              || (caps.effective.Some? && c == IdentityCheck(entry, spec, "capabilities.effective"))
              || (caps.permitted.Some? && c == IdentityCheck(entry, spec, "capabilities.permitted"))
              || (caps.inheritable.Some? && c == IdentityCheck(entry, spec, "capabilities.inheritable"))
              || (caps.bounding.Some? && c == IdentityCheck(entry, spec, "capabilities.bounding"))
              || (caps.ambient.Some? && c == IdentityCheck(entry, spec, "capabilities.ambient"))
  {
    var checks := Appended(front, caps.effective.Some?, IdentityCheck(entry, spec, "capabilities.effective"));
    var checks := Appended(checks, caps.permitted.Some?, IdentityCheck(entry, spec, "capabilities.permitted"));
    var checks := Appended(checks, caps.inheritable.Some?, IdentityCheck(entry, spec, "capabilities.inheritable"));
    var checks := Appended(checks, caps.bounding.Some?, IdentityCheck(entry, spec, "capabilities.bounding"));
    var checks := Appended(checks, caps.ambient.Some?, IdentityCheck(entry, spec, "capabilities.ambient"));
    checks
  }

  function AddIdentityChecks(front: seq<Check>, entry: string, spec: IdentitySpec): (r: seq<Check>)
    ensures forall c :: c in r <==>
              || c in front
              || (spec.uid.Some? && c == IdentityCheck(entry, spec, "uid"))
              || (spec.gid.Some? && c == IdentityCheck(entry, spec, "gid"))
              || (spec.capabilities.Some? && spec.capabilities.value.effective.Some? &&
                  c == IdentityCheck(entry, spec, "capabilities.effective"))
              || (spec.capabilities.Some? && spec.capabilities.value.permitted.Some? &&
                  c == IdentityCheck(entry, spec, "capabilities.permitted"))
              || (spec.capabilities.Some? && spec.capabilities.value.inheritable.Some? &&
                  c == IdentityCheck(entry, spec, "capabilities.inheritable"))
              || (spec.capabilities.Some? && spec.capabilities.value.bounding.Some? &&
                  c == IdentityCheck(entry, spec, "capabilities.bounding"))
              || (spec.capabilities.Some? && spec.capabilities.value.ambient.Some? &&
                  c == IdentityCheck(entry, spec, "capabilities.ambient"))
  {
    var checks := Appended(front, spec.uid.Some?, IdentityCheck(entry, spec, "uid"));
    var checks := Appended(checks, spec.gid.Some?, IdentityCheck(entry, spec, "gid"));
    if spec.capabilities.None? then checks else AddCapabilityChecks(checks, entry, spec, spec.capabilities.value)
  }

  /** The checks of the specs, taken in the order of the keys. */
  function ChecksOf<S>(specs: map<string, S>, keys: seq<string>, add: (seq<Check>, string, S) -> seq<Check>): seq<Check>
    requires forall k | k in keys :: k in specs
  {
    if keys == [] then []
    else
      var last := keys[|keys| - 1];
      add(ChecksOf(specs, keys[..|keys| - 1], add), last, specs[last])
  }

  ghost function SortedChecks<S>(specs: map<string, S>, add: (seq<Check>, string, S) -> seq<Check>): seq<Check> {
    ChecksOf(specs, SortedKeys(specs.Keys), add)
  }

  lemma ChecksOfStep<S>(specs: map<string, S>, keys: seq<string>, i: nat, add: (seq<Check>, string, S) -> seq<Check>)
    requires i < |keys| && forall k | k in keys :: k in specs
    ensures ChecksOf(specs, keys[..i + 1], add) == add(ChecksOf(specs, keys[..i], add), keys[i], specs[keys[i]])
  {
    assert keys[..i + 1][..i] == keys[..i];
  }

  method BuildPathChecks(paths: map<string, PathSpec>) returns (checks: seq<Check>)
    ensures checks == SortedChecks(paths, AddPathChecks)
  {
    var keys := CollectKeys(paths.Keys);
    checks := [];
    assert keys[..0] == [];
    var i := 0;
    while i < |keys|
      invariant 0 <= i <= |keys|
      invariant checks == ChecksOf(paths, keys[..i], AddPathChecks)
    {
      ChecksOfStep(paths, keys, i, AddPathChecks);
      var path := keys[i];
      var spec := paths[path];
      checks := checks + [PathCheck(path, spec, "exists")];
      if spec.pathType != "" { checks := checks + [PathCheck(path, spec, "type")]; }
      if spec.mode != "" { checks := checks + [PathCheck(path, spec, "mode")]; }
      if spec.owner != "" { checks := checks + [PathCheck(path, spec, "owner")]; }
      if spec.group != "" { checks := checks + [PathCheck(path, spec, "group")]; }
      i := i + 1;
    }
    assert keys[..i] == keys;
  }

  method BuildSocketChecks(sockets: map<string, SocketSpec>) returns (checks: seq<Check>)
    ensures checks == SortedChecks(sockets, AddSocketChecks)
  {
    var keys := CollectKeys(sockets.Keys);
    checks := [];
    assert keys[..0] == [];
    var i := 0;
    while i < |keys|
      invariant 0 <= i <= |keys|
      invariant checks == ChecksOf(sockets, keys[..i], AddSocketChecks)
    {
      ChecksOfStep(sockets, keys, i, AddSocketChecks);
      var path := keys[i];
      var spec := sockets[path];
      checks := checks + [SocketCheck(path, spec, "exists")];
      if spec.owner != "" { checks := checks + [SocketCheck(path, spec, "owner")]; }
      if spec.group != "" { checks := checks + [SocketCheck(path, spec, "group")]; }
      if spec.mode != "" { checks := checks + [SocketCheck(path, spec, "mode")]; }
      i := i + 1;
    }
    assert keys[..i] == keys;
  }

  /** buildServiceChecksWithResolver. */
  method BuildServiceChecks(services: map<string, ServiceSpec>, stateOnly: bool) returns (checks: seq<Check>)
    ensures stateOnly ==> checks == SortedChecks(services, AddServiceStateCheck)
    ensures !stateOnly ==> checks == SortedChecks(services, AddServiceChecks)
  {
    hide AddServiceChecks;
    var keys := CollectKeys(services.Keys);
    checks := [];
    assert keys[..0] == [];
    var i := 0;
    while i < |keys|
      invariant 0 <= i <= |keys|
      invariant stateOnly ==> checks == ChecksOf(services, keys[..i], AddServiceStateCheck)
      invariant !stateOnly ==> checks == ChecksOf(services, keys[..i], AddServiceChecks)
    {
      ChecksOfStep(services, keys, i, AddServiceStateCheck);
      ChecksOfStep(services, keys, i, AddServiceChecks);
      var name := keys[i];
      var spec := services[name];
      i := i + 1;
      if stateOnly {
        checks := checks + [ServiceCheck(name, spec, "state")];
        continue;
      }
      checks := AppendServiceChecks(checks, name, spec);
    }
    assert keys[..i] == keys;
  }

  /** The body of the service loop when not only states are wanted. */
  method AppendServiceChecks(front: seq<Check>, name: string, spec: ServiceSpec) returns (checks: seq<Check>)
    ensures checks == AddServiceChecks(front, name, spec)
  {
    checks := front + [ServiceCheck(name, spec, "state")];
    if spec.restart.Some? { checks := checks + [ServiceCheck(name, spec, "restart")]; }
    if spec.runAs.Some? {
      checks := checks + [ServiceCheck(name, spec, "run_as.user")];
      if spec.runAs.value.group != "" { checks := checks + [ServiceCheck(name, spec, "run_as.group")]; }
    }
    if spec.capabilities.Some? { checks := checks + [ServiceCheck(name, spec, "capabilities")]; }
  }

  method BuildIdentityChecks(identities: map<string, IdentitySpec>) returns (checks: seq<Check>)
    ensures checks == SortedChecks(identities, AddIdentityChecks)
  {
    hide AddIdentityChecks;
    var keys := CollectKeys(identities.Keys);
    checks := [];
    assert keys[..0] == [];
    var i := 0;
    while i < |keys|
      invariant 0 <= i <= |keys|
      invariant checks == ChecksOf(identities, keys[..i], AddIdentityChecks)
    {
      ChecksOfStep(identities, keys, i, AddIdentityChecks);
      var entry := keys[i];
      var spec := identities[entry];
      i := i + 1;
      checks := AppendIdentityChecks(checks, entry, spec);
    }
    assert keys[..i] == keys;
  }

  /** The body of the identity loop. */
  method AppendIdentityChecks(front: seq<Check>, entry: string, spec: IdentitySpec) returns (checks: seq<Check>)
    ensures checks == AddIdentityChecks(front, entry, spec)
  {
    checks := front;
    if spec.uid.Some? { checks := checks + [IdentityCheck(entry, spec, "uid")]; }
    if spec.gid.Some? { checks := checks + [IdentityCheck(entry, spec, "gid")]; }
    if spec.capabilities.None? { return; }
    var caps := spec.capabilities.value;
    if caps.effective.Some? { checks := checks + [IdentityCheck(entry, spec, "capabilities.effective")]; }
    if caps.permitted.Some? { checks := checks + [IdentityCheck(entry, spec, "capabilities.permitted")]; }
    if caps.inheritable.Some? { checks := checks + [IdentityCheck(entry, spec, "capabilities.inheritable")]; }
    if caps.bounding.Some? { checks := checks + [IdentityCheck(entry, spec, "capabilities.bounding")]; }
    if caps.ambient.Some? { checks := checks + [IdentityCheck(entry, spec, "capabilities.ambient")]; }
  }
}
