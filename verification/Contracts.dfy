/** The decoded contract. A nil pointer or nil slice of the source is None. */
module Contracts {
  import opened ByteOrder

  datatype Option<+T> = None | Some(value: T)

  datatype RunAs = RunAs(user: string, group: string)
  datatype ServiceSpec = ServiceSpec(
    state: string, runAs: Option<RunAs>, restart: Option<string>, capabilities: Option<seq<string>>)
  datatype SocketSpec = SocketSpec(owner: string, group: string, mode: string)
  datatype PathSpec = PathSpec(owner: string, group: string, mode: string, pathType: string)
  datatype CapabilitySetSpec = CapabilitySetSpec(
    effective: Option<seq<string>>, permitted: Option<seq<string>>, inheritable: Option<seq<string>>,
    bounding: Option<seq<string>>, ambient: Option<seq<string>>)
  datatype IdentitySpec = IdentitySpec(
    service: string, uid: Option<int>, gid: Option<int>, capabilities: Option<CapabilitySetSpec>)

  datatype Contract = Contract(
    target: string, services: map<string, ServiceSpec>, sockets: map<string, SocketSpec>,
    paths: map<string, PathSpec>, identity: map<string, IdentitySpec>)

  const SERVICE_STATE_ACTIVE := "active"
  const TARGET_LINUX_SYSTEMD := "linux-systemd"

  /** The identity entry contradicts the declared state of its service. */
  predicate Contradicts(cfg: Contract, name: string)
    requires name in cfg.identity
  {
    var service := cfg.identity[name].service;
    service in cfg.services && cfg.services[service].state != SERVICE_STATE_ACTIVE
  }

  predicate Consistent(cfg: Contract) {
    forall name | name in cfg.identity :: !Contradicts(cfg, name)
  }

  lemma LeastContradiction(cfg: Contract, i: nat)
    requires i < |SortedKeys(cfg.identity.Keys)|
    requires forall name | name in SortedKeys(cfg.identity.Keys)[..i] :: name in cfg.identity && !Contradicts(cfg, name)
    ensures forall name | name in cfg.identity && Contradicts(cfg, name) :: !Less(name, SortedKeys(cfg.identity.Keys)[i])
  {
    hide Less, SortedKeys, Contradicts;
    forall name | name in cfg.identity && Contradicts(cfg, name) ensures !Less(name, SortedKeys(cfg.identity.Keys)[i]) {
      LaterKeysAreNotLess(cfg.identity.Keys, i, name);
    }
  }

  /** The error names the first contradicting name in byte order. */
  method ValidateSemantics(cfg: Contract) returns (bad: Option<string>)
    ensures bad.None? <==> Consistent(cfg)
    ensures bad.Some? ==> bad.value in cfg.identity && Contradicts(cfg, bad.value) &&
                          forall name | name in cfg.identity && Contradicts(cfg, name) :: !Less(name, bad.value)
  {
    hide Less, SortedKeys;
    var names := CollectKeys(cfg.identity.Keys);
    var i := 0;
    while i < |names|
      invariant 0 <= i <= |names|
      invariant forall name | name in names[..i] :: name in cfg.identity && !Contradicts(cfg, name)
    {
      assert names[i] in names;
      var spec := cfg.identity[names[i]];
      if spec.service in cfg.services && cfg.services[spec.service].state != SERVICE_STATE_ACTIVE {
        LeastContradiction(cfg, i);
        return Some(names[i]);
      }
      i := i + 1;
    }
    return None;
  }
}
