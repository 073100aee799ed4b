/** The runtime identity of a service's main process: the verdict of one check and the two caches it reads through. */
module Identity {
  import opened ByteOrder
  import opened Text
  import opened Contracts
  import opened CheckResults
  import opened Capabilities
  import opened Systemctl

  /** What running systemctl gives: an error of the runner, or an exit code and output. `mapped` is what
      mapSystemctlFailure makes of the texts of a failing exit. */
  datatype Reply = Reply(stdout: string, stderr: string, exitCode: int, err: Option<Failure>, mapped: Failure)

  datatype ProcessStatus = ProcessStatus(
    uid: int, gid: int, effective: seq<string>, permitted: seq<string>, inheritable: seq<string>,
    bounding: seq<string>, ambient: seq<string>, cgroups: seq<string>, raw: string)

  /** What reading a process gives. */
  datatype Inspection = Inspection(status: ProcessStatus, err: Option<Failure>)

  datatype PIDResult = PIDResult(
    pid: int, controlGroup: string, command: seq<string>, exitCode: int, raw: string, err: Option<Failure>)

  datatype Observation = Observation(
    pid: int, controlGroup: string, status: ProcessStatus, command: seq<string>, exitCode: int, raw: string,
    err: Option<Failure>)

  const NO_STATUS := ProcessStatus(0, 0, [], [], [], [], [], [], "")

  /** Why there is no systemctl to run, with the text of the error. */
  datatype CommandError = CommandError(failure: Failure, text: string)

  // ---- one lookup, one observation ----

  function Command(systemctlPath: string, service: string): seq<string> {
    [if systemctlPath == "" then "systemctl" else systemctlPath, "show", service,
     "--property=LoadState", "--property=MainPID", "--property=ControlGroup"]
  }

  function JoinRaw(first: string, separator: string, second: string): string {
    if second == "" then first
    else if first == "" then second
    else first + separator + second
  }

  /** The main process lookup of serviceMainPIDReader.Read when systemctl cannot be run at all. */
  function Refused(command: seq<string>, error: CommandError): PIDResult {
    PIDResult(0, "", command, 0, error.text, Some(error.failure))
  }

  /** The lookup of serviceMainPIDReader.Read that asks systemctl and gets the reply. */
  function Asked(command: seq<string>, reply: Reply): PIDResult {
    var raw := JoinRaw(TrimSpace(reply.stdout), "\n", TrimSpace(reply.stderr));
    var result := PIDResult(0, "", command, reply.exitCode, raw, None);
    if reply.err.Some? then result.(err := reply.err)
    else if reply.exitCode != 0 then result.(err := Some(reply.mapped))
    else
      match ParsedMainPID(reply.stdout)
      case Unusable(failure) => result.(err := Some(failure))
      case Usable(pid, controlGroup) => result.(pid := pid, controlGroup := controlGroup)
  }

  /** A failed lookup as an observation. */
  function WithoutProcess(found: PIDResult): Observation {
    Observation(0, found.controlGroup, NO_STATUS, found.command, found.exitCode, found.raw, found.err)
  }

  /** The observation of runtimeIdentityObserver.Read once the process has been read. */
  function WithProcess(found: PIDResult, inspection: Inspection): Observation {
    var raw := JoinRaw(found.raw, "\n---\n", TrimSpace(inspection.status.raw));
    Observation(found.pid, found.controlGroup, inspection.status, found.command, found.exitCode, raw,
                if inspection.err.Some? then inspection.err
                else if !CgroupsContain(inspection.status.cgroups, found.controlGroup) then Some(ProcessProvenance)
                else None)
  }

  // ---- the verdict ----

  /** The spec has a value for the check's kind; the builder makes no other checks. */
  predicate Declared(spec: IdentitySpec, kind: string) {
    match kind
    case "uid" => spec.uid.Some?
    case "gid" => spec.gid.Some?
    case "capabilities.effective" => spec.capabilities.Some? && spec.capabilities.value.effective.Some?
    case "capabilities.permitted" => spec.capabilities.Some? && spec.capabilities.value.permitted.Some?
    case "capabilities.inheritable" => spec.capabilities.Some? && spec.capabilities.value.inheritable.Some?
    case "capabilities.bounding" => spec.capabilities.Some? && spec.capabilities.value.bounding.Some?
    case "capabilities.ambient" => spec.capabilities.Some? && spec.capabilities.value.ambient.Some?
    case _ => false
  }

  function SourceOf(o: Observation): string {
    if o.pid > 0 then "/proc/" + Itoa(o.pid) + "/status"
    else if o.command != [] then "systemctl show"
    else "identity.runtime"
  }

  function ResultWith(status: Status, reason: Reason, o: Observation): CheckResult {
    CheckResult("", "", status, reason, Evidence(SourceOf(o), "identity", o.raw, false, false), "")
  }

  function WithLookupSource(o: Observation): Observation {
    if o.raw == "" then o.(raw := "systemctl lookup did not complete") else o
  }

  function FailureResult(failure: Failure, o: Observation): CheckResult {
    match failure
    case DeadlineFailure => ResultWith(Error, Timeout, o)
    case CancelledFailure => ResultWith(Error, Timeout, o)
    case NamespaceFailure => ResultWith(Error, NamespaceIsolation, o)
    case PermissionFailure => ResultWith(Error, PermissionDenied, o)
    case CommandUnavailable => ResultWith(Error, NoReason, WithLookupSource(o))
    case UnexpectedCommand => ResultWith(Error, NoReason, WithLookupSource(o))
    case MainPIDParse => ResultWith(InsufficientData, ParseError, o)
    case ProcessParse => ResultWith(InsufficientData, ParseError, o)
    case ProcessProvenance => ResultWith(InsufficientData, NoReason, o)
    case ProcessGone => ResultWith(InsufficientData, NoReason, o)
    case _ => ResultWith(Error, ParseError, o)
  }

  function Compared(equal: bool, o: Observation): CheckResult {
    ResultWith(if equal then Pass else Fail, NoReason, o)
  }

  const NOTHING_OBSERVED := Observation(0, "", NO_STATUS, [], 0, "", None)

  /** identityCheck.Run: cancelled before it started, or answered by the observer with `o`. */
  function Judged(spec: IdentitySpec, kind: string, cancelled: bool, o: Observation): CheckResult
    requires Declared(spec, kind)
  {
    if cancelled then ResultWith(Error, Timeout, NOTHING_OBSERVED)
    else if o.err.Some? then FailureResult(o.err.value, o)
    else
      match kind
      case "uid" => Compared(o.status.uid == spec.uid.value, o)
      case "gid" => Compared(o.status.gid == spec.gid.value, o)
      case "capabilities.effective" =>
        Compared(CapabilitiesMatch(spec.capabilities.value.effective.value, o.status.effective), o)
      case "capabilities.permitted" =>
        Compared(CapabilitiesMatch(spec.capabilities.value.permitted.value, o.status.permitted), o)
      case "capabilities.inheritable" =>
        Compared(CapabilitiesMatch(spec.capabilities.value.inheritable.value, o.status.inheritable), o)
      case "capabilities.bounding" =>
        Compared(CapabilitiesMatch(spec.capabilities.value.bounding.value, o.status.bounding), o)
      case "capabilities.ambient" =>
        Compared(CapabilitiesMatch(spec.capabilities.value.ambient.value, o.status.ambient), o)
  }

  /** The observed value is what the spec asks for, list by list without regard to order. */
  ghost predicate Meets(spec: IdentitySpec, kind: string, status: ProcessStatus)
    requires Declared(spec, kind)
  {
    && (kind == "uid" ==> spec.uid == Some(status.uid))
    && (kind == "gid" ==> spec.gid == Some(status.gid))
    && (kind == "capabilities.effective" ==>
          multiset(spec.capabilities.value.effective.value) == multiset(status.effective))
    && (kind == "capabilities.permitted" ==>
          multiset(spec.capabilities.value.permitted.value) == multiset(status.permitted))
    && (kind == "capabilities.inheritable" ==>
          multiset(spec.capabilities.value.inheritable.value) == multiset(status.inheritable))
    && (kind == "capabilities.bounding" ==>
          multiset(spec.capabilities.value.bounding.value) == multiset(status.bounding))
    && (kind == "capabilities.ambient" ==>
          multiset(spec.capabilities.value.ambient.value) == multiset(status.ambient))
  }

  /** The lists of a process status are sorted, as parseCapabilityMask leaves them. */
  ghost predicate Canonical(status: ProcessStatus) {
    && SortStrings(status.effective) == status.effective
    && SortStrings(status.permitted) == status.permitted
    && SortStrings(status.inheritable) == status.inheritable
    && SortStrings(status.bounding) == status.bounding
    && SortStrings(status.ambient) == status.ambient
  }

  lemma MatchIsSameElements(expected: seq<string>, actual: seq<string>)
    requires SortStrings(actual) == actual
    ensures CapabilitiesMatch(expected, actual) <==> multiset(expected) == multiset(actual)
  {
    if multiset(expected) == multiset(actual) { SortStringsIgnoresOrder(expected, actual); }
  }

  lemma IDVerdictMeans(spec: IdentitySpec, kind: string, o: Observation)
    requires (kind == "uid" || kind == "gid") && Declared(spec, kind) && o.err.None?
    ensures Judged(spec, kind, false, o).status == (if Meets(spec, kind, o.status) then Pass else Fail)
  {
  }

  lemma EffectiveVerdictMeans(spec: IdentitySpec, o: Observation)
    requires Declared(spec, "capabilities.effective") && o.err.None? && Canonical(o.status)
    ensures Judged(spec, "capabilities.effective", false, o).status ==
            (if Meets(spec, "capabilities.effective", o.status) then Pass else Fail)
  {
    hide CapabilitiesMatch, SortStrings, SourceOf;
    MatchIsSameElements(spec.capabilities.value.effective.value, o.status.effective);
  }

  lemma PermittedVerdictMeans(spec: IdentitySpec, o: Observation)
    requires Declared(spec, "capabilities.permitted") && o.err.None? && Canonical(o.status)
    ensures Judged(spec, "capabilities.permitted", false, o).status ==
            (if Meets(spec, "capabilities.permitted", o.status) then Pass else Fail)
  {
    hide CapabilitiesMatch, SortStrings, SourceOf;
    MatchIsSameElements(spec.capabilities.value.permitted.value, o.status.permitted);
  }

  lemma InheritableVerdictMeans(spec: IdentitySpec, o: Observation)
    requires Declared(spec, "capabilities.inheritable") && o.err.None? && Canonical(o.status)
    ensures Judged(spec, "capabilities.inheritable", false, o).status ==
            (if Meets(spec, "capabilities.inheritable", o.status) then Pass else Fail)
  {
    hide CapabilitiesMatch, SortStrings, SourceOf;
    MatchIsSameElements(spec.capabilities.value.inheritable.value, o.status.inheritable);
  }

  lemma BoundingVerdictMeans(spec: IdentitySpec, o: Observation)
    requires Declared(spec, "capabilities.bounding") && o.err.None? && Canonical(o.status)
    ensures Judged(spec, "capabilities.bounding", false, o).status ==
            (if Meets(spec, "capabilities.bounding", o.status) then Pass else Fail)
  {
    hide CapabilitiesMatch, SortStrings, SourceOf;
    MatchIsSameElements(spec.capabilities.value.bounding.value, o.status.bounding);
  }

  lemma AmbientVerdictMeans(spec: IdentitySpec, o: Observation)
    requires Declared(spec, "capabilities.ambient") && o.err.None? && Canonical(o.status)
    ensures Judged(spec, "capabilities.ambient", false, o).status ==
            (if Meets(spec, "capabilities.ambient", o.status) then Pass else Fail)
  {
    hide CapabilitiesMatch, SortStrings, SourceOf;
    MatchIsSameElements(spec.capabilities.value.ambient.value, o.status.ambient);
  }

  /** A verdict comes from an observation without error, and says whether the observed value is the expected one. */
  lemma VerdictMeans(spec: IdentitySpec, kind: string, cancelled: bool, o: Observation)
    requires Declared(spec, kind) && (o.err.None? ==> Canonical(o.status))
    ensures var r := Judged(spec, kind, cancelled, o).status;
            && (r == Pass || r == Fail <==> !cancelled && o.err.None?)
            && (r == Pass <==> !cancelled && o.err.None? && Meets(spec, kind, o.status))
            && r in {Pass, Fail, InsufficientData, Error}
  {
    hide Meets, Canonical;
    if cancelled || o.err.Some? {
      FailureStatus(spec, kind, cancelled, o);
    } else {
      hide Judged;
      match kind
      case "capabilities.effective" => EffectiveVerdictMeans(spec, o);
      case "capabilities.permitted" => PermittedVerdictMeans(spec, o);
      case "capabilities.inheritable" => InheritableVerdictMeans(spec, o);
      case "capabilities.bounding" => BoundingVerdictMeans(spec, o);
      case "capabilities.ambient" => AmbientVerdictMeans(spec, o);
      case _ => IDVerdictMeans(spec, kind, o);
    }
  }

  lemma FailureStatus(spec: IdentitySpec, kind: string, cancelled: bool, o: Observation)
    requires Declared(spec, kind) && (cancelled || o.err.Some?)
    ensures Judged(spec, kind, cancelled, o).status in {InsufficientData, Error}
  {
  }

  /** With a list read from a mask, a capability check passes exactly when the contract's list of the same set names
      the set bits. */
  lemma MaskVerdictMeans(spec: IdentitySpec, kind: string, o: Observation, mask: nat)
    requires Declared(spec, kind) && o.err.None?
    ensures var passed := Judged(spec, kind, false, o).status == Pass;
            && (kind == "capabilities.effective" && o.status.effective == MaskNames(mask) ==>
                  (passed <==> NamesBits(spec.capabilities.value.effective.value, mask)))
            && (kind == "capabilities.permitted" && o.status.permitted == MaskNames(mask) ==>
                  (passed <==> NamesBits(spec.capabilities.value.permitted.value, mask)))
            && (kind == "capabilities.inheritable" && o.status.inheritable == MaskNames(mask) ==>
                  (passed <==> NamesBits(spec.capabilities.value.inheritable.value, mask)))
            && (kind == "capabilities.bounding" && o.status.bounding == MaskNames(mask) ==>
                  (passed <==> NamesBits(spec.capabilities.value.bounding.value, mask)))
            && (kind == "capabilities.ambient" && o.status.ambient == MaskNames(mask) ==>
                  (passed <==> NamesBits(spec.capabilities.value.ambient.value, mask)))
  {
    hide CapabilitiesMatch, MaskNames, NamesBits;
    match kind
    case "capabilities.effective" => CapabilitiesMatchExactly(spec.capabilities.value.effective.value, mask);
    case "capabilities.permitted" => CapabilitiesMatchExactly(spec.capabilities.value.permitted.value, mask);
    case "capabilities.inheritable" => CapabilitiesMatchExactly(spec.capabilities.value.inheritable.value, mask);
    case "capabilities.bounding" => CapabilitiesMatchExactly(spec.capabilities.value.bounding.value, mask);
    case "capabilities.ambient" => CapabilitiesMatchExactly(spec.capabilities.value.ambient.value, mask);
    case _ =>
  }

  /** What a check that gets no verdict reports: whose fault it was, and the evidence it has. */
  lemma FailureMeans(spec: IdentitySpec, kind: string, cancelled: bool, o: Observation)
    requires Declared(spec, kind) && (cancelled || o.err.Some?)
    ensures var r := Judged(spec, kind, cancelled, o);
            && (cancelled ==> r.status == Error && r.reason == Timeout)
            && (!cancelled ==>
                  var failure := o.err.value;
                  && (r.status == InsufficientData <==>
                      failure in {MainPIDParse, ProcessParse, ProcessProvenance, ProcessGone})
                  && (r.status != InsufficientData ==> r.status == Error)
                  && (r.reason == Timeout <==> failure in {DeadlineFailure, CancelledFailure})
                  && (r.reason == NamespaceIsolation <==> failure == NamespaceFailure)
                  && (r.reason == PermissionDenied <==> failure == PermissionFailure)
                  && (r.reason == NoReason <==>
                      failure in {CommandUnavailable, UnexpectedCommand, ProcessProvenance, ProcessGone})
                  && (r.reason == ParseError <==>
                      failure in {MainPIDParse, ProcessParse, ServiceNotFound, ServiceParse, OtherFailure}))
  {
  }

  /** Where the evidence of a check with an observation comes from, and what it shows. */
  lemma EvidenceMeans(spec: IdentitySpec, kind: string, o: Observation)
    requires Declared(spec, kind)
    ensures var e := Judged(spec, kind, false, o).evidence;
            && e.collector == "identity" && !e.redacted && !e.truncated
            && (o.pid > 0 ==> e.source == "/proc/" + Itoa(o.pid) + "/status")
            && (o.pid <= 0 && o.command != [] ==> e.source == "systemctl show")
            && (o.pid <= 0 && o.command == [] ==> e.source == "identity.runtime")
            && (o.raw != "" || o.err !in {Some(CommandUnavailable), Some(UnexpectedCommand)} ==> e.raw == o.raw)
            && (o.raw == "" && o.err in {Some(CommandUnavailable), Some(UnexpectedCommand)} ==>
                  e.raw == "systemctl lookup did not complete")
  {
    hide CapabilitiesMatch, Itoa;
  }

  // ---- the two caches, read by one collector at a time ----

  /** How systemctl is reached: its path, or why there is none. */
  datatype Systemd = Systemd(path: string, commandErr: Option<CommandError>)

  /** Both caches, and the services systemctl was run for. */
  datatype Caches = Caches(pids: map<string, PIDResult>, observations: map<string, Observation>, queries: seq<string>)

  const EMPTY := Caches(map[], map[], [])

  function Lookup(systemd: Systemd, service: string, reply: Reply): PIDResult {
    var command := Command(systemd.path, service);
    if systemd.commandErr.Some? then Refused(command, systemd.commandErr.value) else Asked(command, reply)
  }

  function Observe(found: PIDResult, inspection: Inspection): Observation {
    if found.err.Some? then WithoutProcess(found) else WithProcess(found, inspection)
  }

  /** A lookup succeeds exactly when systemctl ran, exited with zero and named a usable main process, and then it has
      that process; otherwise it has the first error on the way. */
  lemma LookupMeans(systemd: Systemd, service: string, reply: Reply)
    ensures var found := Lookup(systemd, service, reply);
            && (forall pid, group :: found.err.None? && found.pid == pid && found.controlGroup == group <==>
                  systemd.commandErr.None? && reply.err.None? && reply.exitCode == 0 &&
                  ParsedMainPID(reply.stdout) == Usable(pid, group))
            && (systemd.commandErr.Some? ==> found.err == Some(systemd.commandErr.value.failure))
            && (systemd.commandErr.None? && reply.err.Some? ==> found.err == reply.err)
            && (systemd.commandErr.None? && reply.err.None? && reply.exitCode != 0 ==> found.err == Some(reply.mapped))
            && (systemd.commandErr.None? && reply.err.None? && reply.exitCode == 0 && found.err.Some? ==>
                  ParsedMainPID(reply.stdout) == Unusable(found.err.value))
  {
    hide ParsedMainPID;
  }

  /** A lookup keeps the command it ran, the exit code and what was printed, or the text of the error that kept it from
      running. */
  lemma LookupKeepsEvidence(systemd: Systemd, service: string, reply: Reply)
    ensures var found := Lookup(systemd, service, reply);
            && found.command ==
                 [if systemd.path == "" then "systemctl" else systemd.path, "show", service,
                  "--property=LoadState", "--property=MainPID", "--property=ControlGroup"]
            && (systemd.commandErr.Some? ==> found.raw == systemd.commandErr.value.text && found.exitCode == 0)
            && (systemd.commandErr.None? ==>
                  found.exitCode == reply.exitCode && Joins(found.raw, TrimSpace(reply.stdout), TrimSpace(reply.stderr)))
  {
    hide ParsedMainPID, TrimSpace, JoinRaw, Joins;
    JoinMeans(TrimSpace(reply.stdout), "\n", TrimSpace(reply.stderr));
  }

  /** An observation keeps the evidence of its lookup, adds what the process file said, and says what went wrong. */
  lemma ObservationKeepsEvidence(found: PIDResult, inspection: Inspection)
    ensures var o := Observe(found, inspection);
            && o.command == found.command && o.exitCode == found.exitCode && o.controlGroup == found.controlGroup
            && (found.err.Some? ==> o.raw == found.raw && o.err == found.err && o.pid == 0)
            && (found.err.None? ==>
                  && Joins(o.raw, found.raw, TrimSpace(inspection.status.raw))
                  && o.pid == found.pid && o.status == inspection.status
                  && (o.err.None? <==>
                      inspection.err.None? && CgroupsContain(inspection.status.cgroups, found.controlGroup))
                  && (inspection.err.Some? ==> o.err == inspection.err)
                  && (inspection.err.None? && o.err.Some? ==> o.err == Some(ProcessProvenance)))
  {
    hide CgroupsContain, TrimSpace, JoinRaw, Joins;
    JoinMeans(found.raw, "\n---\n", TrimSpace(inspection.status.raw));
  }

  /** The text begins with the one piece, ends with the other, and is no more than the one when the other is empty. */
  ghost predicate Joins(raw: string, first: string, second: string) {
    && first <= raw && |second| <= |raw| && raw[|raw| - |second|..] == second
    && (second == "" ==> raw == first) && (first == "" ==> raw == second)
    && |raw| <= |first| + 5 + |second|
    && (first != "" && second != "" ==> |raw| > |first| + |second|)
  }

  lemma JoinMeans(first: string, separator: string, second: string)
    requires 1 <= |separator| <= 5
    ensures Joins(JoinRaw(first, separator, second), first, second)
  {
  }

  /** serviceMainPIDReader.Read. */
  function ReadPID(systemd: Systemd, c: Caches, service: string, reply: Reply): (r: Caches)
    ensures service in r.pids && r.observations == c.observations
  {
    if service in c.pids then c
    else
      c.(pids := c.pids[service := Lookup(systemd, service, reply)],
         queries := if systemd.commandErr.Some? then c.queries else c.queries + [service])
  }

  /** runtimeIdentityObserver.Read; the answer is the observation cached afterwards. */
  function ReadIdentity(systemd: Systemd, c: Caches, service: string, reply: Reply, inspection: Inspection): (r: Caches)
    ensures service in r.observations
    ensures forall s | s in c.observations :: s in r.observations && r.observations[s] == c.observations[s]
  {
    if service in c.observations then c
    else
      var r := ReadPID(systemd, c, service, reply);
      r.(observations := r.observations[service := Observe(r.pids[service], inspection)])
  }

  class ServiceMainPIDReader {
    const systemd: Systemd
    var cache: map<string, PIDResult>
    ghost var queries: seq<string>

    constructor (systemd: Systemd)
      ensures this.systemd == systemd && cache == map[] && queries == []
    {
      this.systemd := systemd;
      cache, queries := map[], [];
    }

    method Read(service: string, reply: Reply) returns (result: PIDResult)
      modifies this
      ensures var r := ReadPID(systemd, Caches(old(cache), map[], old(queries)), service, reply);
              cache == r.pids && queries == r.queries && result == r.pids[service]
    {
      if service in cache { return cache[service]; }
      result := PIDResult(0, "", Command(systemd.path, service), 0, "", None);
      if systemd.commandErr.Some? {
        result := result.(raw := systemd.commandErr.value.text, err := Some(systemd.commandErr.value.failure));
        assert result == Lookup(systemd, service, reply);
        cache := cache[service := result];
        return;
      }
      queries := queries + [service];
      result := result.(exitCode := reply.exitCode, raw := TrimSpace(reply.stdout));
      var trimmed := TrimSpace(reply.stderr);
      if trimmed != "" {
        if result.raw != "" { result := result.(raw := result.raw + "\n"); }
        result := result.(raw := result.raw + trimmed);
      }
      if reply.err.Some? {
        result := result.(err := reply.err);
        assert result == Lookup(systemd, service, reply);
        cache := cache[service := result];
        return;
      }
      if reply.exitCode != 0 {
        result := result.(err := Some(reply.mapped));
        assert result == Lookup(systemd, service, reply);
        cache := cache[service := result];
        return;
      }
      var parsed := ParseSystemctlMainPID(reply.stdout);
      if parsed.Usable? {
        result := result.(pid := parsed.pid, controlGroup := parsed.controlGroup);
      } else {
        result := result.(err := Some(parsed.failure));
      }
      assert result == Lookup(systemd, service, reply);
      cache := cache[service := result];
    }
  }

  class RuntimeIdentityObserver {
    const pidReader: ServiceMainPIDReader
    var cache: map<string, Observation>

    ghost function View(): Caches
      reads this, pidReader
    {
      Caches(pidReader.cache, cache, pidReader.queries)
    }

    constructor (pidReader: ServiceMainPIDReader)
      ensures this.pidReader == pidReader && cache == map[]
    {
      this.pidReader := pidReader;
      cache := map[];
    }

    method Read(service: string, reply: Reply, inspection: Inspection) returns (observed: Observation)
      modifies this, pidReader
      ensures View() == ReadIdentity(pidReader.systemd, old(View()), service, reply, inspection)
      ensures observed == View().observations[service]
    {
      if service in cache { return cache[service]; }
      var found := pidReader.Read(service, reply);
      observed := Observation(0, found.controlGroup, NO_STATUS, found.command, found.exitCode, found.raw, None);
      if found.err.Some? {
        observed := observed.(err := found.err);
        assert observed == Observe(found, inspection);
        cache := cache[service := observed];
        return;
      }
      observed := observed.(pid := found.pid, status := inspection.status);
      var trimmed := TrimSpace(inspection.status.raw);
      if trimmed != "" {
        if observed.raw != "" { observed := observed.(raw := observed.raw + "\n---\n"); }
        observed := observed.(raw := observed.raw + trimmed);
      }
      if inspection.err.Some? {
        observed := observed.(err := inspection.err);
        assert observed == Observe(found, inspection);
        cache := cache[service := observed];
        return;
      }
      var contained := FindCgroup(inspection.status.cgroups, found.controlGroup);
      if !contained {
        observed := observed.(err := Some(ProcessProvenance));
      }
      assert observed == Observe(found, inspection);
      cache := cache[service := observed];
    }
  }

  // ---- whole runs of one collector after the other ----

  datatype Request = Request(service: string, reply: Reply, inspection: Inspection)

  function ReadAll(systemd: Systemd, requests: seq<Request>): Caches {
    if requests == [] then EMPTY
    else
      var last := requests[|requests| - 1];
      ReadIdentity(systemd, ReadAll(systemd, requests[..|requests| - 1]), last.service, last.reply, last.inspection)
  }

  predicate Requested(requests: seq<Request>, service: string) {
    exists i :: 0 <= i < |requests| && requests[i].service == service
  }

  lemma RequestedStep(init: seq<Request>, last: Request, service: string)
    ensures Requested(init + [last], service) <==> Requested(init, service) || service == last.service
  {
    var all := init + [last];
    assert all[|init|] == last;
    if Requested(init, service) {
      var i :| 0 <= i < |init| && init[i].service == service;
      assert all[i].service == service;
    }
  }

  /** In turn, every service read is asked for exactly once, or never when there is no systemctl to ask. */
  lemma {:induction false} QueriedOnce(systemd: Systemd, requests: seq<Request>)
    ensures var c := ReadAll(systemd, requests);
            && NoDuplicates(c.queries)
            && (forall s :: s in c.queries <==> systemd.commandErr.None? && Requested(requests, s))
            && (forall s :: s in c.pids <==> Requested(requests, s))
            && (forall s :: s in c.observations <==> Requested(requests, s))
  {
    hide Lookup, Observe, Requested;
    if requests != [] {
      var init, last := requests[..|requests| - 1], requests[|requests| - 1];
      assert requests == init + [last];
      QueriedOnce(systemd, init);
      forall s ensures Requested(requests, s) <==> Requested(init, s) || s == last.service { RequestedStep(init, last, s); }
    } else {
      NothingRequested();
    }
  }

  lemma NothingRequested()
    ensures forall s :: !Requested([], s)
  {
  }

  /** Every read of a service is answered with what its first read observed. */
  lemma {:induction false} FirstReadDecides(systemd: Systemd, requests: seq<Request>, i: nat)
    requires i < |requests| && !Requested(requests[..i], requests[i].service)
    ensures var r := requests[i]; var c := ReadAll(systemd, requests);
            && r.service in c.observations
            && c.observations[r.service] == Observe(Lookup(systemd, r.service, r.reply), r.inspection)
    decreases |requests|
  {
    hide Lookup, Observe, Requested;
    var init, last := requests[..|requests| - 1], requests[|requests| - 1];
    if i < |init| {
      assert init[..i] == requests[..i];
      FirstReadDecides(systemd, init, i);
    } else {
      QueriedOnce(systemd, init);
    }
  }
}
