/** Identity reads that overlap: a timed-out collector is left running, so several readers may be under way at once.
    Both caches unlock between lookup and store; every locked section, every systemctl run and every process read is
    one step, and the steps of all readers interleave freely. A reader that gets no more steps never returned. */
module IdentityRuns {
  import opened Text
  import opened Contracts
  import opened CheckResults
  import opened Systemctl
  import opened Identity

  datatype Reader =
    | Starting(service: string)
    | LookingUp(service: string)
    | Querying(service: string)
    | StoringPID(service: string, found: PIDResult)
    | Inspecting(service: string, found: PIDResult)
    | Storing(service: string, observed: Observation)
    | Returned(service: string, observed: Observation)

  /** What the outside world was seen to answer. */
  datatype Event = Shown(service: string, reply: Reply) | Inspected(pid: int, inspection: Inspection)

  datatype State = State(
    readers: seq<Reader>, pids: map<string, PIDResult>, observations: map<string, Observation>, log: seq<Event>)

  datatype Action = Begin(service: string) | Advance(reader: nat, reply: Reply, inspection: Inspection)

  const INITIAL := State([], map[], map[], [])

  /** The next atomic step of one reader; the replies are used if the step asks for one. */
  function Advanced(systemd: Systemd, s: State, i: nat, reply: Reply, inspection: Inspection): State
    requires i < |s.readers|
  {
    match s.readers[i]
    case Starting(service) =>
      s.(readers := s.readers[i := if service in s.observations then Returned(service, s.observations[service])
                                   else LookingUp(service)])
    case LookingUp(service) =>
      s.(readers := s.readers[i := if service in s.pids then Inspecting(service, s.pids[service]) else Querying(service)])
    case Querying(service) =>
      s.(readers := s.readers[i := StoringPID(service, Lookup(systemd, service, reply))],
         log := if systemd.commandErr.Some? then s.log else s.log + [Shown(service, reply)])
    case StoringPID(service, found) =>
      s.(readers := s.readers[i := Inspecting(service, found)], pids := s.pids[service := found])
    case Inspecting(service, found) =>
      s.(readers := s.readers[i := Storing(service, Observe(found, inspection))],
         log := if found.err.Some? then s.log else s.log + [Inspected(found.pid, inspection)])
    case Storing(service, observed) =>
      s.(readers := s.readers[i := Returned(service, observed)], observations := s.observations[service := observed])
    case Returned(_, _) => s
  }

  function Step(systemd: Systemd, s: State, a: Action): State {
    match a
    case Begin(service) => s.(readers := s.readers + [Starting(service)])
    case Advance(i, reply, inspection) => if i < |s.readers| then Advanced(systemd, s, i, reply, inspection) else s
  }

  function Run(systemd: Systemd, actions: seq<Action>): State {
    if actions == [] then INITIAL
    else Step(systemd, Run(systemd, actions[..|actions| - 1]), actions[|actions| - 1])
  }

  lemma RunStep(systemd: Systemd, actions: seq<Action>, a: Action)
    ensures Run(systemd, actions + [a]) == Step(systemd, Run(systemd, actions), a)
  {
    assert (actions + [a])[..|actions|] == actions;
  }

  // ---- provenance ----

  /** At this point of the log systemctl showed the service with this main process and control group. */
  ghost predicate ShownAt(log: seq<Event>, k: nat, service: string, pid: int, controlGroup: string) {
    && k < |log| && log[k].Shown? && log[k].service == service
    && log[k].reply.err.None? && log[k].reply.exitCode == 0
    && ParsedMainPID(log[k].reply.stdout) == Usable(pid, controlGroup)
  }

  /** At this point of the log the process was read without error and has the control group. */
  ghost predicate InspectedAt(log: seq<Event>, m: nat, pid: int, controlGroup: string, status: ProcessStatus) {
    && m < |log| && log[m] == Inspected(pid, Inspection(status, None))
    && CgroupsContain(status.cgroups, controlGroup)
  }

  ghost predicate PIDIsShown(log: seq<Event>, service: string, found: PIDResult) {
    found.err.None? ==> exists k: nat :: ShownAt(log, k, service, found.pid, found.controlGroup)
  }

  /** An observation without error joins one systemctl output with one later read of the process it named. */
  ghost predicate Grounded(log: seq<Event>, service: string, o: Observation) {
    o.err.None? ==>
      exists k: nat, m: nat :: k < m && ShownAt(log, k, service, o.pid, o.controlGroup) &&
                               InspectedAt(log, m, o.pid, o.controlGroup, o.status)
  }

  ghost predicate ReaderHolds(log: seq<Event>, r: Reader) {
    match r
    case StoringPID(service, found) => PIDIsShown(log, service, found)
    case Inspecting(service, found) => PIDIsShown(log, service, found)
    case Storing(service, observed) => Grounded(log, service, observed)
    case Returned(service, observed) => Grounded(log, service, observed)
    case _ => true
  }

  ghost predicate Holds(s: State) {
    && (forall i | 0 <= i < |s.readers| :: ReaderHolds(s.log, s.readers[i]))
    && (forall service | service in s.pids :: PIDIsShown(s.log, service, s.pids[service]))
    && (forall service | service in s.observations :: Grounded(s.log, service, s.observations[service]))
  }

  lemma LogOnlyGrows(log: seq<Event>, e: Event, service: string)
    ensures forall found | PIDIsShown(log, service, found) :: PIDIsShown(log + [e], service, found)
    ensures forall o | Grounded(log, service, o) :: Grounded(log + [e], service, o)
  {
    hide CgroupsContain, ParsedMainPID;
    var log' := log + [e];
    assert forall k | 0 <= k < |log| :: log'[k] == log[k];
    forall found | PIDIsShown(log, service, found) ensures PIDIsShown(log', service, found) {
      if found.err.None? {
        var k: nat :| ShownAt(log, k, service, found.pid, found.controlGroup);
        assert ShownAt(log', k, service, found.pid, found.controlGroup);
      }
    }
    forall o | Grounded(log, service, o) ensures Grounded(log', service, o) {
      if o.err.None? {
        var k: nat, m: nat :| k < m && ShownAt(log, k, service, o.pid, o.controlGroup) &&
                              InspectedAt(log, m, o.pid, o.controlGroup, o.status);
        assert ShownAt(log', k, service, o.pid, o.controlGroup);
        assert InspectedAt(log', m, o.pid, o.controlGroup, o.status);
      }
    }
  }

  lemma HoldsWithLongerLog(s: State, e: Event)
    requires Holds(s)
    ensures Holds(s.(log := s.log + [e]))
  {
    hide PIDIsShown, Grounded;
    var log := s.log + [e];
    forall i | 0 <= i < |s.readers| ensures ReaderHolds(log, s.readers[i]) { LogOnlyGrows(s.log, e, s.readers[i].service); }
    forall service | service in s.pids ensures PIDIsShown(log, service, s.pids[service]) { LogOnlyGrows(s.log, e, service); }
    forall service | service in s.observations ensures Grounded(log, service, s.observations[service]) {
      LogOnlyGrows(s.log, e, service);
    }
  }

  /** A lookup that succeeds was shown by the reply just logged. */
  lemma LookupIsShown(systemd: Systemd, log: seq<Event>, service: string, reply: Reply)
    ensures var log' := if systemd.commandErr.Some? then log else log + [Shown(service, reply)];
            PIDIsShown(log', service, Lookup(systemd, service, reply))
  {
    var found := Lookup(systemd, service, reply);
    if found.err.None? {
      assert ShownAt(log + [Shown(service, reply)], |log|, service, found.pid, found.controlGroup);
    }
  }

  /** An observation without error is grounded by the lookup and the process read just logged. */
  lemma ObservationIsGrounded(log: seq<Event>, service: string, found: PIDResult, inspection: Inspection)
    requires PIDIsShown(log, service, found)
    ensures var log' := if found.err.Some? then log else log + [Inspected(found.pid, inspection)];
            Grounded(log', service, Observe(found, inspection))
  {
    hide CgroupsContain, ParsedMainPID, JoinRaw;
    var o := Observe(found, inspection);
    if o.err.None? {
      var k: nat :| ShownAt(log, k, service, found.pid, found.controlGroup);
      var log' := log + [Inspected(found.pid, inspection)];
      assert log'[k] == log[k];
      assert ShownAt(log', k, service, o.pid, o.controlGroup);
      assert inspection == Inspection(inspection.status, None);
      assert InspectedAt(log', |log|, o.pid, o.controlGroup, o.status);
    }
  }

  lemma StepKeepsHolds(systemd: Systemd, s: State, a: Action)
    requires Holds(s)
    ensures Holds(Step(systemd, s, a))
  {
    hide PIDIsShown, Grounded, Lookup, Observe;
    if a.Advance? && a.reader < |s.readers| {
      var r := s.readers[a.reader];
      assert ReaderHolds(s.log, r);
      match r {
        case Querying(service) =>
          LookupIsShown(systemd, s.log, service, a.reply);
          if systemd.commandErr.None? { HoldsWithLongerLog(s, Shown(service, a.reply)); }
        case Inspecting(service, found) =>
          ObservationIsGrounded(s.log, service, found, a.inspection);
          if found.err.None? { HoldsWithLongerLog(s, Inspected(found.pid, a.inspection)); }
        case _ =>
      }
    }
  }

  /** Whatever the interleaving and whatever the replies. */
  lemma {:induction false} RunHolds(systemd: Systemd, actions: seq<Action>)
    ensures Holds(Run(systemd, actions))
  {
    hide Holds, Step;
    if actions == [] {
      InitialHolds();
    } else {
      RunHolds(systemd, actions[..|actions| - 1]);
      StepKeepsHolds(systemd, Run(systemd, actions[..|actions| - 1]), actions[|actions| - 1]);
    }
  }

  lemma InitialHolds()
    ensures Holds(INITIAL)
  {
  }

  /** No verdict without provenance: if the answer of any reader makes an identity check pass or fail, the service was
      shown running as a process with positive id in a non-empty control group, and that process was afterwards read
      and found in that control group. */
  lemma VerdictHasProvenance(systemd: Systemd, actions: seq<Action>, i: nat, spec: IdentitySpec, kind: string, cancelled: bool)
    requires var s := Run(systemd, actions); i < |s.readers| && s.readers[i].Returned?
    requires Declared(spec, kind)
    requires Judged(spec, kind, cancelled, Run(systemd, actions).readers[i].observed).status in {Pass, Fail}
    ensures var s := Run(systemd, actions); var o, service := s.readers[i].observed, s.readers[i].service;
            && o.pid > 0 && o.controlGroup != ""
            && (exists k: nat, m: nat :: k < m && ShownAt(s.log, k, service, o.pid, o.controlGroup) &&
                                         InspectedAt(s.log, m, o.pid, o.controlGroup, o.status))
            && exists g :: g in o.status.cgroups && TrimSpace(g) == o.controlGroup
  {
    hide Run, ParsedMainPID, TrimSpace;
    var s := Run(systemd, actions);
    RunHolds(systemd, actions);
    assert ReaderHolds(s.log, s.readers[i]);
    var o, service := s.readers[i].observed, s.readers[i].service;
    var k: nat, m: nat :| k < m && ShownAt(s.log, k, service, o.pid, o.controlGroup) &&
                          InspectedAt(s.log, m, o.pid, o.controlGroup, o.status);
    UsableIsTrimmed(s.log[k].reply.stdout, o.pid, o.controlGroup);
    assert CgroupsContain(o.status.cgroups, o.controlGroup);
    var n :| 0 <= n < |o.status.cgroups| && TrimSpace(o.status.cgroups[n]) == TrimSpace(o.controlGroup);
    assert o.status.cgroups[n] in o.status.cgroups;
  }

  // ---- readers that do not overlap ----

  /** The services systemctl was run for. */
  function Queries(log: seq<Event>): seq<string> {
    if log == [] then []
    else
      var last := log[|log| - 1];
      Queries(log[..|log| - 1]) + (if last.Shown? then [last.service] else [])
  }

  lemma QueriesStep(log: seq<Event>, e: Event)
    ensures Queries(log + [e]) == Queries(log) + (if e.Shown? then [e.service] else [])
  {
    assert (log + [e])[..|log|] == log;
  }

  /** The caches of the machine are those of sequential reads. */
  ghost predicate Agrees(s: State, c: Caches) {
    s.pids == c.pids && s.observations == c.observations && Queries(s.log) == c.queries
  }

  function AdvanceTimes(systemd: Systemd, s: State, i: nat, n: nat, r: Request): State
    requires i < |s.readers|
    ensures |AdvanceTimes(systemd, s, i, n, r).readers| == |s.readers|
    decreases n
  {
    if n == 0 then s
    else AdvanceTimes(systemd, Advanced(systemd, s, i, r.reply, r.inspection), i, n - 1, r)
  }

  /** From the pid cache on: three steps at most, for a reader holding a lookup two. */
  lemma InspectsAlone(systemd: Systemd, s: State, i: nat, r: Request, found: PIDResult)
    requires i < |s.readers| && s.readers[i] == Inspecting(r.service, found)
    ensures var o, s' := Observe(found, r.inspection), AdvanceTimes(systemd, s, i, 2, r);
            && s'.readers == s.readers[i := Returned(r.service, o)]
            && s'.pids == s.pids && s'.observations == s.observations[r.service := o]
            && Queries(s'.log) == Queries(s.log)
  {
    hide Observe;
    var next := Advanced(systemd, s, i, r.reply, r.inspection);
    QueriesStep(s.log, Inspected(found.pid, r.inspection));
    assert AdvanceTimes(systemd, s, i, 2, r) == Advanced(systemd, next, i, r.reply, r.inspection);
  }

  lemma StaysReturned(systemd: Systemd, s: State, i: nat, n: nat, r: Request)
    requires i < |s.readers| && s.readers[i].Returned?
    ensures AdvanceTimes(systemd, s, i, n, r) == s
  {
  }

  lemma {:induction false} AdvanceTimesAdds(systemd: Systemd, s: State, i: nat, m: nat, n: nat, r: Request)
    requires i < |s.readers|
    ensures AdvanceTimes(systemd, s, i, m + n, r) == AdvanceTimes(systemd, AdvanceTimes(systemd, s, i, m, r), i, n, r)
    decreases m
  {
    if m > 0 {
      AdvanceTimesAdds(systemd, Advanced(systemd, s, i, r.reply, r.inspection), i, m - 1, n, r);
    }
  }

  /** Steps up to holding a lookup. */
  lemma LooksUpAlone(systemd: Systemd, s: State, c: Caches, i: nat, r: Request) returns (n: nat)
    requires i < |s.readers| && s.readers[i] == LookingUp(r.service) && Agrees(s, c)
    ensures n <= 3
    ensures var c', s' := ReadPID(systemd, c, r.service, r.reply), AdvanceTimes(systemd, s, i, n, r);
            && s'.readers == s.readers[i := Inspecting(r.service, c'.pids[r.service])]
            && Agrees(s', c')
  {
    hide Lookup;
    n := if r.service in s.pids then 1 else 3;
    var s1 := Advanced(systemd, s, i, r.reply, r.inspection);
    if r.service in s.pids {
      assert AdvanceTimes(systemd, s, i, 1, r) == s1;
    } else {
      var s2 := Advanced(systemd, s1, i, r.reply, r.inspection);
      QueriesStep(s.log, Shown(r.service, r.reply));
      assert AdvanceTimes(systemd, s1, i, 2, r) == Advanced(systemd, s2, i, r.reply, r.inspection);
    }
  }

  /** A reader left alone gives the answer of the sequential read and leaves its caches. */
  lemma ReadsAlone(systemd: Systemd, s: State, c: Caches, i: nat, r: Request)
    requires i < |s.readers| && s.readers[i] == Starting(r.service) && Agrees(s, c)
    ensures var c' := ReadIdentity(systemd, c, r.service, r.reply, r.inspection);
            var s' := AdvanceTimes(systemd, s, i, 6, r);
            && s'.readers == s.readers[i := Returned(r.service, c'.observations[r.service])]
            && Agrees(s', c')
  {
    hide Lookup, Observe, ReadPID;
    var s1 := Advanced(systemd, s, i, r.reply, r.inspection);
    assert AdvanceTimes(systemd, s, i, 6, r) == AdvanceTimes(systemd, s1, i, 5, r);
    if r.service in s.observations {
      StaysReturned(systemd, s1, i, 5, r);
    } else {
      ReadAloneMiss(systemd, s1, c, i, r);
    }
  }

  lemma ReadAloneMiss(systemd: Systemd, s: State, c: Caches, i: nat, r: Request)
    requires i < |s.readers| && s.readers[i] == LookingUp(r.service) && Agrees(s, c)
    ensures var c1 := ReadPID(systemd, c, r.service, r.reply);
            var o, s' := Observe(c1.pids[r.service], r.inspection), AdvanceTimes(systemd, s, i, 5, r);
            && s'.readers == s.readers[i := Returned(r.service, o)]
            && s'.pids == c1.pids && s'.observations == c.observations[r.service := o] && Queries(s'.log) == c1.queries
  {
    hide Lookup, Observe, AdvanceTimes;
    var n := LooksUpAlone(systemd, s, c, i, r);
    var c1, held := ReadPID(systemd, c, r.service, r.reply), AdvanceTimes(systemd, s, i, n, r);
    InspectsAlone(systemd, held, i, r, c1.pids[r.service]);
    StaysReturned(systemd, AdvanceTimes(systemd, held, i, 2, r), i, 3 - n, r);
    AdvanceTimesAdds(systemd, held, i, 2, 3 - n, r);
    AdvanceTimesAdds(systemd, s, i, n, 5 - n, r);
  }

  function Repeated(a: Action, n: nat): seq<Action> {
    if n == 0 then [] else Repeated(a, n - 1) + [a]
  }

  /** The schedule that runs one reader after the other. */
  function InTurn(requests: seq<Request>): seq<Action> {
    if requests == [] then []
    else
      var k := |requests| - 1;
      InTurn(requests[..k]) + [Begin(requests[k].service)] +
      Repeated(Advance(k, requests[k].reply, requests[k].inspection), 6)
  }

  lemma {:induction false} RunRepeated(systemd: Systemd, actions: seq<Action>, i: nat, n: nat, r: Request)
    requires i < |Run(systemd, actions).readers|
    ensures Run(systemd, actions + Repeated(Advance(i, r.reply, r.inspection), n)) ==
            AdvanceTimes(systemd, Run(systemd, actions), i, n, r)
  {
    hide Advanced, Run;
    var a := Advance(i, r.reply, r.inspection);
    if n == 0 {
      assert actions + [] == actions;
    } else {
      RunRepeated(systemd, actions, i, n - 1, r);
      assert actions + Repeated(a, n) == actions + Repeated(a, n - 1) + [a];
      RunStep(systemd, actions + Repeated(a, n - 1), a);
      AdvanceTimesAdds(systemd, Run(systemd, actions), i, n - 1, 1, r);
      var s := AdvanceTimes(systemd, Run(systemd, actions), i, n - 1, r);
      assert AdvanceTimes(systemd, s, i, 1, r) == AdvanceTimes(systemd, Advanced(systemd, s, i, r.reply, r.inspection), i, 0, r);
    }
  }

  lemma IsRequested(requests: seq<Request>, i: nat)
    requires i < |requests|
    ensures Requested(requests, requests[i].service)
  {
  }

  /** Without overlap the machine is the sequential reader: the same caches, the same systemctl runs, and every reader
      of a service returns the one observation cached for it. */
  lemma {:induction false} InTurnIsSequential(systemd: Systemd, requests: seq<Request>)
    ensures var s := Run(systemd, InTurn(requests));
            && |s.readers| == |requests| && Agrees(s, ReadAll(systemd, requests))
            && (forall s :: s in ReadAll(systemd, requests).observations <==> Requested(requests, s))
            && (forall i | 0 <= i < |requests| :: Requested(requests, requests[i].service) && s.readers[i] ==
                  Returned(requests[i].service, ReadAll(systemd, requests).observations[requests[i].service]))
    decreases |requests|
  {
    hide Advanced, ReadIdentity, AdvanceTimes, Repeated, Requested;
    QueriedOnce(systemd, requests);
    forall i | 0 <= i < |requests| ensures Requested(requests, requests[i].service) { IsRequested(requests, i); }
    if requests != [] {
      var k := |requests| - 1;
      var r, init := requests[k], InTurn(requests[..k]);
      InTurnIsSequential(systemd, requests[..k]);
      var s := Run(systemd, init);
      RunStep(systemd, init, Begin(r.service));
      RunRepeated(systemd, init + [Begin(r.service)], k, 6, r);
      ReadsAlone(systemd, Run(systemd, init + [Begin(r.service)]), ReadAll(systemd, requests[..k]), k, r);
    } else {
      assert InTurn(requests) == [];
    }
  }

  // ---- readers that race ----

  /** Once readers overlap, the caches no longer keep a service from being asked for twice: two readers of one service
      can both miss, and each then returns what its own replies said, however the replies differ. */
  lemma RacersAskTwice(systemd: Systemd, service: string, first: Request, second: Request) returns (actions: seq<Action>)
    requires systemd.commandErr.None? && first.service == service == second.service
    ensures var s := Run(systemd, actions);
            && Queries(s.log) == [service, service]
            && s.readers == [Returned(service, Observe(Lookup(systemd, service, first.reply), first.inspection)),
                             Returned(service, Observe(Lookup(systemd, service, second.reply), second.inspection))]
  {
    hide Lookup, Observe, Run;
    var a, b := Advance(0, first.reply, first.inspection), Advance(1, second.reply, second.inspection);
    var s0 := State([Querying(service), Querying(service)], map[], map[], []);
    var meet := [Begin(service), Begin(service), a, b, a, b];
    BothMiss(systemd, service, a, b);
    var foundA, foundB := Lookup(systemd, service, first.reply), Lookup(systemd, service, second.reply);
    RunRepeated(systemd, meet, 0, 4, first);
    FinishesAlone(systemd, s0, 0, first);
    var middle := meet + Repeated(a, 4);
    RunRepeated(systemd, middle, 1, 4, second);
    FinishesAlone(systemd, Run(systemd, middle), 1, second);
    actions := middle + Repeated(b, 4);
    assert Queries([]) == [];
  }

  lemma BothMiss(systemd: Systemd, service: string, a: Action, b: Action)
    requires a.Advance? && a.reader == 0 && b.Advance? && b.reader == 1
    ensures Run(systemd, [Begin(service), Begin(service), a, b, a, b]) ==
            State([Querying(service), Querying(service)], map[], map[], [])
  {
    hide Run;
    var x := Begin(service);
    BothStart(systemd, service);
    RunStep(systemd, [x, x], a);
    assert Run(systemd, [x, x, a]) == State([LookingUp(service), Starting(service)], map[], map[], []) by {
      assert [x, x] + [a] == [x, x, a];
    }
    RunStep(systemd, [x, x, a], b);
    assert Run(systemd, [x, x, a, b]) == State([LookingUp(service), LookingUp(service)], map[], map[], []) by {
      assert [x, x, a] + [b] == [x, x, a, b];
    }
    RunStep(systemd, [x, x, a, b], a);
    assert Run(systemd, [x, x, a, b, a]) == State([Querying(service), LookingUp(service)], map[], map[], []) by {
      assert [x, x, a, b] + [a] == [x, x, a, b, a];
    }
    RunStep(systemd, [x, x, a, b, a], b);
    assert [x, x, a, b, a] + [b] == [x, x, a, b, a, b];
  }

  lemma BothStart(systemd: Systemd, service: string)
    ensures Run(systemd, [Begin(service), Begin(service)]) ==
            State([Starting(service), Starting(service)], map[], map[], [])
  {
    var x := Begin(service);
    assert Run(systemd, []) == INITIAL;
    RunStep(systemd, [], x);
    assert [] + [x] == [x];
    RunStep(systemd, [x], x);
    assert [x] + [x] == [x, x];
  }

  /** A reader about to run systemctl, left alone for its last four steps. */
  lemma FinishesAlone(systemd: Systemd, s: State, i: nat, r: Request)
    requires i < |s.readers| && s.readers[i] == Querying(r.service) && systemd.commandErr.None?
    ensures var s' := AdvanceTimes(systemd, s, i, 4, r);
            && s'.readers == s.readers[i := Returned(r.service, Observe(Lookup(systemd, r.service, r.reply), r.inspection))]
            && Queries(s'.log) == Queries(s.log) + [r.service]
  {
    hide Lookup, Observe;
    var found := Lookup(systemd, r.service, r.reply);
    var s1 := Advanced(systemd, s, i, r.reply, r.inspection);
    var s2 := Advanced(systemd, s1, i, r.reply, r.inspection);
    QueriesStep(s.log, Shown(r.service, r.reply));
    InspectsAlone(systemd, s2, i, r, found);
    assert AdvanceTimes(systemd, s, i, 4, r) == AdvanceTimes(systemd, s1, i, 3, r);
    assert AdvanceTimes(systemd, s1, i, 3, r) == AdvanceTimes(systemd, s2, i, 2, r);
  }
}
