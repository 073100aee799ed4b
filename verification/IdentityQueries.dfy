/** How often systemctl is run for one service when reads overlap. A reader is in the window of a service from its
    missed lookup of the pid cache to its store into it. */
module IdentityQueries {
  import opened ByteOrder
  import opened Contracts
  import opened Identity
  import opened IdentityRuns

  predicate IsQuerying(r: Reader, service: string) {
    r.Querying? && r.service == service
  }

  predicate IsStoring(r: Reader, service: string) {
    r.StoringPID? && r.service == service
  }

  predicate InWindow(r: Reader, service: string) {
    IsQuerying(r, service) || IsStoring(r, service)
  }

  /** Two readers are in the window of the service at once. */
  ghost predicate Overlaps(s: State, service: string) {
    exists i, j :: 0 <= i < j < |s.readers| && InWindow(s.readers[i], service) && InWindow(s.readers[j], service)
  }

  /** At some point of the run they were. */
  ghost predicate EverOverlaps(systemd: Systemd, actions: seq<Action>, service: string) {
    exists n :: 0 <= n <= |actions| && Overlaps(Run(systemd, actions[..n]), service)
  }

  /** How often systemctl was run for the service. */
  ghost function Shown(s: State, service: string): nat {
    multiset(Queries(s.log))[service]
  }

  // ---- counting readers ----

  function CountReaders(readers: seq<Reader>, p: Reader -> bool): (n: nat)
    ensures n <= |readers|
  {
    if readers == [] then 0
    else CountReaders(readers[..|readers| - 1], p) + (if p(readers[|readers| - 1]) then 1 else 0)
  }

  function Querying(s: State, service: string): nat {
    CountReaders(s.readers, r => IsQuerying(r, service))
  }

  function Storing(s: State, service: string): nat {
    CountReaders(s.readers, r => IsStoring(r, service))
  }

  lemma CountAppended(readers: seq<Reader>, r: Reader, p: Reader -> bool)
    ensures CountReaders(readers + [r], p) == CountReaders(readers, p) + (if p(r) then 1 else 0)
  {
    assert (readers + [r])[..|readers|] == readers;
  }

  lemma {:induction false} CountUpdated(readers: seq<Reader>, i: nat, r: Reader, p: Reader -> bool)
    requires i < |readers|
    ensures CountReaders(readers[i := r], p) + (if p(readers[i]) then 1 else 0) ==
            CountReaders(readers, p) + (if p(r) then 1 else 0)
  {
    var n := |readers| - 1;
    if i < n {
      assert readers[i := r][..n] == readers[..n][i := r];
      CountUpdated(readers[..n], i, r, p);
    } else {
      assert readers[i := r][..n] == readers[..n];
    }
  }

  lemma {:induction false} NoneCounted(readers: seq<Reader>, p: Reader -> bool)
    ensures CountReaders(readers, p) == 0 <==> forall i | 0 <= i < |readers| :: !p(readers[i])
  {
    if readers != [] {
      NoneCounted(readers[..|readers| - 1], p);
    }
  }

  /** Two readers are in the window exactly when at least two are counted there. */
  lemma {:induction false} OverlapIsTwo(s: State, service: string)
    ensures Overlaps(s, service) <==> Querying(s, service) + Storing(s, service) >= 2
    decreases |s.readers|
  {
    if s.readers != [] {
      var n := |s.readers| - 1;
      var init := s.(readers := s.readers[..n]);
      OverlapIsTwo(init, service);
      NoneCounted(init.readers, r => IsQuerying(r, service));
      NoneCounted(init.readers, r => IsStoring(r, service));
      if Overlaps(s, service) && !InWindow(s.readers[n], service) {
        var i, j :| 0 <= i < j < |s.readers| && InWindow(s.readers[i], service) && InWindow(s.readers[j], service);
        assert j < n && init.readers[i] == s.readers[i] && init.readers[j] == s.readers[j];
      }
      if Overlaps(init, service) {
        var i, j :| 0 <= i < j < n && InWindow(init.readers[i], service) && InWindow(init.readers[j], service);
        assert s.readers[i] == init.readers[i] && s.readers[j] == init.readers[j];
      }
    }
  }

  // ---- every step ----

  /** The systemctl runs of the service that were done or can no longer be avoided. */
  ghost function Bound(s: State, service: string): nat {
    Shown(s, service) + Querying(s, service)
  }

  /** Every reader about to store has asked; until the first store, everyone who asked is about to store. */
  ghost predicate Tallied(s: State, service: string) {
    && Storing(s, service) <= Shown(s, service)
    && (service !in s.pids ==> Storing(s, service) == Shown(s, service))
  }

  lemma CountsAfterUpdate(s: State, s': State, i: nat, service: string)
    requires i < |s.readers| == |s'.readers| && s'.readers == s.readers[i := s'.readers[i]]
    ensures Querying(s', service) + (if IsQuerying(s.readers[i], service) then 1 else 0) ==
            Querying(s, service) + (if IsQuerying(s'.readers[i], service) then 1 else 0)
    ensures Storing(s', service) + (if IsStoring(s.readers[i], service) then 1 else 0) ==
            Storing(s, service) + (if IsStoring(s'.readers[i], service) then 1 else 0)
  {
    CountUpdated(s.readers, i, s'.readers[i], r => IsQuerying(r, service));
    CountUpdated(s.readers, i, s'.readers[i], r => IsStoring(r, service));
  }

  lemma CountsAfterBegin(s: State, s': State, r: Reader, service: string)
    requires s'.readers == s.readers + [r] && r.Starting?
    ensures Querying(s', service) == Querying(s, service) && Storing(s', service) == Storing(s, service)
  {
    CountAppended(s.readers, r, x => IsQuerying(x, service));
    CountAppended(s.readers, r, x => IsStoring(x, service));
  }

  lemma ShownAfter(s: State, e: Event, service: string)
    ensures Shown(s.(log := s.log + [e]), service) ==
            Shown(s, service) + (if e.Shown? && e.service == service then 1 else 0)
  {
    QueriesStep(s.log, e);
  }

  /** The bound never falls, and only a lookup that misses raises it. */
  lemma StepKeepsTally(systemd: Systemd, s: State, a: Action, service: string)
    requires systemd.commandErr.None? && Tallied(s, service)
    ensures var s' := Step(systemd, s, a);
            && Tallied(s', service)
            && Bound(s, service) <= Bound(s', service)
            && (Bound(s, service) < Bound(s', service) ==> service !in s'.pids)
  {
    hide Lookup, Observe, CountReaders, Queries, Querying, Storing, Shown;
    var s' := Step(systemd, s, a);
    assert s'.log == s.log ==> Shown(s', service) == Shown(s, service) by { ShownReadsLog(s, s', service); }
    if a.Begin? {
      CountsAfterBegin(s, s', Starting(a.service), service);
    } else if a.reader < |s.readers| {
      CountsAfterUpdate(s, s', a.reader, service);
      if s'.log != s.log {
        var e := s'.log[|s.log|];
        ShownAfter(s, e, service);
        ShownReadsLog(s.(log := s.log + [e]), s', service);
      }
    }
  }

  lemma ShownReadsLog(s: State, t: State, service: string)
    ensures s.log == t.log ==> Shown(s, service) == Shown(t, service)
  {
  }

  lemma {:induction false} RunIsTallied(systemd: Systemd, actions: seq<Action>, service: string)
    requires systemd.commandErr.None?
    ensures Tallied(Run(systemd, actions), service)
  {
    hide Tallied, Step;
    if actions == [] {
      assert Tallied(INITIAL, service) by { NothingTallied(service); }
    } else {
      var init := actions[..|actions| - 1];
      RunIsTallied(systemd, init, service);
      StepKeepsTally(systemd, Run(systemd, init), actions[|actions| - 1], service);
    }
  }

  lemma NothingTallied(service: string)
    ensures Tallied(INITIAL, service) && Bound(INITIAL, service) == 0
  {
  }

  // ---- whole runs ----

  lemma {:induction false} BoundOnlyGrows(systemd: Systemd, actions: seq<Action>, n: nat, service: string)
    requires systemd.commandErr.None? && n <= |actions|
    ensures Bound(Run(systemd, actions[..n]), service) <= Bound(Run(systemd, actions), service)
    decreases |actions|
  {
    hide Bound, Step, Tallied;
    if n < |actions| {
      var init := actions[..|actions| - 1];
      assert init[..n] == actions[..n];
      BoundOnlyGrows(systemd, init, n, service);
      RunIsTallied(systemd, init, service);
      StepKeepsTally(systemd, Run(systemd, init), actions[|actions| - 1], service);
    } else {
      assert actions[..n] == actions;
    }
  }

  lemma {:induction false} BoundNeedsOverlap(systemd: Systemd, actions: seq<Action>, service: string)
    requires systemd.commandErr.None? && Bound(Run(systemd, actions), service) >= 2
    ensures EverOverlaps(systemd, actions, service)
  {
    hide Step, Tallied, Overlaps, Bound;
    if actions == [] {
      NothingTallied(service);
    } else {
      var init := actions[..|actions| - 1];
      var s, s' := Run(systemd, init), Run(systemd, actions);
      RunIsTallied(systemd, init, service);
      StepKeepsTally(systemd, s, actions[|actions| - 1], service);
      if Bound(s, service) >= 2 {
        BoundNeedsOverlap(systemd, init, service);
        var n :| 0 <= n <= |init| && Overlaps(Run(systemd, init[..n]), service);
        assert init[..n] == actions[..n];
      } else {
        MissOverlaps(s', service);
        assert actions[..|actions|] == actions;
      }
    }
  }

  lemma MissOverlaps(s: State, service: string)
    requires Tallied(s, service) && service !in s.pids && Bound(s, service) >= 2
    ensures Overlaps(s, service)
  {
    OverlapIsTwo(s, service);
  }

  lemma OverlapBinds(s: State, service: string)
    requires Tallied(s, service) && Overlaps(s, service)
    ensures Bound(s, service) >= 2
  {
    OverlapIsTwo(s, service);
  }

  /** Over all runs: two systemctl runs of a service are done or bound to come exactly when two readers were in its
      window at once. Once nobody is about to run systemctl for it, those are the runs in the log. */
  lemma AskedTwiceIffOverlap(systemd: Systemd, actions: seq<Action>, service: string)
    requires systemd.commandErr.None?
    ensures var s := Run(systemd, actions);
            && (Bound(s, service) >= 2 <==> EverOverlaps(systemd, actions, service))
            && ((forall i | 0 <= i < |s.readers| :: !IsQuerying(s.readers[i], service)) ==>
                  (Shown(s, service) <= 1 <==> !EverOverlaps(systemd, actions, service)))
  {
    hide Run, Overlaps, CountReaders, Shown;
    var s := Run(systemd, actions);
    if EverOverlaps(systemd, actions, service) {
      var n :| 0 <= n <= |actions| && Overlaps(Run(systemd, actions[..n]), service);
      RunIsTallied(systemd, actions[..n], service);
      OverlapBinds(Run(systemd, actions[..n]), service);
      BoundOnlyGrows(systemd, actions, n, service);
    }
    if Bound(s, service) >= 2 {
      BoundNeedsOverlap(systemd, actions, service);
    }
    NoneCounted(s.readers, r => IsQuerying(r, service));
  }

  // ---- schedules that never overlap ----

  /** At no point of the run have two readers of the service begun and not returned. Readers of other services may
      overlap with them and with each other. */
  ghost predicate OneAtATime(systemd: Systemd, actions: seq<Action>, service: string) {
    forall n, i, j | 0 <= n <= |actions| && 0 <= i < j < |Run(systemd, actions[..n]).readers| ::
      !(UnderWay(Run(systemd, actions[..n]).readers[i], service) && UnderWay(Run(systemd, actions[..n]).readers[j], service))
  }

  predicate UnderWay(r: Reader, service: string) {
    r.service == service && !r.Returned?
  }

  /** So a service whose own readers take turns is asked for at most once. */
  lemma TakingTurnsAsksOnce(systemd: Systemd, actions: seq<Action>, service: string)
    requires systemd.commandErr.None? && OneAtATime(systemd, actions, service)
    ensures Shown(Run(systemd, actions), service) <= 1
  {
    hide Run, Shown, CountReaders;
    AskedTwiceIffOverlap(systemd, actions, service);
    assert !EverOverlaps(systemd, actions, service);
  }

  lemma {:induction false} OthersWait(systemd: Systemd, s: State, i: nat, n: nat, r: Request)
    requires i < |s.readers|
    ensures forall j | 0 <= j < |s.readers| && j != i :: AdvanceTimes(systemd, s, i, n, r).readers[j] == s.readers[j]
    decreases n
  {
    if n > 0 {
      OthersWait(systemd, Advanced(systemd, s, i, r.reply, r.inspection), i, n - 1, r);
    }
  }

  lemma {:induction false} RepeatedPrefix(a: Action, n: nat, m: nat)
    requires m <= n
    ensures |Repeated(a, n)| == n && Repeated(a, n)[..m] == Repeated(a, m)
    decreases n
  {
    if m < n {
      RepeatedPrefix(a, n - 1, m);
    } else if n > 0 {
      RepeatedPrefix(a, n - 1, n - 1);
    }
  }

  /** While the last reader takes its steps the others stay as they are. */
  lemma LastReaderRuns(requests: seq<Request>, m: nat)
    requires requests != [] && m <= 6
    ensures var k := |requests| - 1;
            var init := InTurn(requests[..k]) + [Begin(requests[k].service)];
            && |InTurn(requests)| == |init| + 6
            && InTurn(requests)[..|init| + m] == init + Repeated(Advance(k, requests[k].reply, requests[k].inspection), m)
  {
    var k := |requests| - 1;
    var a := Advance(k, requests[k].reply, requests[k].inspection);
    RepeatedPrefix(a, 6, 6);
    RepeatedPrefix(a, 6, m);
  }

  lemma LastReaderLeavesOthers(systemd: Systemd, requests: seq<Request>, m: nat)
    requires requests != []
    ensures var k := |requests| - 1;
            var begun := InTurn(requests[..k]) + [Begin(requests[k].service)];
            var s := Run(systemd, begun + Repeated(Advance(k, requests[k].reply, requests[k].inspection), m));
            |s.readers| == |requests| && forall j | 0 <= j < k :: s.readers[j].Returned?
  {
    hide Advanced, AdvanceTimes, Repeated, InTurn, Run;
    var k := |requests| - 1;
    var r, init := requests[k], InTurn(requests[..k]);
    InTurnIsSequential(systemd, requests[..k]);
    RunStep(systemd, init, Begin(r.service));
    RunRepeated(systemd, init + [Begin(r.service)], k, m, r);
    OthersWait(systemd, Run(systemd, init + [Begin(r.service)]), k, m, r);
  }

  /** While one reader after the other runs, all but the last have returned. */
  lemma {:induction false} InTurnLeavesOne(systemd: Systemd, requests: seq<Request>, n: nat)
    requires n <= |InTurn(requests)|
    ensures var readers := Run(systemd, InTurn(requests)[..n]).readers;
            forall j | 0 <= j < |readers| - 1 :: readers[j].Returned?
    decreases |requests|
  {
    hide Repeated, InTurn;
    if requests == [] {
      assert InTurn(requests) == [] by { NobodyInTurn(); }
    } else {
      var k := |requests| - 1;
      var init := InTurn(requests[..k]);
      LastReaderRuns(requests, 0);
      if n <= |init| {
        assert InTurn(requests)[..n] == init[..n];
        InTurnLeavesOne(systemd, requests[..k], n);
      } else {
        var m := n - |init| - 1;
        LastReaderRuns(requests, m);
        LastReaderLeavesOthers(systemd, requests, m);
      }
    }
  }

  lemma NobodyInTurn()
    ensures InTurn([]) == []
  {
  }

  /** In particular readers that run one after the other ask for each service at most once. */
  lemma InTurnAsksOnce(systemd: Systemd, requests: seq<Request>, service: string)
    requires systemd.commandErr.None?
    ensures Shown(Run(systemd, InTurn(requests)), service) <= 1
  {
    hide InTurn, Run, Shown;
    var actions := InTurn(requests);
    forall n, i, j | 0 <= n <= |actions| && 0 <= i < j < |Run(systemd, actions[..n]).readers|
      ensures !(UnderWay(Run(systemd, actions[..n]).readers[i], service) &&
                UnderWay(Run(systemd, actions[..n]).readers[j], service))
    {
      InTurnLeavesOne(systemd, requests, n);
    }
    TakingTurnsAsksOnce(systemd, actions, service);
  }
}
