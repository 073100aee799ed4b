/** The check engine: validation, scheduling and the run loop. */
module Engine {
  import opened ByteOrder
  import opened Graph
  import opened Cycles
  import opened Schedule
  import opened CheckResults

  /** What the engine sees of a check. */
  datatype Check = Check(id: string, domain: string, prerequisites: seq<string>)

  /** How an attempted check ends; the environment chooses. */
  datatype Outcome = Returned(result: CheckResult) | Panicked(recovered: string) | DeadlineExceeded | Cancelled

  datatype ValidationError =
    | EmptyID
    | DuplicateID(id: string)
    | MissingPrerequisite(id: string, prerequisite: string)
    | PrerequisiteCycle(walk: seq<string>)

  datatype Result<+T> = Ok(value: T) | Err(error: ValidationError)

  function Ids(checks: seq<Check>): (ids: seq<string>)
    ensures |ids| == |checks| && forall i | 0 <= i < |checks| :: ids[i] == checks[i].id
  {
    seq(|checks|, i requires 0 <= i < |checks| => checks[i].id)
  }

  function Registry(checks: seq<Check>): map<string, Check> {
    if checks == [] then map[]
    else
      var last := checks[|checks| - 1];
      Registry(checks[..|checks| - 1])[last.id := last]
  }

  function PrerequisiteGraph(byID: map<string, Check>): Graph {
    map id | id in byID :: byID[id].prerequisites
  }

  /** The graphs Run agrees to run. */
  ghost predicate Accepted(checks: seq<Check>) {
    var g := PrerequisiteGraph(Registry(checks));
    && (forall c | c in checks :: c.id != "")
    && NoDuplicates(Ids(checks))
    && Closed(g)
    && Acyclic(g)
  }

  /** The error names something that is really wrong with the checks. */
  ghost predicate Justified(checks: seq<Check>, error: ValidationError) {
    match error
    case EmptyID => exists c | c in checks :: c.id == ""
    case DuplicateID(id) => exists i, j | 0 <= i < j < |checks| :: checks[i].id == checks[j].id == id
    case MissingPrerequisite(id, p) => p !in Ids(checks) && exists c | c in checks :: c.id == id && p in c.prerequisites
    case PrerequisiteCycle(walk) => ClosesCycle(PrerequisiteGraph(Registry(checks)), walk)
  }

  function Lookup(byID: map<string, Check>, ids: seq<string>): seq<Check>
    requires forall id | id in ids :: id in byID
  {
    seq(|ids|, i requires 0 <= i < |ids| => byID[ids[i]])
  }

  lemma LookupIds(byID: map<string, Check>, ids: seq<string>)
    requires forall id | id in byID :: byID[id].id == id
    requires forall id | id in ids :: id in byID
    ensures Ids(Lookup(byID, ids)) == ids
    ensures forall c | c in Lookup(byID, ids) :: c.id in byID && byID[c.id] == c
  {
  }

  /** The post-order of validateChecks from the sorted ids. */
  function ScheduledIds(checks: seq<Check>): (order: seq<string>)
    requires Accepted(checks)
    ensures Topological(PrerequisiteGraph(Registry(checks)), order)
    ensures Covers(PrerequisiteGraph(Registry(checks)), order)
  {
    var g, ids := PrerequisiteGraph(Registry(checks)), SortStrings(Ids(checks));
    RegistryHolds(checks);
    SameElements(ids, Ids(checks));
    PostOrderIsTopological(g, ids);
    PostOrder(g, ids)
  }

  /** The checks in the order Run takes them. */
  function Scheduled(checks: seq<Check>): seq<Check>
    requires Accepted(checks)
  {
    Lookup(Registry(checks), ScheduledIds(checks))
  }

  lemma {:induction false} RegistryHolds(checks: seq<Check>)
    ensures forall id :: id in Registry(checks) <==> id in Ids(checks)
    ensures forall id | id in Registry(checks) :: Registry(checks)[id].id == id && Registry(checks)[id] in checks
    ensures NoDuplicates(Ids(checks)) ==> forall c | c in checks :: Registry(checks)[c.id] == c
  {
    if checks != [] {
      var n := |checks| - 1;
      var init := checks[..n];
      RegistryHolds(init);
      assert checks == init + [checks[n]];
      assert Ids(checks) == Ids(init) + [checks[n].id];
      assert NoDuplicates(Ids(checks)) ==> NoDuplicates(Ids(init)) by {
        assert forall i | 0 <= i < n :: Ids(init)[i] == Ids(checks)[i];
      }
      if NoDuplicates(Ids(checks)) {
        forall c | c in init ensures c.id != checks[n].id {
          var k :| 0 <= k < n && init[k] == c;
          assert Ids(checks)[k] == c.id && Ids(checks)[n] == checks[n].id;
        }
      }
    }
  }

  /** The closure variables of validateChecks' scheduling visit. */
  class Scheduler {
    const byID: map<string, Check>
    var visited: set<string>
    var ordered: seq<Check>

    ghost predicate Valid()
      reads this
    {
      && Closed(PrerequisiteGraph(byID))
      && (forall id | id in byID :: byID[id].id == id)
      && (forall c | c in ordered :: c.id in byID && byID[c.id] == c)
    }

    function State(): Sched
      reads this
    {
      Sched(visited, Ids(ordered))
    }

    constructor (byID: map<string, Check>)
      requires Closed(PrerequisiteGraph(byID)) && forall id | id in byID :: byID[id].id == id
      ensures Valid() && this.byID == byID && State() == Sched({}, [])
    {
      this.byID := byID;
      visited := {};
      ordered := [];
    }

    method Visit(id: string)
      requires Valid() && id in byID
      modifies this
      ensures Valid()
      ensures State() == Schedule.Visit(PrerequisiteGraph(byID), id, old(State()))
      decreases byID.Keys - visited
    {
      if id in visited { return; }
      visited := visited + {id};
      ghost var g := PrerequisiteGraph(byID);
      ghost var inside := State();
      var prerequisites := byID[id].prerequisites;
      assert prerequisites == g[id];
      var i := 0;
      while i < |prerequisites|
        invariant 0 <= i <= |prerequisites|
        invariant Valid() && inside.visited <= visited
        invariant VisitAll(g, prerequisites[i..], State()) == VisitAll(g, prerequisites, inside)
      {
        assert prerequisites[i..][1..] == prerequisites[i + 1..];
        assert prerequisites[i] in g[id] && prerequisites[i] in g;
        Visit(prerequisites[i]);
        i := i + 1;
      }
      assert Ids(ordered + [byID[id]]) == Ids(ordered) + [id];
      ordered := ordered + [byID[id]];
    }
  }

  method ValidateChecks(checks: seq<Check>) returns (r: Result<seq<Check>>)
    ensures r.Ok? <==> Accepted(checks)
    ensures r.Ok? ==> r.value == Scheduled(checks)
    ensures r.Err? ==> Justified(checks, r.error)
  {
    RegistryHolds(checks);
    var indexed := IndexChecks(checks);
    if indexed.Err? {
      return Err(indexed.error);
    }
    var (byID, ids) := indexed.value;
    SortStringsIgnoresOrder(ids, ids);
    SameElements(SortStrings(ids), ids);

    ids := SortStrings(ids);
    var missing := FindMissing(byID, ids);
    if missing.Err? {
      return Err(missing.error);
    }
    var cycle := DetectCycles(PrerequisiteGraph(byID), ids);
    if cycle.Cycle? {
      return Err(PrerequisiteCycle(cycle.walk));
    }
    var ordered := OrderChecks(byID, ids);
    return Ok(ordered);
  }

  /** The indexing loop of validateChecks. */
  method IndexChecks(checks: seq<Check>) returns (r: Result<(map<string, Check>, seq<string>)>)
    ensures r.Ok? <==> (forall c | c in checks :: c.id != "") && NoDuplicates(Ids(checks))
    ensures r.Ok? ==> r.value == (Registry(checks), Ids(checks))
    ensures r.Err? ==> (r.error.EmptyID? || r.error.DuplicateID?) && Justified(checks, r.error)
  {
    var byID: map<string, Check> := map[];
    var ids: seq<string> := [];
    var i := 0;
    while i < |checks|
      invariant 0 <= i <= |checks|
      invariant byID == Registry(checks[..i]) && ids == Ids(checks[..i])
      invariant forall id :: id in byID <==> id in ids
      invariant forall k | 0 <= k < i :: checks[k].id != ""
      invariant NoDuplicates(ids)
    {
      var id := checks[i].id;
      if id == "" {
        return Err(EmptyID);
      }
      if id in byID {
        var k :| 0 <= k < i && ids[k] == id;
        assert Ids(checks)[k] == Ids(checks)[i];
        return Err(DuplicateID(id));
      }
      assert checks[..i + 1][..i] == checks[..i];
      assert Ids(checks[..i + 1]) == ids + [id];
      byID := byID[id := checks[i]];
      ids := ids + [id];
      i := i + 1;
    }
    assert checks[..i] == checks;
    return Ok((byID, ids));
  }

  /** The prerequisite loop of validateChecks. */
  method FindMissing(byID: map<string, Check>, ids: seq<string>) returns (r: Result<()>)
    requires forall id :: id in ids <==> id in byID
    ensures r.Ok? <==> Closed(PrerequisiteGraph(byID))
    ensures r.Err? ==> r.error.MissingPrerequisite? && r.error.id in byID &&
                       r.error.prerequisite in byID[r.error.id].prerequisites && r.error.prerequisite !in byID
  {
    ghost var g := PrerequisiteGraph(byID);
    var i := 0;
    while i < |ids|
      invariant 0 <= i <= |ids|
      invariant forall k, p | 0 <= k < i && p in byID[ids[k]].prerequisites :: p in byID
    {
      var prerequisites := byID[ids[i]].prerequisites;
      var j := 0;
      while j < |prerequisites|
        invariant 0 <= j <= |prerequisites|
        invariant forall k | 0 <= k < j :: prerequisites[k] in byID
      {
        if prerequisites[j] !in byID {
          assert ids[i] in g && prerequisites[j] in g[ids[i]] && prerequisites[j] !in g;
          return Err(MissingPrerequisite(ids[i], prerequisites[j]));
        }
        j := j + 1;
      }
      i := i + 1;
    }
    return Ok(());
  }

  /** The final loop of validateChecks. */
  method OrderChecks(byID: map<string, Check>, ids: seq<string>) returns (ordered: seq<Check>)
    requires Closed(PrerequisiteGraph(byID)) && Acyclic(PrerequisiteGraph(byID))
    requires forall id | id in byID :: byID[id].id == id
    requires Covers(PrerequisiteGraph(byID), ids)
    ensures Topological(PrerequisiteGraph(byID), PostOrder(PrerequisiteGraph(byID), ids))
    ensures ordered == Lookup(byID, PostOrder(PrerequisiteGraph(byID), ids))
  {
    ghost var g := PrerequisiteGraph(byID);
    PostOrderIsTopological(g, ids);
    var scheduler := new Scheduler(byID);
    var i := 0;
    while i < |ids|
      invariant 0 <= i <= |ids|
      invariant scheduler.Valid() && scheduler.byID == byID
      invariant VisitAll(g, ids[i..], scheduler.State()) == VisitAll(g, ids, Sched({}, []))
    {
      assert ids[i..][1..] == ids[i + 1..];
      assert ids[i] in ids && ids[i] in g;
      scheduler.Visit(ids[i]);
      i := i + 1;
    }
    ordered := scheduler.ordered;
    assert Ids(ordered) == PostOrder(g, ids);
    assert ordered == Lookup(byID, Ids(ordered));
  }
}
