/** The order among checks that do not wait for each other: what is needed by an earlier id comes first. */
module ScheduleOrder {
  import opened ByteOrder
  import opened Graph
  import opened Schedule
  import Engine
  import RunTheorems

  /** The id itself, or a direct or indirect prerequisite of it. */
  ghost predicate Needs(g: Graph, a: string, b: string) {
    a == b || Reaches(g, a, b)
  }

  lemma {:induction false} VisitAllSplits(g: Graph, a: seq<string>, b: seq<string>, s: Sched)
    requires Closed(g) && forall id | id in a + b :: id in g
    ensures (forall id | id in a :: id in g) && forall id | id in b :: id in g
    ensures VisitAll(g, a + b, s) == VisitAll(g, b, VisitAll(g, a, s))
    decreases |a|
  {
    assert forall id :: id in a + b <==> id in a || id in b;
    if a == [] {
      assert a + b == b;
    } else {
      assert (a + b)[1..] == a[1..] + b;
      VisitAllSplits(g, a[1..], b, Visit(g, a[0], s));
    }
  }

  /** A visit only appends, and only what its id needs. */
  lemma {:induction false} VisitAppends(g: Graph, id: string, s: Sched)
    requires Closed(g) && id in g
    ensures var r := Visit(g, id, s).ordered;
            && |s.ordered| <= |r| && r[..|s.ordered|] == s.ordered
            && forall x | x in r[|s.ordered|..] :: Needs(g, id, x)
    decreases g.Keys - s.visited, 0
  {
    hide Reaches;
    if id !in s.visited {
      var inside := s.(visited := s.visited + {id});
      VisitAllAppends(g, g[id], inside);
      var below := VisitAll(g, g[id], inside).ordered;
      var n := |s.ordered|;
      assert Visit(g, id, s).ordered == below + [id];
      assert (below + [id])[n..] == below[n..] + [id];
      forall x | x in below[n..] ensures Needs(g, id, x) {
        var p :| p in g[id] && Needs(g, p, x);
        PrerequisiteIsReached(g, id, p);
        if p != x { PrerequisiteThenReaches(g, id, p, x); }
      }
    }
  }

  lemma {:induction false} VisitAllAppends(g: Graph, ids: seq<string>, s: Sched)
    requires Closed(g) && forall id | id in ids :: id in g
    ensures var r := VisitAll(g, ids, s).ordered;
            && |s.ordered| <= |r| && r[..|s.ordered|] == s.ordered
            && forall x | x in r[|s.ordered|..] :: exists id :: id in ids && Needs(g, id, x)
    decreases g.Keys - s.visited, 1 + |ids|
  {
    hide Reaches, Needs;
    if ids != [] {
      var first := Visit(g, ids[0], s);
      VisitAppends(g, ids[0], s);
      VisitAllAppends(g, ids[1..], first);
      AppendedTwice(g, ids, s.ordered, first.ordered, VisitAll(g, ids, s).ordered);
    }
  }

  lemma AppendedTwice(g: Graph, ids: seq<string>, a: seq<string>, b: seq<string>, c: seq<string>)
    requires ids != [] && |a| <= |b| <= |c| && b[..|a|] == a && c[..|b|] == b
    requires forall x | x in b[|a|..] :: Needs(g, ids[0], x)
    requires forall x | x in c[|b|..] :: exists id :: id in ids[1..] && Needs(g, id, x)
    ensures c[..|a|] == a
    ensures forall x | x in c[|a|..] :: exists id :: id in ids && Needs(g, id, x)
  {
    hide Needs;
    assert c[|a|..] == b[|a|..] + c[|b|..];
    forall x | x in c[|a|..] ensures exists id :: id in ids && Needs(g, id, x) {
      if x in b[|a|..] {
        assert ids[0] in ids;
      } else {
        var id :| id in ids[1..] && Needs(g, id, x);
        assert id in ids;
      }
    }
  }

  lemma {:induction false} NeededIsPlaced(g: Graph, order: seq<string>, a: string, b: string)
    requires Topological(g, order) && a in order && Needs(g, a, b)
    ensures b in order
  {
    if a != b {
      var w :| Walk(g, w) && |w| >= 2 && w[0] == a && w[|w| - 1] == b;
      WalkStaysPlaced(g, order, w);
    }
  }

  lemma {:induction false} WalkStaysPlaced(g: Graph, order: seq<string>, w: seq<string>)
    requires Topological(g, order) && Walk(g, w) && w[0] in order
    ensures w[|w| - 1] in order
    decreases |w|
  {
    if |w| >= 2 {
      assert w[1] in g[w[0]];
      var i :| 0 <= i < |order| && order[i] == w[0];
      assert w[1] in order[..i] && w[1] in order;
      WalkStaysPlaced(g, order, w[1..]);
    }
  }

  /** What the first `n` roots have placed is a beginning of the order: these roots, and what they need. */
  lemma FrontPlaces(g: Graph, ids: seq<string>, n: nat) returns (placed: seq<string>)
    requires Closed(g) && Acyclic(g) && Covers(g, ids) && n <= |ids|
    ensures var order := PostOrder(g, ids);
            && |placed| <= |order| && order[..|placed|] == placed
            && Topological(g, placed) && (forall id | id in ids[..n] :: id in placed)
            && forall x | x in placed :: exists id :: id in ids[..n] && Needs(g, id, x)
  {
    hide Needs, Reaches, Acyclic;
    var start := Sched({}, []);
    assert ids == ids[..n] + ids[n..];
    VisitAllSplits(g, ids[..n], ids[n..], start);
    var s := VisitAll(g, ids[..n], start);
    placed := s.ordered;
    PlacedSoFar(g, ids[..n]);
    VisitAllAppends(g, ids[n..], s);
    VisitAllAppends(g, ids[..n], start);
    assert placed[0..] == placed;
  }

  /** From sorted roots: whoever needs a later id, something that needs the earlier one is not greater than it. */
  lemma EarlierIsNeededEarlier(g: Graph, ids: seq<string>, i: nat, j: nat, r: string) returns (q: string)
    requires Closed(g) && Acyclic(g) && Covers(g, ids) && Sorted(ids)
    requires i < j < |PostOrder(g, ids)| && r in g && Needs(g, r, PostOrder(g, ids)[j])
    ensures q in g && Needs(g, q, PostOrder(g, ids)[i]) && !Less(r, q)
  {
    hide Needs, Acyclic, Less, Sorted, PostOrder, Closed;
    var m :| 0 <= m < |ids| && ids[m] == r;
    var placed := FrontPlaces(g, ids, m + 1);
    PostOrderIsTopological(g, ids);
    q := NeededInFront(g, PostOrder(g, ids), placed, ids, m, i, j);
    FrontIsNotGreater(ids, m, q);
  }

  lemma NeededInFront(g: Graph, order: seq<string>, placed: seq<string>, ids: seq<string>, m: nat, i: nat, j: nat)
    returns (q: string)
    requires m < |ids| && i < j < |order| && NoDuplicates(order) && Needs(g, ids[m], order[j])
    requires |placed| <= |order| && order[..|placed|] == placed && Topological(g, placed)
    requires forall id | id in ids[..m + 1] :: id in placed
    requires forall x | x in placed :: exists id :: id in ids[..m + 1] && Needs(g, id, x)
    ensures q in ids[..m + 1] && Needs(g, q, order[i])
  {
    hide Needs, Topological, NoDuplicates;
    assert ids[..m + 1][m] == ids[m];
    NeededIsPlaced(g, placed, ids[m], order[j]);
    SamePlace(order, placed, j);
    assert placed[i] in placed;
    q :| q in ids[..m + 1] && Needs(g, q, placed[i]);
  }

  lemma FrontIsNotGreater(ids: seq<string>, m: nat, q: string)
    requires Sorted(ids) && m < |ids| && q in ids[..m + 1]
    ensures q in ids && !Less(ids[m], q)
  {
    hide Less, Sorted;
    var k :| 0 <= k < m + 1 && ids[..m + 1][k] == q;
    assert ids[k] == q;
    NotGreater(ids, k, m);
  }

  lemma PlacedSoFar(g: Graph, front: seq<string>)
    requires Closed(g) && Acyclic(g) && forall id | id in front :: id in g
    ensures var s := VisitAll(g, front, Sched({}, []));
            Topological(g, s.ordered) && forall id | id in front :: id in s.ordered
  {
    hide Reaches, Acyclic;
    VisitAllPlaces(g, front, Sched({}, []));
  }

  lemma SamePlace(order: seq<string>, front: seq<string>, j: nat)
    requires NoDuplicates(order) && |front| <= |order| && order[..|front|] == front && j < |order| && order[j] in front
    ensures j < |front| && forall i | 0 <= i <= j :: order[i] == front[i]
  {
    var k :| 0 <= k < |front| && front[k] == order[j];
    assert order[k] == front[k];
    assert k == j;
  }

  lemma NotGreater(ids: seq<string>, k: nat, m: nat)
    requires Sorted(ids) && k <= m < |ids|
    ensures !Less(ids[m], ids[k])
  {
    if k == m { LessIsAsymmetric(ids[m], ids[m]); } else { assert !Less(Self(ids[m]), Self(ids[k])); }
  }

  /** The schedule of accepted checks: a check comes before another only if it is needed by some check no greater, in
      byte order, than any check that needs the other. Checks that wait for nothing and that nothing waits for run in
      byte order. */
  lemma ScheduleFollowsByteOrder(checks: seq<Engine.Check>, i: nat, j: nat, r: string) returns (q: string)
    requires Engine.Accepted(checks) && i < j < |Engine.ScheduledIds(checks)|
    requires var g := RunTheorems.GraphOf(checks); r in g && Needs(g, r, Engine.ScheduledIds(checks)[j])
    ensures var g := RunTheorems.GraphOf(checks);
            q in g && Needs(g, q, Engine.ScheduledIds(checks)[i]) && !Less(r, q)
  {
    hide Needs, Less;
    var g, ids := RunTheorems.GraphOf(checks), SortStrings(Engine.Ids(checks));
    Engine.RegistryHolds(checks);
    SameElements(ids, Engine.Ids(checks));
    SortByIsSorted(Engine.Ids(checks), Self);
    q := EarlierIsNeededEarlier(g, ids, i, j, r);
  }
}
