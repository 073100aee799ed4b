/** Prerequisite graphs: every check id with the list of ids it waits for. */
module Graph {
  import opened ByteOrder

  type Graph = map<string, seq<string>>

  /** Every prerequisite named is itself a node. */
  ghost predicate Closed(g: Graph) {
    forall id, p | id in g && p in g[id] :: p in g
  }

  /** A nonempty path that follows prerequisites. */
  ghost predicate Walk(g: Graph, w: seq<string>) {
    && w != []
    && (forall i | 0 <= i < |w| :: w[i] in g)
    && (forall i | 0 <= i < |w| - 1 :: w[i + 1] in g[w[i]])
  }

  /** `b` is a direct or indirect prerequisite of `a`. */
  ghost predicate Reaches(g: Graph, a: string, b: string) {
    exists w :: Walk(g, w) && |w| >= 2 && w[0] == a && w[|w| - 1] == b
  }

  ghost predicate Acyclic(g: Graph) {
    forall id :: !Reaches(g, id, id)
  }

  /** A walk whose last id already occurs in it. */
  ghost predicate ClosesCycle(g: Graph, w: seq<string>) {
    Walk(g, w) && |w| >= 2 && w[|w| - 1] in w[..|w| - 1]
  }

  /** Every id of `order` comes once and strictly after all its prerequisites. */
  ghost predicate Topological(g: Graph, order: seq<string>) {
    && NoDuplicates(order)
    && (forall i | 0 <= i < |order| :: order[i] in g)
    && (forall i, p | 0 <= i < |order| && p in g[order[i]] :: p in order[..i])
  }

  ghost predicate Covers(g: Graph, ids: seq<string>) {
    forall id :: id in ids <==> id in g
  }

  lemma PrerequisiteIsReached(g: Graph, id: string, p: string)
    requires Closed(g) && id in g && p in g[id]
    ensures Reaches(g, id, p)
  {
    assert Walk(g, [id, p]);
  }

  lemma ReachesThenPrerequisite(g: Graph, a: string, b: string, p: string)
    requires Closed(g) && Reaches(g, a, b) && p in g[b]
    ensures Reaches(g, a, p)
  {
    var w :| Walk(g, w) && |w| >= 2 && w[0] == a && w[|w| - 1] == b;
    assert Walk(g, w + [p]);
  }

  lemma PrerequisiteThenReaches(g: Graph, a: string, b: string, p: string)
    requires Closed(g) && a in g && b in g[a] && Reaches(g, b, p)
    ensures Reaches(g, a, p)
  {
    var w :| Walk(g, w) && |w| >= 2 && w[0] == b && w[|w| - 1] == p;
    assert Walk(g, [a] + w);
  }

  lemma {:induction false} WalkDescends(g: Graph, order: seq<string>, w: seq<string>, i: nat, j: nat)
    requires Topological(g, order) && Walk(g, w) && |w| >= 2
    requires i < |order| && j < |order| && order[i] == w[0] && order[j] == w[|w| - 1]
    ensures j < i
    decreases |w|
  {
    assert w[1] in g[w[0]];
    var k :| 0 <= k < |order[..i]| && order[..i][k] == w[1];
    if |w| > 2 {
      WalkDescends(g, order, w[1..], k, j);
    }
  }

  lemma TopologicalExtends(g: Graph, order: seq<string>, id: string)
    requires Topological(g, order) && id in g && id !in order
    requires forall p | p in g[id] :: p in order
    ensures Topological(g, order + [id])
  {
    var after := order + [id];
    forall i, p | 0 <= i < |after| && p in g[after[i]] ensures p in after[..i] {
      if i == |order| {
        assert after[..i] == order;
      } else {
        assert after[..i] == order[..i];
      }
    }
  }

  /** A graph that can be put in topological order has no cycle. */
  lemma TopologicalMeansAcyclic(g: Graph, order: seq<string>)
    requires Topological(g, order) && Covers(g, order)
    ensures Acyclic(g)
  {
    forall id ensures !Reaches(g, id, id) {
      forall w | Walk(g, w) && |w| >= 2 && w[0] == id && w[|w| - 1] == id ensures false {
        var i :| 0 <= i < |order| && order[i] == id;
        WalkDescends(g, order, w, i, i);
      }
    }
  }

  lemma ClosedWalkMeansCyclic(g: Graph, w: seq<string>)
    requires ClosesCycle(g, w)
    ensures !Acyclic(g)
  {
    var k :| 0 <= k < |w| - 1 && w[k] == w[|w| - 1];
    assert Walk(g, w[k..]);
    assert Reaches(g, w[k], w[k]);
  }

  lemma {:induction false} RankFallsAlongWalk(g: Graph, rank: map<string, nat>, w: seq<string>)
    requires forall id | id in g :: id in rank
    requires forall id, p | id in g && p in g[id] :: p in g && rank[p] < rank[id]
    requires Walk(g, w) && |w| >= 2
    ensures rank[w[|w| - 1]] < rank[w[0]]
    decreases |w|
  {
    assert w[1] in g[w[0]];
    if |w| > 2 {
      RankFallsAlongWalk(g, rank, w[1..]);
    }
  }

  /** A graph whose prerequisites always rank lower has no cycle. */
  lemma RankedIsAcyclic(g: Graph, rank: map<string, nat>)
    requires forall id | id in g :: id in rank
    requires forall id, p | id in g && p in g[id] :: p in g && rank[p] < rank[id]
    ensures Closed(g) && Acyclic(g)
  {
    forall id ensures !Reaches(g, id, id) {
      forall w | Walk(g, w) && |w| >= 2 && w[0] == id && w[|w| - 1] == id ensures false {
        RankFallsAlongWalk(g, rank, w);
      }
    }
  }
}
