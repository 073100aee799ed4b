/** The depth-first post-order of validateChecks, as a function of the graph and the sorted ids. */
module Schedule {
  import opened ByteOrder
  import opened Graph

  /** The closure variables of the scheduling visit. */
  datatype Sched = Sched(visited: set<string>, ordered: seq<string>)

  function Visit(g: Graph, id: string, s: Sched): (r: Sched)
    requires Closed(g) && id in g
    ensures s.visited <= r.visited
    decreases g.Keys - s.visited, 0
  {
    if id in s.visited then s
    else
      var below := VisitAll(g, g[id], s.(visited := s.visited + {id}));
      below.(ordered := below.ordered + [id])
  }

  function VisitAll(g: Graph, ids: seq<string>, s: Sched): (r: Sched)
    requires Closed(g) && forall id | id in ids :: id in g
    ensures s.visited <= r.visited
    decreases g.Keys - s.visited, 1 + |ids|
  {
    if ids == [] then s
    else VisitAll(g, ids[1..], Visit(g, ids[0], s))
  }

  /** The order validateChecks hands to Run. */
  function PostOrder(g: Graph, ids: seq<string>): seq<string>
    requires Closed(g) && forall id | id in ids :: id in g
  {
    VisitAll(g, ids, Sched({}, [])).ordered
  }

  /** Visited but not yet placed: on the recursion stack. */
  ghost predicate Open(s: Sched, id: string) {
    id in s.visited && id !in s.ordered
  }

  ghost predicate Progress(g: Graph, s: Sched) {
    && Topological(g, s.ordered)
    && (forall id | id in s.ordered :: id in s.visited)
  }

  /** What a visit that started in `s` and ended in `r` has done. */
  ghost predicate Advanced(g: Graph, s: Sched, r: Sched) {
    && Progress(g, r)
    && (forall id | id in s.ordered :: id in r.ordered)
    && (forall id :: Open(r, id) <==> Open(s, id))
  }

  lemma {:induction false} VisitPlaces(g: Graph, id: string, s: Sched)
    requires Closed(g) && Acyclic(g) && Progress(g, s) && id in g
    requires forall a | Open(s, a) :: Reaches(g, a, id)
    ensures Advanced(g, s, Visit(g, id, s)) && id in Visit(g, id, s).ordered
    decreases g.Keys - s.visited, 0
  {
    if id !in s.visited {
      var inside := s.(visited := s.visited + {id});
      forall a, p | Open(inside, a) && p in g[id] ensures Reaches(g, a, p) {
        if a == id {
          PrerequisiteIsReached(g, id, p);
        } else {
          ReachesThenPrerequisite(g, a, id, p);
        }
      }
      VisitAllPlaces(g, g[id], inside);
      var below := VisitAll(g, g[id], inside);
      assert Open(inside, id) && Open(below, id);
      TopologicalExtends(g, below.ordered, id);
      var r := Visit(g, id, s);
      assert id !in s.ordered;
      forall x ensures Open(r, x) <==> Open(s, x) {
        assert Open(below, x) <==> Open(inside, x);
      }
    } else {
      assert !Reaches(g, id, id);
      assert !Open(s, id);
    }
  }

  lemma {:induction false} VisitAllPlaces(g: Graph, ids: seq<string>, s: Sched)
    requires Closed(g) && Acyclic(g) && Progress(g, s)
    requires forall id | id in ids :: id in g
    requires forall a, id | Open(s, a) && id in ids :: Reaches(g, a, id)
    ensures Advanced(g, s, VisitAll(g, ids, s))
    ensures forall id | id in ids :: id in VisitAll(g, ids, s).ordered
    decreases g.Keys - s.visited, 1 + |ids|
  {
    if ids != [] {
      VisitPlaces(g, ids[0], s);
      VisitAllPlaces(g, ids[1..], Visit(g, ids[0], s));
    }
  }

  /** On an acyclic graph the post-order lists every id once, each after all its prerequisites. */
  lemma PostOrderIsTopological(g: Graph, ids: seq<string>)
    requires Closed(g) && Acyclic(g) && Covers(g, ids)
    ensures Topological(g, PostOrder(g, ids)) && Covers(g, PostOrder(g, ids))
  {
    VisitAllPlaces(g, ids, Sched({}, []));
  }
}
