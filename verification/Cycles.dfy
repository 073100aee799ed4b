/** detectCycles: three-colour depth-first search over the prerequisite graph. */
module Cycles {
  import opened ByteOrder
  import opened Graph

  datatype Color = Unknown | Active | Done

  datatype CycleError = NoCycle | Cycle(walk: seq<string>)

  function ColorOf(state: map<string, Color>, id: string): Color {
    if id in state then state[id] else Unknown
  }

  /** The colours, the stack and the finishing order fit together: the active ids are the stack, which is a
      walk, and the done ids come after all their prerequisites. */
  ghost predicate Coherent(g: Graph, state: map<string, Color>, stack: seq<string>, finished: seq<string>) {
    && state.Keys <= g.Keys
    && (forall id | id in state :: state[id] == (if id in stack then Active else Done))
    && (forall id | id in stack :: id in state)
    && (forall id :: id in finished <==> id in state && id !in stack)
    && (stack != [] ==> Walk(g, stack))
    && NoDuplicates(stack)
    && Topological(g, finished)
  }

  lemma PushKeepsCoherent(g: Graph, state: map<string, Color>, stack: seq<string>, finished: seq<string>, id: string)
    requires Closed(g) && Coherent(g, state, stack, finished) && id in g && id !in state
    requires stack != [] ==> id in g[stack[|stack| - 1]]
    ensures Coherent(g, state[id := Active], stack + [id], finished)
  {
  }

  lemma ActiveClosesCycle(g: Graph, state: map<string, Color>, stack: seq<string>, finished: seq<string>, id: string)
    requires Closed(g) && Coherent(g, state, stack, finished) && ColorOf(state, id) == Active
    requires stack != [] ==> id in g[stack[|stack| - 1]]
    ensures ClosesCycle(g, stack + [id])
  {
    var cycle := stack + [id];
    assert cycle[..|cycle| - 1] == stack;
  }

  lemma PopKeepsCoherent(g: Graph, state: map<string, Color>, stack: seq<string>, finished: seq<string>, id: string)
    requires Coherent(g, state, stack + [id], finished)
    requires forall p | p in g[id] :: p in finished
    ensures Coherent(g, state[id := Done], stack, finished + [id])
  {
    assert (stack + [id])[|stack|] == id;
    assert forall i | 0 <= i < |stack| :: stack[i] == (stack + [id])[i];
    TopologicalExtends(g, finished, id);
  }

  /** The closure variables of detectCycles: the colour map and the stack of active ids. */
  class CycleDetector {
    const graph: Graph
    var state: map<string, Color>
    var stack: seq<string>
    /** Ids in the order they turned Done. */
    ghost var finished: seq<string>

    ghost predicate Valid()
      reads this
    {
      Closed(graph) && Coherent(graph, state, stack, finished)
    }

    constructor (graph: Graph)
      requires Closed(graph)
      ensures Valid() && this.graph == graph && state == map[] && stack == [] && finished == []
    {
      this.graph := graph;
      state := map[];
      stack := [];
      finished := [];
    }

    /** Colours `id` and everything below it Done, or reports a walk that closes a cycle. Each call turns an
        unknown id active, which is why the recursion ends. */
    method Visit(id: string) returns (err: CycleError)
      requires Valid() && id in graph
      requires stack != [] ==> id in graph[stack[|stack| - 1]]
      modifies this
      ensures err.NoCycle? ==> Valid() && stack == old(stack) && id in finished
      ensures err.NoCycle? ==> (forall x | x in old(finished) :: x in finished) && old(state.Keys) <= state.Keys
      ensures err.Cycle? ==> ClosesCycle(graph, err.walk)
      decreases graph.Keys - state.Keys, 0
    {
      match ColorOf(state, id) {
        case Done => return NoCycle;
        case Active =>
          ActiveClosesCycle(graph, state, stack, finished, id);
          return Cycle(stack + [id]);
        case Unknown =>
      }
      ghost var below := stack;
      PushKeepsCoherent(graph, state, below, finished, id);
      state := state[id := Active];
      stack := stack + [id];
      err := VisitPrerequisites(id);
      if err.Cycle? { return; }
      assert stack == below + [id];
      PopKeepsCoherent(graph, state, below, finished, id);
      stack := stack[..|stack| - 1];
      assert stack == below;
      state := state[id := Done];
      finished := finished + [id];
      return NoCycle;
    }

    /** The loop of visit over the prerequisites of the id on top of the stack. */
    method VisitPrerequisites(id: string) returns (err: CycleError)
      requires Valid() && stack != [] && id == stack[|stack| - 1]
      modifies this
      ensures err.NoCycle? ==> Valid() && stack == old(stack)
      ensures err.NoCycle? ==> forall p | p in graph[id] :: p in finished
      ensures err.NoCycle? ==> (forall x | x in old(finished) :: x in finished) && old(state.Keys) <= state.Keys
      ensures err.Cycle? ==> ClosesCycle(graph, err.walk)
      decreases graph.Keys - state.Keys, 1
    {
      var prerequisites := graph[id];
      var i := 0;
      while i < |prerequisites|
        invariant 0 <= i <= |prerequisites|
        invariant Valid() && stack == old(stack)
        invariant (forall x | x in old(finished) :: x in finished) && old(state.Keys) <= state.Keys
        invariant forall k | 0 <= k < i :: prerequisites[k] in finished
      {
        err := Visit(prerequisites[i]);
        if err.Cycle? { return; }
        i := i + 1;
      }
      return NoCycle;
    }
  }

  /** Returns an error exactly when some check waits, through its prerequisites, for itself. */
  method DetectCycles(graph: Graph, ids: seq<string>) returns (err: CycleError)
    requires Closed(graph) && Covers(graph, ids)
    ensures err.NoCycle? <==> Acyclic(graph)
    ensures err.Cycle? ==> ClosesCycle(graph, err.walk)
  {
    var detector := new CycleDetector(graph);
    var i := 0;
    while i < |ids|
      invariant 0 <= i <= |ids|
      invariant detector.Valid() && detector.graph == graph && detector.stack == []
      invariant forall k | 0 <= k < i :: ids[k] in detector.finished
    {
      err := detector.Visit(ids[i]);
      if err.Cycle? {
        ClosedWalkMeansCyclic(graph, err.walk);
        return;
      }
      i := i + 1;
    }
    TopologicalMeansAcyclic(graph, detector.finished);
    return NoCycle;
  }
}
