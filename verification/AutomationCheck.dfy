/** The publish-time graph check: adjacency lists, a worklist search and a
    three-colour depth-first search, proved to return AutomationGraph.Publishable. */
module AutomationCheck {
  import opened AutomationGraph

  type Adjacency = map<NodeId, seq<NodeId>>

  /** `outgoing` lists, for each declared node, exactly the targets of its edges. */
  ghost predicate Represents(outgoing: Adjacency, ids: set<NodeId>, edges: seq<Edge>) {
    && outgoing.Keys == ids
    && (forall a, b :: a in ids && b in outgoing[a] ==> Edge(a, b) in edges)
    && (forall e :: e in edges ==> Declared(ids, e) && e.target in outgoing[e.source])
  }

  /** Builds the adjacency lists edge by edge; None at the first edge with an undeclared end. */
  method BuildOutgoing(ids: set<NodeId>, edges: seq<Edge>) returns (ok: bool, outgoing: Adjacency)
    ensures ok <==> AllDeclared(ids, edges)
    ensures ok ==> Represents(outgoing, ids, edges)
  {
    outgoing := map id | id in ids :: [];
    for i := 0 to |edges|
      invariant Represents(outgoing, ids, edges[..i])
    {
      var e := edges[i];
      assert e in edges;
      if e.source !in ids || e.target !in ids {
        return false, outgoing;
      }
      outgoing := outgoing[e.source := outgoing[e.source] + [e.target]];
      assert edges[..i + 1] == edges[..i] + [e];
    }
    assert edges[..|edges|] == edges;
    ok := true;
  }

  /** The worklist search. The stack may hold nodes already visited, and one node many times;
      a pop either visits a new node or shortens the stack. */
  method ReachableFrom(outgoing: Adjacency, ids: set<NodeId>, edges: seq<Edge>, start: NodeId)
    returns (visited: set<NodeId>)
    requires Represents(outgoing, ids, edges) && start in ids
    ensures visited <= ids
    ensures forall v :: v in visited <==> Reaches(edges, start, v)
  {
    visited := {};
    var stack := [start];
    WalkSingle(edges, start);
    while stack != []
      invariant visited <= ids
      invariant forall v :: v in stack ==> v in ids && Reaches(edges, start, v)
      invariant forall v :: v in visited ==> Reaches(edges, start, v)
      invariant start in visited || start in stack
      invariant forall e :: e in edges && e.source in visited ==> e.target in visited || e.target in stack
      decreases ids - visited, |stack|
    {
      var v := stack[|stack| - 1];
      var rest := stack[..|stack| - 1];
      assert stack == rest + [v];
      if v in visited {
        stack := rest;
        continue;
      }
      forall b | b in outgoing[v] ensures b in ids && Reaches(edges, start, b) {
        ReachesStep(edges, start, v, b);
        assert Edge(v, b) in edges;
      }
      visited := visited + {v};
      stack := rest + outgoing[v];
    }
    assert ClosedUnder(edges, visited);
    forall v | Reaches(edges, start, v) ensures v in visited {
      ClosedSetKeepsWalks(edges, visited, start, v);
    }
  }

  /** The two sets the depth-first search shares between its calls: `visiting` is grey,
      `completed` is black. */
  class CycleSearch {
    const outgoing: Adjacency
    var visiting: set<NodeId>
    var completed: set<NodeId>
    ghost const ids: set<NodeId>
    ghost const edges: seq<Edge>

    constructor (outgoing: Adjacency, ghost ids: set<NodeId>, ghost edges: seq<Edge>)
      requires Represents(outgoing, ids, edges)
      ensures this.ids == ids && this.edges == edges && Valid() && visiting == {} && completed == {}
    {
      this.outgoing := outgoing;
      this.ids := ids;
      this.edges := edges;
      visiting := {};
      completed := {};
    }

    /** Black nodes are closed under edges and none of them lies on a cycle. */
    ghost predicate Valid()
      reads this
    {
      && Represents(outgoing, ids, edges)
      && visiting <= ids && completed <= ids
      && visiting !! completed
      && ClosedUnder(edges, completed)
      && (forall v :: v in completed ==> !OnCycle(edges, v))
    }

    /** `cycle` stands for the raised AUTOMATION_GRAPH_CYCLE. */
    method Dfs(node: NodeId) returns (cycle: bool)
      requires Valid() && node in ids
      requires forall g :: g in visiting ==> Reaches(edges, g, node) && (g == node ==> OnCycle(edges, node))
      modifies this
      ensures cycle ==> exists v :: OnCycle(edges, v)
      ensures !cycle ==> Valid() && visiting == old(visiting) && old(completed) <= completed && node in completed
      decreases ids - visiting - completed
    {
      if node in visiting {
        return true;
      }
      if node in completed {
        return false;
      }
      visiting := visiting + {node};
      var targets := outgoing[node];
      WalkSingle(edges, node);
      for i := 0 to |targets|
        invariant Valid() && visiting == old(visiting) + {node} && old(completed) <= completed
        invariant forall j :: 0 <= j < i ==> targets[j] in completed
      {
        var t := targets[i];
        assert Edge(node, t) in edges;
        forall g | g in visiting
          ensures Reaches(edges, g, t) && (g == t ==> OnCycle(edges, t))
        {
          ReachesStep(edges, g, node, t);
          if g == t {
            GreyOnCycle(node, t);
          }
        }
        assert node in ids - old(visiting) - old(completed) && node !in ids - visiting - completed;
        var found := Dfs(t);
        if found {
          return true;
        }
      }
      FinishedNodeIsOffCycles(node);
      visiting := visiting - {node};
      completed := completed + {node};
      return false;
    }

    /** A grey target of the current node lies on the cycle its edge closes. */
    lemma GreyOnCycle(node: NodeId, t: NodeId)
      requires Edge(node, t) in edges && Reaches(edges, t, node)
      ensures OnCycle(edges, t)
    {
      var w :| WalkBetween(edges, w, t, node);
      assert WalkBetween(edges, [node, t], node, t);
      WalkJoin(edges, w, [node, t], t, node, t);
      assert WalkBetween(edges, w + [node, t][1..], t, t);
    }

    /** Once every successor of a grey node is black, the node itself cannot be on a cycle. */
    lemma FinishedNodeIsOffCycles(node: NodeId)
      requires Valid() && node in visiting
      requires forall b :: b in outgoing[node] ==> b in completed
      ensures !OnCycle(edges, node)
      ensures ClosedUnder(edges, completed + {node})
    {
      if OnCycle(edges, node) {
        var t := CycleHasReturningEdge(edges, node);
        ClosedSetKeepsWalks(edges, completed, t, node);
      }
    }
  }

  /** validate_publishable_graph: Accepted stands for returning, Rejected for the raised code. */
  method ValidatePublishableGraph(g: Graph) returns (verdict: Verdict)
    ensures verdict == Publishable(g)
  {
    if g.nodes == [] {
      return Rejected(GraphEmpty);
    }
    var ids := Ids(g.nodes);
    var triggers := Triggers(g.nodes);
    if |triggers| != 1 {
      return Rejected(RequiresOneTrigger);
    }
    for i := 0 to |g.nodes|
      invariant forall j :: 0 <= j < i ==> !g.nodes[j].kind.Other?
    {
      if g.nodes[i].kind.Other? {
        assert g.nodes[i] in g.nodes;
        return Rejected(UnsupportedNodeType);
      }
    }
    var ok, outgoing := BuildOutgoing(ids, g.edges);
    if !ok {
      return Rejected(InvalidEdge);
    }
    TriggersAreNodes(g.nodes);
    var trigger := triggers[0].id;
    assert triggers[0] in triggers;
    var visited := ReachableFrom(outgoing, ids, g.edges, trigger);
    if visited != ids {
      return Rejected(HasUnreachableNodes);
    }
    var search := new CycleSearch(outgoing, ids, g.edges);
    var cycle := search.Dfs(trigger);
    if cycle {
      return Rejected(HasCycle);
    }
    forall v | OnCycle(g.edges, v) ensures false {
      var t := CycleHasReturningEdge(g.edges, v);
      assert Declared(ids, Edge(v, t));
      ClosedSetKeepsWalks(g.edges, search.completed, trigger, v);
    }
    return Accepted;
  }
}
