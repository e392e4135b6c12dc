/** The automation graph and the declarative meaning of "publishable":
    what the checker in AutomationCheck must decide, stated with walks only. */
module AutomationGraph {

  type NodeId = string

  /** The node types the publisher supports, and Other for every other type string. */
  datatype Kind =
    | Trigger | Condition | SendText | SendQuickReply | SendTemplate | SendMedia | SendCatalog
    | AiReply | CreateDeal | AddTag | RemoveTag | AssignTeam | AssignUser | SetStatus
    | SetLifecycle | CollectInput | Delay | Webhook | HttpRequest | Stop
    | Other(name: string)

  /** `seconds` and `minutes` are the integers read from the node's data, 0 when absent. */
  datatype Node = Node(id: NodeId, kind: Kind, seconds: int, minutes: int)

  datatype Edge = Edge(source: NodeId, target: NodeId)

  datatype Graph = Graph(nodes: seq<Node>, edges: seq<Edge>)

  datatype GraphError =
    | GraphEmpty
    | RequiresOneTrigger
    | UnsupportedNodeType
    | InvalidEdge
    | HasUnreachableNodes
    | HasCycle

  datatype Verdict = Accepted | Rejected(error: GraphError)

  function Ids(nodes: seq<Node>): set<NodeId> {
    set n | n in nodes :: n.id
  }

  function Triggers(nodes: seq<Node>): seq<Node> {
    if nodes == [] then []
    else (if nodes[0].kind.Trigger? then [nodes[0]] else []) + Triggers(nodes[1..])
  }

  lemma TriggersAreNodes(nodes: seq<Node>)
    ensures forall n :: n in Triggers(nodes) <==> n in nodes && n.kind.Trigger?
  {
    if nodes != [] {
      TriggersAreNodes(nodes[1..]);
      assert nodes == [nodes[0]] + nodes[1..];
    }
  }

  predicate Declared(ids: set<NodeId>, e: Edge) {
    e.source in ids && e.target in ids
  }

  // ----- walks

  /** A non-empty sequence of node ids in which each follows its predecessor along an edge. */
  ghost predicate IsWalk(edges: seq<Edge>, w: seq<NodeId>) {
    w != [] && forall i {:trigger w[i]} :: 0 <= i < |w| - 1 ==> Edge(w[i], w[i + 1]) in edges
  }

  ghost predicate WalkBetween(edges: seq<Edge>, w: seq<NodeId>, a: NodeId, b: NodeId) {
    IsWalk(edges, w) && w[0] == a && w[|w| - 1] == b
  }

  ghost predicate Reaches(edges: seq<Edge>, a: NodeId, b: NodeId) {
    exists w :: WalkBetween(edges, w, a, b)
  }

  /** Some walk of at least one edge leads from `v` back to `v`. */
  ghost predicate OnCycle(edges: seq<Edge>, v: NodeId) {
    exists w :: WalkBetween(edges, w, v, v) && |w| >= 2
  }

  ghost predicate AllSupported(nodes: seq<Node>) {
    forall n :: n in nodes ==> !n.kind.Other?
  }

  ghost predicate AllDeclared(ids: set<NodeId>, edges: seq<Edge>) {
    forall e :: e in edges ==> Declared(ids, e)
  }

  ghost predicate AllReachable(ids: set<NodeId>, edges: seq<Edge>, start: NodeId) {
    forall v :: v in ids ==> Reaches(edges, start, v)
  }

  ghost predicate Acyclic(edges: seq<Edge>) {
    forall v :: !OnCycle(edges, v)
  }

  /** The verdict the publisher owes every graph: the first failing requirement, or acceptance. */
  ghost function Publishable(g: Graph): Verdict {
    if g.nodes == [] then Rejected(GraphEmpty)
    else if |Triggers(g.nodes)| != 1 then Rejected(RequiresOneTrigger)
    else if !AllSupported(g.nodes) then Rejected(UnsupportedNodeType)
    else if !AllDeclared(Ids(g.nodes), g.edges) then Rejected(InvalidEdge)
    else if !AllReachable(Ids(g.nodes), g.edges, Triggers(g.nodes)[0].id) then Rejected(HasUnreachableNodes)
    else if !Acyclic(g.edges) then Rejected(HasCycle)
    else Accepted
  }

  /** The t-th node is a trigger and the only one. */
  ghost predicate OnlyTrigger(nodes: seq<Node>, t: nat) {
    && t < |nodes| && nodes[t].kind == Trigger
    && forall i :: 0 <= i < |nodes| && nodes[i].kind == Trigger ==> i == t
  }

  lemma {:induction false} NoTriggers(nodes: seq<Node>)
    ensures Triggers(nodes) == [] <==> forall n :: n in nodes ==> n.kind != Trigger
  {
    TriggersAreNodes(nodes);
    if Triggers(nodes) != [] {
      assert Triggers(nodes)[0] in Triggers(nodes);
    } else {
      forall n | n in nodes ensures n.kind != Trigger { assert n !in Triggers(nodes); }
    }
  }

  lemma {:induction false} OneTrigger(nodes: seq<Node>)
    ensures |Triggers(nodes)| == 1 <==> exists t :: OnlyTrigger(nodes, t)
    ensures forall t: nat :: OnlyTrigger(nodes, t) ==> Triggers(nodes)[0] == nodes[t]
  {
    if nodes != [] {
      var rest := nodes[1..];
      OneTrigger(rest);
      NoTriggers(rest);
      if nodes[0].kind == Trigger {
        assert OnlyTrigger(nodes, 0) <==> forall n :: n in rest ==> n.kind != Trigger;
        forall t: nat | OnlyTrigger(nodes, t) ensures t == 0 {}
      } else {
        forall t: nat | 0 < t ensures OnlyTrigger(nodes, t) <==> OnlyTrigger(rest, t - 1) {
          assert t < |nodes| ==> rest[t - 1] == nodes[t];
        }
        if t: nat :| OnlyTrigger(rest, t) { assert OnlyTrigger(nodes, t + 1); }
      }
    }
  }

  /** Exactly one trigger, the t-th node; no node of an unsupported type; edges between declared
      nodes only; every node reachable from the trigger; and no cycle. */
  ghost predicate IsSound(g: Graph, t: nat) {
    && OnlyTrigger(g.nodes, t)
    && (forall n :: n in g.nodes ==> !n.kind.Other?)
    && AllDeclared(Ids(g.nodes), g.edges)
    && AllReachable(Ids(g.nodes), g.edges, g.nodes[t].id)
    && Acyclic(g.edges)
  }

  lemma AcceptedExactly(g: Graph)
    ensures Publishable(g) == Accepted <==> exists t: nat :: IsSound(g, t)
  {
    OneTrigger(g.nodes);
    if Publishable(g) == Accepted {
      var t: nat :| OnlyTrigger(g.nodes, t);
      assert IsSound(g, t);
    }
  }

  ghost predicate HasOneTrigger(g: Graph) {
    exists t: nat :: OnlyTrigger(g.nodes, t)
  }

  ghost predicate NodesPass(g: Graph) {
    HasOneTrigger(g) && forall n :: n in g.nodes ==> !n.kind.Other?
  }

  ghost predicate EdgesPass(g: Graph) {
    NodesPass(g) && forall e :: e in g.edges ==> e.source in Ids(g.nodes) && e.target in Ids(g.nodes)
  }

  ghost predicate AllConnected(g: Graph) {
    exists t: nat :: OnlyTrigger(g.nodes, t) && forall v :: v in Ids(g.nodes) ==> Reaches(g.edges, g.nodes[t].id, v)
  }

  /** Which error is raised says exactly how far a graph gets. */
  lemma RejectedExactly(g: Graph)
    ensures Publishable(g) == Rejected(GraphEmpty) <==> g.nodes == []
    ensures Publishable(g) == Rejected(RequiresOneTrigger) <==> g.nodes != [] && !HasOneTrigger(g)
    ensures Publishable(g) == Rejected(UnsupportedNodeType) <==>
              HasOneTrigger(g) && exists n :: n in g.nodes && n.kind.Other?
    ensures Publishable(g) == Rejected(InvalidEdge) <==>
              NodesPass(g) && exists e :: e in g.edges && (e.source !in Ids(g.nodes) || e.target !in Ids(g.nodes))
    ensures Publishable(g) == Rejected(HasUnreachableNodes) <==> EdgesPass(g) && !AllConnected(g)
    ensures Publishable(g) == Rejected(HasCycle) <==>
              EdgesPass(g) && AllConnected(g) && exists v :: OnCycle(g.edges, v)
  {
    OneTrigger(g.nodes);
    OnlyOneConnects(g);
  }

  lemma OnlyOneConnects(g: Graph)
    requires |Triggers(g.nodes)| == 1 ==> HasOneTrigger(g)
    ensures |Triggers(g.nodes)| == 1 ==>
              (AllConnected(g) <==> AllReachable(Ids(g.nodes), g.edges, Triggers(g.nodes)[0].id))
  {
    OneTrigger(g.nodes);
  }

  // ----- walk algebra

  lemma WalkSingle(edges: seq<Edge>, a: NodeId)
    ensures WalkBetween(edges, [a], a, a)
    ensures Reaches(edges, a, a)
  {
    assert WalkBetween(edges, [a], a, a);
  }

  lemma WalkJoin(edges: seq<Edge>, w: seq<NodeId>, x: seq<NodeId>, a: NodeId, b: NodeId, c: NodeId)
    requires WalkBetween(edges, w, a, b)
    requires WalkBetween(edges, x, b, c)
    ensures WalkBetween(edges, w + x[1..], a, c)
  {
    var y := w + x[1..];
    forall i {:trigger y[i]} | 0 <= i < |y| - 1 ensures Edge(y[i], y[i + 1]) in edges {
      if i < |w| - 1 {
        assert y[i] == w[i] && y[i + 1] == w[i + 1];
      } else {
        var j := i - (|w| - 1);
        assert y[i] == x[j] && y[i + 1] == x[j + 1];
      }
    }
  }

  /** Extending reachability by one edge at the far end. */
  lemma ReachesStep(edges: seq<Edge>, a: NodeId, b: NodeId, c: NodeId)
    requires Reaches(edges, a, b) && Edge(b, c) in edges
    ensures Reaches(edges, a, c)
  {
    var w :| WalkBetween(edges, w, a, b);
    assert WalkBetween(edges, [b, c], b, c);
    WalkJoin(edges, w, [b, c], a, b, c);
  }

  /** A node on a cycle has a successor that leads back to it. */
  lemma CycleHasReturningEdge(edges: seq<Edge>, v: NodeId) returns (t: NodeId)
    requires OnCycle(edges, v)
    ensures Edge(v, t) in edges && Reaches(edges, t, v)
  {
    var w :| WalkBetween(edges, w, v, v) && |w| >= 2;
    t := w[1];
    assert Edge(w[0], w[0 + 1]) in edges;
    var x := w[1..];
    forall i {:trigger x[i]} | 0 <= i < |x| - 1 ensures Edge(x[i], x[i + 1]) in edges {
      assert x[i] == w[i + 1] && x[i + 1] == w[i + 1 + 1];
    }
    assert WalkBetween(edges, x, t, v);
  }

  ghost predicate ClosedUnder(edges: seq<Edge>, s: set<NodeId>) {
    forall e :: e in edges && e.source in s ==> e.target in s
  }

  /** Nothing outside a closed set is reachable from inside it. */
  lemma ClosedSetKeepsWalks(edges: seq<Edge>, s: set<NodeId>, a: NodeId, b: NodeId)
    requires ClosedUnder(edges, s) && a in s && Reaches(edges, a, b)
    ensures b in s
  {
    var w :| WalkBetween(edges, w, a, b);
    var i := 0;
    while i < |w| - 1
      invariant 0 <= i < |w| && w[i] in s
    {
      assert Edge(w[i], w[i + 1]) in edges;
      i := i + 1;
    }
  }
}
