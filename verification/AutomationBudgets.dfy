/** The step and time budgets of a run, and why acyclicity makes them sufficient
    for every walk an accepted graph admits. */
module AutomationBudgets {
  import opened AutomationGraph
  import opened Common

  function NodeDelay(n: Node): int {
    if n.kind.Delay? then n.seconds + n.minutes * 60 else 0
  }

  ghost function TotalDelay(nodes: seq<Node>): int {
    if nodes == [] then 0 else TotalDelay(nodes[..|nodes| - 1]) + NodeDelay(nodes[|nodes| - 1])
  }

  method EstimateGraphDelaySeconds(nodes: seq<Node>) returns (total: int)
    ensures total == TotalDelay(nodes)
  {
    total := 0;
    for i := 0 to |nodes|
      invariant total == TotalDelay(nodes[..i])
    {
      assert nodes[..i + 1][..i] == nodes[..i];
      if !nodes[i].kind.Delay? {
        continue;
      }
      total := total + (nodes[i].seconds + nodes[i].minutes * 60);
    }
    assert nodes[..|nodes|] == nodes;
  }

  /** Minutes from now to the run's deadline; `//` floors, as `/` does for a positive divisor. */
  function DeadlineMinutes(delaySeconds: int): int {
    Max(15, 15 + delaySeconds / 60)
  }

  function MaxSteps(nodeCount: nat): int {
    Min(Max(nodeCount * 3, 25), 500)
  }

  // ----- what the budgets amount to

  /** The raw `seconds` of the delay nodes added up. */
  ghost function DelaySeconds(nodes: seq<Node>): int {
    if nodes == [] then 0
    else DelaySeconds(nodes[1..]) + if nodes[0].kind == Delay then nodes[0].seconds else 0
  }

  ghost function DelayMinutes(nodes: seq<Node>): int {
    if nodes == [] then 0
    else DelayMinutes(nodes[1..]) + if nodes[0].kind == Delay then nodes[0].minutes else 0
  }

  lemma {:induction false} TotalDelayFromFront(nodes: seq<Node>)
    requires nodes != []
    ensures TotalDelay(nodes) == NodeDelay(nodes[0]) + TotalDelay(nodes[1..])
  {
    if |nodes| > 1 {
      var front := nodes[..|nodes| - 1];
      TotalDelayFromFront(front);
      assert front[1..] == nodes[1..][..|nodes| - 2];
    }
  }

  /** The estimate counts seconds once and minutes sixty times, of delay nodes only. */
  lemma {:induction false} EstimateInSeconds(nodes: seq<Node>)
    ensures TotalDelay(nodes) == DelaySeconds(nodes) + 60 * DelayMinutes(nodes)
  {
    if nodes != [] {
      TotalDelayFromFront(nodes);
      EstimateInSeconds(nodes[1..]);
    }
  }

  /** The deadline leaves more than fourteen and at most fifteen minutes beyond the delays, and
      exactly fifteen minutes in all when these add up to nothing or less. */
  lemma DeadlineIsTight(delaySeconds: int)
    ensures delaySeconds >= 0 ==> 14 * 60 < DeadlineMinutes(delaySeconds) * 60 - delaySeconds <= 15 * 60
    ensures delaySeconds <= 0 ==> DeadlineMinutes(delaySeconds) == 15
  {
  }

  /** Room for exactly three visits of every node, but never fewer than 25 steps nor more than
      500. */
  lemma StepsAreThreefold(n: nat)
    ensures MaxSteps(n) == if n <= 8 then 25 else if n <= 166 then n + n + n else 500
  {
  }

  // ----- delays along walks

  /** The node an id stands for: the last one declared with it. */
  ghost function NodeOf(nodes: seq<Node>, id: NodeId): Node
    requires id in Ids(nodes)
  {
    var last := nodes[|nodes| - 1];
    if last.id == id then last
    else
      assert nodes == nodes[..|nodes| - 1] + [last];
      NodeOf(nodes[..|nodes| - 1], id)
  }

  ghost predicate Within(nodes: seq<Node>, w: seq<NodeId>) {
    forall i :: 0 <= i < |w| ==> w[i] in Ids(nodes)
  }

  ghost function WalkDelay(nodes: seq<Node>, w: seq<NodeId>): int
    requires Within(nodes, w)
  {
    if w == [] then 0 else NodeDelay(NodeOf(nodes, w[0])) + WalkDelay(nodes, w[1..])
  }

  ghost predicate NonNegativeDelays(nodes: seq<Node>) {
    forall n :: n in nodes ==> NodeDelay(n) >= 0
  }

  ghost predicate UniqueIds(nodes: seq<Node>) {
    forall i, j :: 0 <= i < j < |nodes| ==> nodes[i].id != nodes[j].id
  }

  // ----- pigeonhole

  lemma {:induction false} IdsAtMostNodes(nodes: seq<Node>)
    ensures |Ids(nodes)| <= |nodes|
  {
    if nodes != [] {
      var front := nodes[..|nodes| - 1];
      assert nodes == front + [nodes[|nodes| - 1]];
      assert Ids(nodes) == Ids(front) + {nodes[|nodes| - 1].id};
      IdsAtMostNodes(front);
    }
  }

  lemma RepeatMakesCycle(edges: seq<Edge>, w: seq<NodeId>, i: nat, j: nat)
    requires IsWalk(edges, w) && i < j < |w| && w[i] == w[j]
    ensures OnCycle(edges, w[i])
  {
    var loop := w[i..j + 1];
    forall k {:trigger loop[k]} | 0 <= k < |loop| - 1 ensures Edge(loop[k], loop[k + 1]) in edges {
      assert loop[k] == w[i + k] && loop[k + 1] == w[i + k + 1];
    }
    assert WalkBetween(edges, loop, w[i], w[i]);
  }

  /** Without cycles no walk meets a node twice. */
  lemma AcyclicWalksAreSimple(edges: seq<Edge>, w: seq<NodeId>)
    requires IsWalk(edges, w) && Acyclic(edges)
    ensures Distinct(w)
  {
    forall i, j | 0 <= i < j < |w| ensures w[i] != w[j] {
      if w[i] == w[j] {
        RepeatMakesCycle(edges, w, i, j);
      }
    }
  }

  lemma WalkStaysDeclared(nodes: seq<Node>, edges: seq<Edge>, w: seq<NodeId>)
    requires IsWalk(edges, w) && w[0] in Ids(nodes)
    requires AllDeclared(Ids(nodes), edges)
    ensures Within(nodes, w)
  {
    forall i | 0 <= i < |w| ensures w[i] in Ids(nodes) {
      if i > 0 {
        assert Edge(w[i - 1], w[i - 1 + 1]) in edges;
        assert Declared(Ids(nodes), Edge(w[i - 1], w[i]));
      }
    }
  }

  // ----- summing a walk against the node list

  lemma {:induction false} WalkDelayConcat(nodes: seq<Node>, u: seq<NodeId>, v: seq<NodeId>)
    requires Within(nodes, u) && Within(nodes, v)
    ensures Within(nodes, u + v)
    ensures WalkDelay(nodes, u + v) == WalkDelay(nodes, u) + WalkDelay(nodes, v)
  {
    if u == [] {
      assert u + v == v;
    } else {
      assert (u + v)[1..] == u[1..] + v;
      WalkDelayConcat(nodes, u[1..], v);
    }
  }

  /** Dropping the last declared node changes nothing for walks that avoid its id. */
  lemma {:induction false} WalkDelayIgnores(nodes: seq<Node>, w: seq<NodeId>)
    requires nodes != [] && Within(nodes, w) && nodes[|nodes| - 1].id !in w
    ensures Within(nodes[..|nodes| - 1], w)
    ensures WalkDelay(nodes, w) == WalkDelay(nodes[..|nodes| - 1], w)
  {
    var front := nodes[..|nodes| - 1];
    assert nodes == front + [nodes[|nodes| - 1]];
    forall i | 0 <= i < |w| ensures w[i] in Ids(front) {
      assert w[i] in w;
    }
    if w != [] {
      assert w[0] in w;
      WalkDelayIgnores(nodes, w[1..]);
    }
  }

  /** Taking the last declared node out of a simple walk takes out exactly its delay. */
  lemma WalkDelayWithout(nodes: seq<Node>, w: seq<NodeId>, k: nat)
    requires nodes != [] && Within(nodes, w) && Distinct(w)
    requires k < |w| && w[k] == nodes[|nodes| - 1].id
    ensures var front, rest := nodes[..|nodes| - 1], w[..k] + w[k + 1..];
            && Distinct(rest) && Within(front, rest)
            && WalkDelay(nodes, w) == WalkDelay(front, rest) + NodeDelay(nodes[|nodes| - 1])
  {
    var id := nodes[|nodes| - 1].id;
    assert w == w[..k] + ([id] + w[k + 1..]);
    assert ([id] + w[k + 1..])[1..] == w[k + 1..];
    WalkDelayConcat(nodes, w[..k], [id] + w[k + 1..]);
    WalkDelayConcat(nodes, w[..k], w[k + 1..]);
    WalkDelayIgnores(nodes, w[..k] + w[k + 1..]);
  }

  ghost predicate Covers(nodes: seq<Node>, w: seq<NodeId>) {
    UniqueIds(nodes) && forall n :: n in nodes ==> n.id in w
  }

  lemma CoversRest(nodes: seq<Node>, w: seq<NodeId>, k: nat)
    requires nodes != [] && k < |w| && w[k] == nodes[|nodes| - 1].id
    ensures Covers(nodes, w) ==> Covers(nodes[..|nodes| - 1], w[..k] + w[k + 1..])
  {
    var front, rest := nodes[..|nodes| - 1], w[..k] + w[k + 1..];
    assert nodes == front + [nodes[|nodes| - 1]];
    assert w == w[..k] + [w[k]] + w[k + 1..];
    if Covers(nodes, w) {
      forall n | n in front ensures n.id in rest {
        assert n in nodes && n.id in w;
      }
    }
  }

  /** A simple walk never sums to more than the node list, and to exactly that much when it
      covers every node. */
  lemma {:induction false} SimpleWalkDelay(nodes: seq<Node>, w: seq<NodeId>)
    requires Within(nodes, w) && Distinct(w)
    ensures NonNegativeDelays(nodes) ==> WalkDelay(nodes, w) <= TotalDelay(nodes)
    ensures Covers(nodes, w) ==> WalkDelay(nodes, w) == TotalDelay(nodes)
    decreases |nodes|
  {
    if nodes == [] {
      DistinctFits(w, Ids(nodes));
    } else {
      var last := nodes[|nodes| - 1];
      var front := nodes[..|nodes| - 1];
      assert last in nodes;
      assert forall n :: n in front ==> n in nodes;
      if k :| 0 <= k < |w| && w[k] == last.id {
        var rest := w[..k] + w[k + 1..];
        WalkDelayWithout(nodes, w, k);
        CoversRest(nodes, w, k);
        SimpleWalkDelay(front, rest);
      } else {
        WalkDelayIgnores(nodes, w);
        SimpleWalkDelay(front, w);
      }
    }
  }

  // ----- the budgets suffice

  ghost predicate FromTrigger(g: Graph, w: seq<NodeId>) {
    |Triggers(g.nodes)| == 1 && IsWalk(g.edges, w) && w[0] == Triggers(g.nodes)[0].id
  }

  /** Declared edges and no cycles: every walk is simple and as short as the node list. */
  lemma AcyclicWalkFits(nodes: seq<Node>, edges: seq<Edge>, w: seq<NodeId>)
    requires AllDeclared(Ids(nodes), edges)
    requires Acyclic(edges)
    requires IsWalk(edges, w) && w[0] in Ids(nodes)
    ensures Within(nodes, w) && Distinct(w) && |w| <= |nodes|
  {
    WalkStaysDeclared(nodes, edges, w);
    AcyclicWalksAreSimple(edges, w);
    DistinctFits(w, Ids(nodes));
    IdsAtMostNodes(nodes);
  }

  lemma AcceptedWalkIsSimple(g: Graph, w: seq<NodeId>)
    requires Publishable(g) == Accepted && FromTrigger(g, w)
    ensures Within(g.nodes, w) && Distinct(w) && |w| <= |g.nodes|
  {
    TriggersAreNodes(g.nodes);
    assert Triggers(g.nodes)[0] in Triggers(g.nodes);
    AcyclicWalkFits(g.nodes, g.edges, w);
  }

  /** What a run along one walk needs is covered: its waiting time stays at least fourteen
      minutes below the deadline, and its steps within max_steps up to 500 nodes. */
  lemma AcceptedWalkFitsBudgets(g: Graph, w: seq<NodeId>)
    requires Publishable(g) == Accepted && FromTrigger(g, w)
    ensures Within(g.nodes, w)
    ensures NonNegativeDelays(g.nodes) ==>
              && WalkDelay(g.nodes, w) <= TotalDelay(g.nodes)
              && WalkDelay(g.nodes, w) + 14 * 60 <= DeadlineMinutes(TotalDelay(g.nodes)) * 60
    ensures |g.nodes| <= 500 ==> |w| <= MaxSteps(|g.nodes|)
  {
    AcceptedWalkIsSimple(g, w);
    SimpleWalkDelay(g.nodes, w);
  }

  // ----- both conditions are exact: straight-line graphs exhaust the budgets

  ghost function LineEdges(order: seq<NodeId>): seq<Edge>
    requires order != []
  {
    seq(|order| - 1, i requires 0 <= i < |order| - 1 => Edge(order[i], order[i + 1]))
  }

  lemma LineHasEdge(order: seq<NodeId>, i: nat)
    requires i + 1 < |order|
    ensures Edge(order[i], order[i + 1]) in LineEdges(order)
  {
    assert LineEdges(order)[i] == Edge(order[i], order[i + 1]);
  }

  lemma LinePrefixIsWalk(order: seq<NodeId>, n: nat)
    requires 0 < n <= |order|
    ensures WalkBetween(LineEdges(order), order[..n], order[0], order[n - 1])
  {
    forall i {:trigger order[..n][i]} | 0 <= i < n - 1
      ensures Edge(order[..n][i], order[..n][i + 1]) in LineEdges(order)
    {
      LineHasEdge(order, i);
    }
  }

  lemma LineEdgeIndex(order: seq<NodeId>, a: NodeId, b: NodeId) returns (i: nat)
    requires order != [] && Edge(a, b) in LineEdges(order)
    ensures i + 1 < |order| && order[i] == a && order[i + 1] == b
  {
    i :| 0 <= i < |LineEdges(order)| && LineEdges(order)[i] == Edge(a, b);
  }

  /** Walks on a line can only advance along it. */
  lemma {:induction false} LineWalkAdvances(order: seq<NodeId>, w: seq<NodeId>, p: nat, k: nat)
    requires Distinct(order) && p < |order| && IsWalk(LineEdges(order), w)
    requires w[0] == order[p] && k < |w|
    ensures p + k < |order| && w[k] == order[p + k]
  {
    if k > 0 {
      LineWalkAdvances(order, w, p, k - 1);
      assert Edge(w[k - 1], w[k - 1 + 1]) in LineEdges(order);
      var q := LineEdgeIndex(order, w[k - 1], w[k]);
    }
  }

  lemma LineIsAcyclic(order: seq<NodeId>)
    requires order != [] && Distinct(order)
    ensures Acyclic(LineEdges(order))
  {
    forall v ensures !OnCycle(LineEdges(order), v) {
      if OnCycle(LineEdges(order), v) {
        var w :| WalkBetween(LineEdges(order), w, v, v) && |w| >= 2;
        assert Edge(w[0], w[0 + 1]) in LineEdges(order);
        var p := LineEdgeIndex(order, w[0], w[1]);
        LineWalkAdvances(order, w, p, |w| - 1);
      }
    }
  }

  lemma LineIsConnected(order: seq<NodeId>, ids: set<NodeId>)
    requires order != [] && forall id :: id in order <==> id in ids
    ensures AllDeclared(ids, LineEdges(order))
    ensures AllReachable(ids, LineEdges(order), order[0])
  {
    forall e | e in LineEdges(order) ensures Declared(ids, e) {
      var i := LineEdgeIndex(order, e.source, e.target);
      assert order[i] in order && order[i + 1] in order;
    }
    forall v | v in ids ensures Reaches(LineEdges(order), order[0], v) {
      assert v in order;
      var i :| 0 <= i < |order| && order[i] == v;
      LinePrefixIsWalk(order, i + 1);
    }
  }

  /** One trigger, supported kinds, no id declared twice: what the schema and the checker ask
      of the nodes alone. */
  ghost predicate WellFormedNodes(nodes: seq<Node>) {
    && UniqueIds(nodes)
    && |Triggers(nodes)| == 1
    && AllSupported(nodes)
  }

  lemma LineIsAccepted(nodes: seq<Node>, order: seq<NodeId>)
    requires WellFormedNodes(nodes) && Distinct(order) && order != []
    requires forall id :: id in order <==> id in Ids(nodes)
    requires order[0] == Triggers(nodes)[0].id
    ensures Publishable(Graph(nodes, LineEdges(order))) == Accepted
  {
    LineIsConnected(order, Ids(nodes));
    LineIsAcyclic(order);
  }

  lemma {:induction false} Enumerate(s: set<NodeId>) returns (order: seq<NodeId>)
    ensures Distinct(order) && forall id :: id in order <==> id in s
  {
    order := [];
    if s != {} {
      var x :| x in s;
      var rest := Enumerate(s - {x});
      order := rest + [x];
    }
  }

  ghost predicate DelaysAlwaysCovered(nodes: seq<Node>) {
    forall edges, w {:trigger Publishable(Graph(nodes, edges)), FromTrigger(Graph(nodes, edges), w)} ::
      Publishable(Graph(nodes, edges)) == Accepted && FromTrigger(Graph(nodes, edges), w) && Within(nodes, w)
      ==> WalkDelay(nodes, w) <= TotalDelay(nodes)
  }

  /** The delay estimate covers every walk, however the nodes are wired, exactly when no
      delay node carries a negative delay. */
  lemma DelayEstimateExact(nodes: seq<Node>)
    requires WellFormedNodes(nodes)
    ensures DelaysAlwaysCovered(nodes) <==> NonNegativeDelays(nodes)
  {
    if NonNegativeDelays(nodes) {
      forall edges, w | Publishable(Graph(nodes, edges)) == Accepted && FromTrigger(Graph(nodes, edges), w)
        ensures Within(nodes, w) ==> WalkDelay(nodes, w) <= TotalDelay(nodes)
      {
        AcceptedWalkFitsBudgets(Graph(nodes, edges), w);
      }
    } else {
      var d :| d in nodes && NodeDelay(d) < 0;
      NegativeDelayOverruns(nodes, d);
    }
  }

  /** All ids in a line that starts at one given node and ends at another. */
  lemma Lineup(ids: set<NodeId>, first: NodeId, last: NodeId) returns (order: seq<NodeId>)
    requires first in ids && last in ids && first != last
    ensures Distinct(order) && (forall id :: id in order <==> id in ids)
    ensures |order| >= 2 && order[0] == first && order[|order| - 1] == last
  {
    var middle := Enumerate(ids - {first, last});
    order := [first] + middle + [last];
  }

  /** A negative delay placed last on a line leaves the walk up to it over the estimate. */
  lemma NegativeDelayOverruns(nodes: seq<Node>, d: Node)
    requires WellFormedNodes(nodes) && d in nodes && NodeDelay(d) < 0
    ensures !DelaysAlwaysCovered(nodes)
  {
    TriggersAreNodes(nodes);
    var t := Triggers(nodes)[0];
    assert t in Triggers(nodes);
    SameIdSameNode(nodes, t, d);
    var order := Lineup(Ids(nodes), t.id, d.id);
    var w := order[..|order| - 1];
    LineIsAccepted(nodes, order);
    LinePrefixIsWalk(order, |w|);
    assert FromTrigger(Graph(nodes, LineEdges(order)), w);
    PrefixOverruns(nodes, order, d);
  }

  lemma PrefixOverruns(nodes: seq<Node>, order: seq<NodeId>, d: Node)
    requires UniqueIds(nodes) && d in nodes && NodeDelay(d) < 0
    requires Distinct(order) && forall id :: id in order <==> id in Ids(nodes)
    requires order != [] && order[|order| - 1] == d.id
    ensures Within(nodes, order[..|order| - 1])
    ensures WalkDelay(nodes, order[..|order| - 1]) > TotalDelay(nodes)
  {
    var w := order[..|order| - 1];
    assert order == w + [d.id];
    forall i | 0 <= i < |order| ensures order[i] in Ids(nodes) {
      assert order[i] in order;
    }
    forall i | 0 <= i < |w| ensures w[i] in Ids(nodes) {
      assert w[i] == order[i];
    }
    SimpleWalkDelay(nodes, order);
    WalkDelayConcat(nodes, w, [d.id]);
    SameIdSameNode(nodes, NodeOf(nodes, d.id), d);
  }

  lemma {:induction false} NodeOfDeclared(nodes: seq<Node>, id: NodeId)
    requires id in Ids(nodes)
    ensures NodeOf(nodes, id) in nodes && NodeOf(nodes, id).id == id
  {
    var last := nodes[|nodes| - 1];
    if last.id != id {
      assert nodes == nodes[..|nodes| - 1] + [last];
      NodeOfDeclared(nodes[..|nodes| - 1], id);
    }
  }

  lemma SameIdSameNode(nodes: seq<Node>, a: Node, b: Node)
    requires UniqueIds(nodes) && b in nodes
    ensures a in nodes && a.id == b.id ==> a == b
    ensures a == NodeOf(nodes, b.id) ==> a == b
  {
    NodeOfDeclared(nodes, b.id);
  }

  ghost predicate StepsAlwaysCovered(n: nat) {
    forall g: Graph, w {:trigger FromTrigger(g, w)} ::
      |g.nodes| == n && Publishable(g) == Accepted && FromTrigger(g, w) ==> |w| <= MaxSteps(n)
  }

  /** max_steps covers every walk of every accepted n-node graph exactly up to 500 nodes. */
  lemma StepBudgetExact(n: nat)
    ensures StepsAlwaysCovered(n) <==> n <= 500
  {
    if n <= 500 {
      forall g: Graph, w | |g.nodes| == n && Publishable(g) == Accepted && FromTrigger(g, w)
        ensures |w| <= MaxSteps(n)
      {
        AcceptedWalkFitsBudgets(g, w);
      }
    } else {
      var g, w := LongLine(n);
    }
  }

  /** For every n there is an accepted n-node graph with a walk through all n nodes. */
  lemma LongLine(n: nat) returns (g: Graph, w: seq<NodeId>)
    requires n > 0
    ensures |g.nodes| == |w| == n && Publishable(g) == Accepted && FromTrigger(g, w)
  {
    w := seq(n, i requires 0 <= i < n => Name(i));
    var nodes := seq(n, i requires 0 <= i < n => Node(Name(i), if i == 0 then Trigger else Stop, 0, 0));
    g := Graph(nodes, LineEdges(w));
    assert nodes[0].kind.Trigger?;
    NoMoreTriggers(nodes[1..]);
    assert Triggers(nodes) == [nodes[0]];
    assert forall i :: 0 <= i < n ==> |w[i]| == i;
    forall id ensures id in w <==> id in Ids(nodes) {
      if id in w {
        var i :| 0 <= i < n && w[i] == id;
        assert nodes[i] in nodes;
      }
      if id in Ids(nodes) {
        var i :| 0 <= i < n && nodes[i].id == id;
        assert w[i] in w;
      }
    }
    assert UniqueIds(nodes) by {
      forall i, j | 0 <= i < j < n ensures nodes[i].id != nodes[j].id { assert |Name(i)| != |Name(j)|; }
    }
    LineIsAccepted(nodes, w);
    LinePrefixIsWalk(w, n);
    assert w[..n] == w;
  }

  ghost function Name(i: nat): (id: NodeId)
    ensures |id| == i
  {
    seq(i, _ => 'n')
  }

  lemma {:induction false} NoMoreTriggers(nodes: seq<Node>)
    requires forall n :: n in nodes ==> !n.kind.Trigger?
    ensures Triggers(nodes) == []
  {
    if nodes != [] {
      assert nodes[0] in nodes;
      NoMoreTriggers(nodes[1..]);
    }
  }
}
