/** Publishing, updating and pausing an automation, and what an active one may be assumed
    to satisfy when a run is queued for it. */
module AutomationLifecycle {
  import opened AutomationGraph
  import opened AutomationBudgets
  import opened Common
  import AutomationCheck

  datatype Status = Draft | Active | Paused | Archived

  datatype Automation = Automation(status: Status, graph: Graph, version: nat)

  /** max_steps, and minutes from the moment of queueing to deadline_at. */
  datatype RunBudget = RunBudget(maxSteps: int, deadlineMinutes: int)

  datatype Step =
    | Publish
    | Update(status: Option<Status>, graph: Option<Graph>)
    | Pause

  /** One service call. A publish that raises leaves the row as it was. */
  ghost function After(a: Automation, step: Step): Automation {
    match step
    case Publish =>
      if Publishable(a.graph) == Accepted then a.(status := Active, version := a.version + 1) else a
    case Update(status, graph) =>
      var status1 := if status.Some? then status.value else a.status;
      Automation(
        if status1 == Active && graph.Some? then Draft else status1,
        if graph.Some? then graph.value else a.graph,
        a.version + 1)
    case Pause => a.(status := Paused)
  }

  ghost function Run(a: Automation, steps: seq<Step>): Automation
    decreases |steps|
  {
    if steps == [] then a else Run(After(a, steps[0]), steps[1..])
  }

  ghost function Budget(g: Graph): RunBudget {
    RunBudget(MaxSteps(|g.nodes|), DeadlineMinutes(TotalDelay(g.nodes)))
  }

  class AutomationRow {
    var status: Status
    var graph: Graph
    var version: nat

    ghost function View(): Automation
      reads this
    {
      Automation(status, graph, version)
    }

    constructor (graph: Graph)
      ensures View() == Automation(Draft, graph, 1)
    {
      status, version := Draft, 1;
      this.graph := graph;
    }

    method PublishAutomation() returns (verdict: Verdict)
      modifies this
      ensures verdict == Publishable(old(graph))
      ensures View() == After(old(View()), Publish)
    {
      verdict := AutomationCheck.ValidatePublishableGraph(graph);
      if verdict.Accepted? {
        status := Active;
        version := version + 1;
      }
    }

    method UpdateAutomation(newStatus: Option<Status>, newGraph: Option<Graph>)
      modifies this
      ensures View() == After(old(View()), Update(newStatus, newGraph))
    {
      if newStatus.Some? {
        status := newStatus.value;
      }
      if newGraph.Some? {
        graph := newGraph.value;
      }
      version := version + 1;
      if status == Active && newGraph.Some? {
        status := Draft;
      }
    }

    method PauseAutomation()
      modifies this
      ensures View() == After(old(View()), Pause)
    {
      status := Paused;
    }

    /** None stands for the graph error raised before any run is created. */
    method CreateTestRun() returns (run: Option<RunBudget>)
      ensures run == if Publishable(graph) == Accepted then Some(Budget(graph)) else None
    {
      var verdict := AutomationCheck.ValidatePublishableGraph(graph);
      if !verdict.Accepted? {
        return None;
      }
      var delay := EstimateGraphDelaySeconds(graph.nodes);
      run := Some(RunBudget(MaxSteps(|graph.nodes|), DeadlineMinutes(delay)));
    }
  }

  // ----- runs

  ghost predicate ActiveIsAccepted(a: Automation) {
    a.status == Active ==> Publishable(a.graph) == Accepted
  }

  /** The only update that can leave an unchecked graph active sets the status to active and
      brings no graph, while the stored graph does not pass the check. */
  ghost predicate ActivatesUnchecked(a: Automation, step: Step) {
    step.Update? && step.status == Some(Active) && step.graph.None? && Publishable(a.graph) != Accepted
  }

  lemma StepKeepsAccepted(a: Automation, step: Step)
    requires ActiveIsAccepted(a)
    ensures ActiveIsAccepted(After(a, step)) <==> !ActivatesUnchecked(a, step)
  {
  }

  /** The automation as the i-th step meets it. */
  ghost function Before(a: Automation, steps: seq<Step>, i: nat): Automation
    requires i <= |steps|
  {
    Run(a, steps[..i])
  }

  lemma {:induction false} RunAppend(a: Automation, steps: seq<Step>, step: Step)
    ensures Run(a, steps + [step]) == After(Run(a, steps), step)
    decreases |steps|
  {
    if steps == [] {
      assert steps + [step] == [step];
    } else {
      assert (steps + [step])[1..] == steps[1..] + [step];
      RunAppend(After(a, steps[0]), steps[1..], step);
    }
  }

  lemma BeforeNext(a: Automation, steps: seq<Step>, i: nat)
    requires i < |steps|
    ensures Before(a, steps, i + 1) == After(Before(a, steps, i), steps[i])
  {
    assert steps[..i + 1] == steps[..i] + [steps[i]];
    RunAppend(a, steps[..i], steps[i]);
  }

  lemma {:induction false} AcceptedUpTo(a: Automation, steps: seq<Step>, i: nat)
    requires ActiveIsAccepted(a) && i <= |steps|
    requires forall j :: 0 <= j < i ==> !ActivatesUnchecked(Before(a, steps, j), steps[j])
    ensures ActiveIsAccepted(Before(a, steps, i))
  {
    if i > 0 {
      AcceptedUpTo(a, steps, i - 1);
      BeforeNext(a, steps, i - 1);
      StepKeepsAccepted(Before(a, steps, i - 1), steps[i - 1]);
    }
  }

  /** Throughout a history an active automation has an accepted graph exactly when no step meets
      an unaccepted graph and activates it without bringing another. */
  lemma AcceptedThroughout(a: Automation, steps: seq<Step>)
    requires ActiveIsAccepted(a)
    ensures (forall i :: 0 <= i <= |steps| ==> ActiveIsAccepted(Before(a, steps, i)))
            <==> (forall i :: 0 <= i < |steps| ==> !ActivatesUnchecked(Before(a, steps, i), steps[i]))
  {
    if forall i :: 0 <= i < |steps| ==> !ActivatesUnchecked(Before(a, steps, i), steps[i]) {
      forall i | 0 <= i <= |steps| ensures ActiveIsAccepted(Before(a, steps, i)) {
        AcceptedUpTo(a, steps, i);
      }
    } else {
      var i :| 0 <= i < |steps| && ActivatesUnchecked(Before(a, steps, i), steps[i]);
      BeforeNext(a, steps, i);
      if ActiveIsAccepted(Before(a, steps, i)) {
        StepKeepsAccepted(Before(a, steps, i), steps[i]);
        assert !ActiveIsAccepted(Before(a, steps, i + 1));
      }
    }
  }

  /** Such a history: a draft created with an empty graph, and one bare update. */
  lemma EmptyGraphActivates()
    ensures var draft := Automation(Draft, Graph([], []), 1);
            var run := Run(draft, [Update(Some(Active), None)]);
            run.status == Active && Publishable(run.graph) == Rejected(GraphEmpty)
  {
    var draft := Automation(Draft, Graph([], []), 1);
    assert Run(draft, [Update(Some(Active), None)]) == After(draft, Update(Some(Active), None));
  }

  /** An inactive automation is activated by a publish of an accepted graph, by a bare update of
      the status, and by nothing else; pausing always deactivates. */
  lemma ActivatedExactly(a: Automation, step: Step)
    ensures a.status != Active ==>
              (After(a, step).status == Active <==>
                (step == Publish && Publishable(a.graph) == Accepted) || step == Update(Some(Active), None))
    ensures step == Pause ==> After(a, step).status == Paused && After(a, step).graph == a.graph
    ensures step.Update? && step.graph.Some? ==>
              After(a, step).graph == step.graph.value && After(a, step).status != Active
    ensures !(step.Update? && step.graph.Some?) ==> After(a, step).graph == a.graph
  {
  }

  /** How many steps of the history publish or update with effect. */
  ghost function Edits(a: Automation, steps: seq<Step>): nat
    decreases |steps|
  {
    if steps == [] then 0
    else
      var first := if steps[0] == Pause || (steps[0] == Publish && Publishable(a.graph) != Accepted) then 0 else 1;
      first + Edits(After(a, steps[0]), steps[1..])
  }

  lemma {:induction false} VersionCountsEdits(a: Automation, steps: seq<Step>)
    ensures Run(a, steps).version == a.version + Edits(a, steps)
    decreases |steps|
  {
    if steps != [] {
      VersionCountsEdits(After(a, steps[0]), steps[1..]);
    }
  }

  /** An update that forces the status to active without a graph never occurs in the run. */
  ghost predicate NeverForcesActive(steps: seq<Step>) {
    forall i :: 0 <= i < |steps| ==> !(steps[i].Update? && steps[i].status == Some(Active) && steps[i].graph.None?)
  }

  /** A run queued for an active automation has budgets that cover every walk of its graph,
      in every history in which no bare update forces the status to active. */
  lemma {:induction false} ActiveRunsAreCovered(a: Automation, steps: seq<Step>)
    requires ActiveIsAccepted(a) && NeverForcesActive(steps)
    ensures ActiveIsAccepted(Run(a, steps))
    ensures var b := Run(a, steps);
            b.status == Active && NonNegativeDelays(b.graph.nodes) && |b.graph.nodes| <= 500 ==>
              forall w :: FromTrigger(b.graph, w) ==>
                && Within(b.graph.nodes, w)
                && |w| <= Budget(b.graph).maxSteps
                && WalkDelay(b.graph.nodes, w) + 14 * 60 <= Budget(b.graph).deadlineMinutes * 60
    decreases |steps|
  {
    if steps == [] {
      if a.status == Active {
        forall w | FromTrigger(a.graph, w) ensures Within(a.graph.nodes, w) &&
            (NonNegativeDelays(a.graph.nodes) && |a.graph.nodes| <= 500 ==>
              && |w| <= Budget(a.graph).maxSteps
              && WalkDelay(a.graph.nodes, w) + 14 * 60 <= Budget(a.graph).deadlineMinutes * 60)
        {
          AcceptedWalkFitsBudgets(a.graph, w);
        }
      }
    } else {
      assert !ActivatesUnchecked(a, steps[0]);
      StepKeepsAccepted(a, steps[0]);
      ActiveRunsAreCovered(After(a, steps[0]), steps[1..]);
    }
  }
}
