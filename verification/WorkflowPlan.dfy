/** The planner `_WorkflowPlanner` of tm/dsl/plan.py, a second translation of a workflow into a
    graph, with labels that wait for their edge in two pending dictionaries. */
module WorkflowPlan {
  import opened Collections
  import opened Wdl
  import opened Names

  datatype PlanNode = CallNode(target: string) | ConditionNode(text: string)
  datatype PlanEdge = PlanEdge(src: string, dst: string, text: Option<string>)

  /** The planner's fields. */
  datatype Plan = Plan(
    nodes: map<string, PlanNode>,
    edges: seq<PlanEdge>,
    counter: nat,
    entry: Option<string>,
    truePending: map<string, string>,
    falsePending: map<string, string>)

  const EMPTY := Plan(map[], [], 0, None, map[], map[])

  function IfText(text: string): string { "if " + text }
  function ElseText(text: string): string { "else not(" + text + ")" }

  /** The label that the next edge out of `src` takes. */
  function NextText(p: Plan, src: string): Option<string> {
    if src in p.truePending then Some(p.truePending[src])
    else if src in p.falsePending then Some(p.falsePending[src])
    else None
  }

  /** Add one edge and consume the label that was pending for it. */
  function ConnectOne(p: Plan, src: string, dst: string): Plan {
    var edges := p.edges + [PlanEdge(src, dst, NextText(p, src))];
    if src in p.truePending then p.(edges := edges, truePending := p.truePending - {src})
    else p.(edges := edges, falsePending := p.falsePending - {src})
  }

  function ConnectAll(p: Plan, sources: seq<string>, dst: string): Plan
    decreases sources
  {
    if sources == [] then p else ConnectAll(ConnectOne(p, sources[0], dst), sources[1..], dst)
  }

  function Connect(p: Plan, sources: seq<string>, dst: string): Plan {
    if sources == [] && p.entry.None? then p.(entry := Some(dst)) else ConnectAll(p, sources, dst)
  }

  function PlanCall(p: Plan, id: string, target: string, prev: seq<string>): Plan {
    var p1 := if id in p.nodes then p else p.(nodes := p.nodes[id := CallNode(target)]);
    var p2 := Connect(p1, prev, id);
    if p2.entry.None? then p2.(entry := Some(id)) else p2
  }

  /** Up to the moment when the branch body is processed. `Connect` has already set the entry when
      there is nothing to continue, so the source's second test for that can never succeed. */
  function OpenWhen(p: Plan, c: Condition, prev: seq<string>): Plan {
    var id := Name("when", p.counter);
    var p0 := p.(counter := p.counter + 1);
    var p1 := if id in p.nodes then p0 else p0.(nodes := p.nodes[id := ConditionNode(c.text)]);
    var p2 := Connect(p1, prev, id);
    p2.(truePending := p2.truePending[id := IfText(c.text)], falsePending := p2.falsePending[id := ElseText(c.text)])
  }

  /** A block: the plan after it and the exits that the next step continues. */
  function PlanBlock(p: Plan, steps: seq<Step>, exits: seq<string>): (Plan, seq<string>)
    decreases steps, 0
  {
    if steps == [] then (p, exits)
    else
      var (p1, exits1) := PlanStep(p, steps[0], exits);
      PlanBlock(p1, steps[1..], exits1)
  }

  function PlanStep(p: Plan, step: Step, prev: seq<string>): (Plan, seq<string>)
    decreases step, 1
  {
    match step
    case Call(id, target, _) => (PlanCall(p, id, target, prev), [id])
    case When(c, body) =>
      var id := Name("when", p.counter);
      var (p1, exits) := PlanBlock(OpenWhen(p, c, prev), body, [id]);
      (p1.(truePending := p1.truePending - {id}), [id] + exits)
  }

  class Planner {
    var nodes: map<string, PlanNode>
    var edges: seq<PlanEdge>
    var counter: nat
    var entry: Option<string>
    var truePending: map<string, string>
    var falsePending: map<string, string>

    ghost function Now(): Plan
      reads this
    {
      Plan(nodes, edges, counter, entry, truePending, falsePending)
    }

    constructor ()
      ensures Now() == EMPTY
    {
      nodes, edges, counter, entry := map[], [], 0, None;
      truePending, falsePending := map[], map[];
    }

    method Build(w: Workflow)
      requires Now() == EMPTY
      modifies this
      ensures Now() == PlanBlock(EMPTY, w.steps, []).0
    {
      var _ := ProcessSequence(w.steps, []);
    }

    method ProcessSequence(steps: seq<Step>, prev: seq<string>) returns (exits: seq<string>)
      modifies this
      ensures (Now(), exits) == PlanBlock(old(Now()), steps, prev)
      decreases steps, 0
    {
      exits := prev;
      var i := 0;
      assert steps[0..] == steps;
      while i < |steps|
        invariant 0 <= i <= |steps|
        invariant PlanBlock(Now(), steps[i..], exits) == PlanBlock(old(Now()), steps, prev)
      {
        match steps[i] {
          case Call(id, target, _) => exits := ProcessCall(id, target, exits);
          case When(c, body) => exits := ProcessWhen(c, body, exits);
        }
        i := i + 1;
      }
    }

    method ProcessCall(id: StepId, target: string, prev: seq<string>) returns (exits: seq<string>)
      modifies this
      ensures Now() == PlanCall(old(Now()), id, target, prev) && exits == [id]
    {
      if id !in nodes {
        nodes := nodes[id := CallNode(target)];
      }
      ConnectTo(prev, id);
      if entry == None {
        entry := Some(id);
      }
      exits := [id];
    }

    method ProcessWhen(c: Condition, body: seq<Step>, prev: seq<string>) returns (exits: seq<string>)
      modifies this
      ensures (Now(), exits) == PlanStep(old(Now()), When(c, body), prev)
      decreases body, 1
    {
      var id := Name("when", counter);
      counter := counter + 1;
      if id !in nodes {
        nodes := nodes[id := ConditionNode(c.text)];
      }
      ConnectTo(prev, id);
      truePending := truePending[id := IfText(c.text)];
      falsePending := falsePending[id := ElseText(c.text)];
      assert Now() == OpenWhen(old(Now()), c, prev);
      var branchExits := ProcessSequence(body, [id]);
      truePending := truePending - {id};
      exits := [id] + branchExits;
    }

    method ConnectTo(sources: seq<string>, dst: string)
      modifies this
      ensures Now() == Connect(old(Now()), sources, dst)
    {
      if sources == [] {
        if entry == None {
          entry := Some(dst);
        }
        return;
      }
      var i := 0;
      while i < |sources|
        invariant 0 <= i <= |sources|
        invariant ConnectAll(Now(), sources[i..], dst) == ConnectAll(old(Now()), sources, dst)
      {
        ghost var before := Now();
        var src := sources[i];
        var text: Option<string> := None;
        if src in truePending {
          text := Some(truePending[src]);
          truePending := truePending - {src};
        } else if src in falsePending {
          text := Some(falsePending[src]);
          falsePending := falsePending - {src};
        }
        edges := edges + [PlanEdge(src, dst, text)];
        assert src !in before.falsePending ==> before.falsePending - {src} == before.falsePending;
        assert Now() == ConnectOne(before, src, dst);
        i := i + 1;
      }
    }
  }
}
