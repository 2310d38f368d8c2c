/** The workflow analyzer of tm/dsl/lint.py: scopes of step references, the graph of calls, and
    the reachability and cycle passes. */
module Lint {
  import opened Collections
  import opened Graphs
  import opened Wdl

  datatype Issue =
    | DuplicateStepId(id: string)
    | MissingInput(name: string)
    | UnknownStepRef(name: string)
    | EmptyBranch
    | NoCallSteps
    | UnreachableStep(id: string)
    | CycleDetected(id: string)

  // ---------------------------------------------------------------- reference checks

  /** Scalars of a node in source order. */
  function Scalars(n: Node): seq<Scalar>
    decreases n, 1
  {
    match n
    case Leaf(s) => [s]
    case Mapping(es) => EntriesScalars(es)
    case Sequence(ns) => ItemScalars(ns)
  }

  function ItemScalars(ns: seq<Node>): seq<Scalar>
    decreases ns, 0
  {
    if ns == [] then [] else Scalars(ns[0]) + ItemScalars(ns[1..])
  }

  function EntriesScalars(es: seq<Entry>): seq<Scalar>
    decreases es, 0
  {
    if es == [] then [] else EntryScalars(es[0]) + EntriesScalars(es[1..])
  }

  function EntryScalars(e: Entry): seq<Scalar>
    decreases e, 2
  {
    Scalars(e.value)
  }

  function RefIssues(r: Ref, inputs: set<string>, scope: set<string>): seq<Issue> {
    match r
    case InputRef(n) => if n in inputs then [] else [MissingInput(n)]
    case StepRef(n) => if n in scope then [] else [UnknownStepRef(n)]
  }

  function ScalarIssues(ss: seq<Scalar>, inputs: set<string>, scope: set<string>): seq<Issue> {
    if ss == [] then []
    else (match ss[0] case Reference(r) => RefIssues(r, inputs, scope) case Literal(_) => [])
         + ScalarIssues(ss[1..], inputs, scope)
  }

  /** Steps in scope after a step: a call adds itself, a branch adds nothing. */
  function ScopeAfter(step: Step, scope: set<string>): set<string> {
    match step
    case Call(id, _, _) => scope + {id}
    case When(_, _) => scope
  }

  function BlockScope(steps: seq<Step>, scope: set<string>): set<string>
    decreases steps
  {
    if steps == [] then scope else BlockScope(steps[1..], ScopeAfter(steps[0], scope))
  }

  /** Issues of the traversal; `seen` holds the call ids met before. */
  function BlockIssues(steps: seq<Step>, inputs: set<string>, scope: set<string>, seen: set<string>): seq<Issue>
    decreases steps, 0
  {
    if steps == [] then []
    else StepIssues(steps[0], inputs, scope, seen)
         + BlockIssues(steps[1..], inputs, ScopeAfter(steps[0], scope), seen + ToSet(StepCallIds(steps[0])))
  }

  function StepIssues(step: Step, inputs: set<string>, scope: set<string>, seen: set<string>): seq<Issue>
    decreases step, 1
  {
    match step
    case Call(id, _, args) =>
      (if id in seen then [DuplicateStepId(id)] else []) + ScalarIssues(EntriesScalars(args), inputs, scope)
    case When(c, body) =>
      RefIssues(c.key, inputs, scope)
      + (if body == [] then [EmptyBranch] else BlockIssues(body, inputs, scope, seen))
  }

  // ---------------------------------------------------------------- the call graph

  function FirstCall(steps: seq<Step>): Option<string>
    decreases steps, 0
  {
    if steps == [] then None
    else match StepFirstCall(steps[0]) case Some(id) => Some(id) case None => FirstCall(steps[1..])
  }

  function StepFirstCall(step: Step): Option<string>
    decreases step, 1
  {
    match step
    case Call(id, _, _) => Some(id)
    case When(_, body) => FirstCall(body)
  }

  /** Calls after which control can leave the block, when it is entered from `prev`. */
  function CallExits(steps: seq<Step>, prev: set<string>): set<string>
    decreases steps, 0
  {
    if steps == [] then prev else CallExits(steps[1..], StepCallExits(steps[0], prev))
  }

  function StepCallExits(step: Step, prev: set<string>): set<string>
    decreases step, 1
  {
    match step
    case Call(id, _, _) => {id}
    case When(_, body) => prev + CallExits(body, {})
  }

  function Fan(prev: set<string>, dst: Option<string>): Rel {
    if dst.None? then {} else set p | p in prev :: (p, dst.value)
  }

  /** Edges of the call graph for a block that is entered from `prev`. */
  function CallEdges(steps: seq<Step>, prev: set<string>): Rel
    decreases steps, 0
  {
    if steps == [] then {}
    else StepCallEdges(steps[0], prev) + CallEdges(steps[1..], StepCallExits(steps[0], prev))
  }

  function StepCallEdges(step: Step, prev: set<string>): Rel
    decreases step, 1
  {
    match step
    case Call(id, _, _) => Fan(prev, Some(id))
    case When(_, body) => CallEdges(body, {}) + Fan(prev, FirstCall(body))
  }

  lemma {:induction false} FirstCallIsFirst(steps: seq<Step>)
    ensures FirstCall(steps).Some? <==> CallIds(steps) != []
    ensures FirstCall(steps).Some? ==> FirstCall(steps).value == CallIds(steps)[0]
    decreases steps, 0
  {
    if steps != [] {
      if steps[0].When? { FirstCallIsFirst(steps[0].body); }
      FirstCallIsFirst(steps[1..]);
    }
  }

  /** Exits are entries or calls of the block; a block with a call has an exit. */
  lemma {:induction false} ExitsAreCalls(steps: seq<Step>, prev: set<string>)
    ensures CallExits(steps, prev) <= prev + ToSet(CallIds(steps))
    ensures FirstCall(steps).Some? || prev != {} ==> CallExits(steps, prev) != {}
    decreases steps, 0
  {
    if steps != [] {
      var step, next := steps[0], StepCallExits(steps[0], prev);
      if step.When? { ExitsAreCalls(step.body, {}); }
      ExitsAreCalls(steps[1..], next);
      if step.Call? {
        assert step.id in next;
      } else if FirstCall(step.body).Some? {
        var x :| x in CallExits(step.body, {});
        assert x in next;
      } else {
        assert StepFirstCall(step) == None;
        assert prev <= next;
      }
    }
  }

  /** Edges go from an entry or an earlier call to a later call, in source order. */
  lemma {:induction false} CallEdgesForward(steps: seq<Step>, prev: set<string>, before: seq<string>)
    requires forall p :: p in prev ==> p in before
    ensures Forward(CallEdges(steps, prev), before + CallIds(steps))
    decreases steps, 0
  {
    if steps != [] {
      var step, rest := steps[0], steps[1..];
      var ids, next := StepCallIds(step), StepCallExits(step, prev);
      StepCallEdgesForward(step, prev, before);
      assert forall p :: p in next ==> p in before + ids by {
        if step.When? { ExitsAreCalls(step.body, {}); }
      }
      CallEdgesForward(rest, next, before + ids);
      SeqPlus(before, ids, CallIds(rest));
      forall a, b | (a, b) in StepCallEdges(step, prev) ensures Before(before + CallIds(steps), a, b) {
        BeforeLeft(before + ids, CallIds(rest), a, b);
      }
    }
  }

  lemma {:induction false} StepCallEdgesForward(step: Step, prev: set<string>, before: seq<string>)
    requires forall p :: p in prev ==> p in before
    ensures Forward(StepCallEdges(step, prev), before + StepCallIds(step))
    decreases step, 1
  {
    match step
    case Call(id, _, _) =>
      forall a, b | (a, b) in Fan(prev, Some(id)) ensures Before(before + [id], a, b) {
        BeforeAcross(before, [id], a, b);
      }
    case When(_, body) =>
      CallEdgesForward(body, {}, []);
      FirstCallIsFirst(body);
      assert [] + CallIds(body) == CallIds(body);
      forall a, b | (a, b) in StepCallEdges(step, prev) ensures Before(before + CallIds(body), a, b) {
        if (a, b) in CallEdges(body, {}) {
          BeforeRight(before, CallIds(body), a, b);
        } else {
          BeforeAcross(before, CallIds(body), a, b);
        }
      }
  }

  /** Everything in the block is reachable from where control comes in: from each entry, or from
      the block's first call when there is none. */
  lemma {:induction false} CallsReachable(rel: Rel, steps: seq<Step>, prev: set<string>, from: string, id: string)
    requires CallEdges(steps, prev) <= rel
    requires forall p :: p in prev ==> Reach(rel, from, p)
    requires prev == {} ==> FirstCall(steps) == None || FirstCall(steps) == Some(from)
    requires id in ToSet(CallIds(steps)) + CallExits(steps, prev)
    ensures Reach(rel, from, id)
    decreases steps, 0
  {
    if steps != [] {
      var step, rest := steps[0], steps[1..];
      var next := StepCallExits(step, prev);
      assert StepCallEdges(step, prev) <= rel && CallEdges(rest, next) <= rel;
      forall x | x in next || x in StepCallIds(step) ensures Reach(rel, from, x) {
        StepCallsReachable(rel, step, prev, from, x);
      }
      if next == {} { assert step.When?; ExitsAreCalls(step.body, {}); }
      if id !in StepCallIds(step) { CallsReachable(rel, rest, next, from, id); }
    }
  }

  lemma {:induction false} StepCallsReachable(rel: Rel, step: Step, prev: set<string>, from: string, id: string)
    requires StepCallEdges(step, prev) <= rel
    requires forall p :: p in prev ==> Reach(rel, from, p)
    requires prev == {} ==> StepFirstCall(step) == None || StepFirstCall(step) == Some(from)
    requires id in StepCallIds(step) || id in StepCallExits(step, prev)
    ensures Reach(rel, from, id)
    decreases step, 1
  {
    match step
    case Call(i, _, _) =>
      if prev == {} {
        ReachSelf(rel, from);
      } else {
        var p :| p in prev;
        assert (p, i) in Fan(prev, Some(i));
        ReachStep(rel, from, p, i);
      }
    case When(_, body) =>
      if id !in prev {
        ExitsAreCalls(body, {});
        FirstCallIsFirst(body);
        var first := FirstCall(body).value;
        if prev == {} {
          ReachSelf(rel, from);
        } else {
          var p :| p in prev;
          assert (p, first) in Fan(prev, FirstCall(body));
          ReachStep(rel, from, p, first);
        }
        CallsReachable(rel, body, {}, first, id);
        ReachTrans(rel, from, first, id);
      }
  }

  /** With distinct call ids the call graph has no cycle and its first call reaches every call. */
  lemma CallGraphIsSound(steps: seq<Step>)
    requires NoDup(CallIds(steps))
    ensures Acyclic(CallEdges(steps, {}))
    ensures forall id :: id in CallIds(steps) ==> Reach(CallEdges(steps, {}), CallIds(steps)[0], id)
  {
    var rel := CallEdges(steps, {});
    CallEdgesForward(steps, {}, []);
    assert [] + CallIds(steps) == CallIds(steps);
    ForwardIsAcyclic(rel, CallIds(steps));
    FirstCallIsFirst(steps);
    forall id | id in CallIds(steps) ensures Reach(rel, CallIds(steps)[0], id) {
      CallsReachable(rel, steps, {}, CallIds(steps)[0], id);
    }
  }
}
