/** The class `_WorkflowAnalyzer` of tm/dsl/lint.py: one traversal that updates issues, adjacency
    and scopes in place, then a breadth-first reachability pass and a depth-first cycle pass. */
module LintAnalyzer {
  import opened Collections
  import opened StringOrder
  import opened Graphs
  import opened Wdl
  import opened Lint
  import opened LintScope

  /** The pairs of an adjacency dictionary. */
  ghost function RelOf(adjacency: map<string, set<string>>): Rel {
    set a, b | a in adjacency && b in adjacency[a] :: (a, b)
  }

  function Successors(adjacency: map<string, set<string>>, a: string): set<string> {
    if a in adjacency then adjacency[a] else {}
  }

  /** `adjacency.setdefault(a, set()).add(b)` */
  function WithPair(adjacency: map<string, set<string>>, a: string, b: string): map<string, set<string>> {
    adjacency[a := Successors(adjacency, a) + {b}]
  }

  lemma WithPairRel(adjacency: map<string, set<string>>, a: string, b: string)
    ensures RelOf(WithPair(adjacency, a, b)) == RelOf(adjacency) + {(a, b)}
  {
    var after := WithPair(adjacency, a, b);
    forall x, y ensures (x, y) in RelOf(after) <==> (x, y) in RelOf(adjacency) + {(a, b)} {
      if x in adjacency { assert x in after; }
    }
  }

  /** Record ids in order, leaving out those already present. */
  function Record(known: seq<string>, ids: seq<string>): seq<string>
    decreases ids
  {
    if ids == [] then known
    else Record(if ids[0] in known then known else known + [ids[0]], ids[1..])
  }

  lemma {:induction false} RecordAppend(known: seq<string>, a: seq<string>, b: seq<string>)
    ensures Record(Record(known, a), b) == Record(known, a + b)
    decreases a
  {
    if a == [] {
      assert a + b == b;
    } else {
      assert (a + b)[1..] == a[1..] + b;
      RecordAppend(if a[0] in known then known else known + [a[0]], a[1..], b);
    }
  }

  lemma {:induction false} RecordIs(known: seq<string>, ids: seq<string>)
    ensures known <= Record(known, ids)
    ensures ToSet(Record(known, ids)) == ToSet(known) + ToSet(ids)
    ensures NoDup(known) && NoDup(ids) && ToSet(known) !! ToSet(ids) ==> Record(known, ids) == known + ids
    decreases ids
  {
    if ids != [] {
      var next := if ids[0] in known then known else known + [ids[0]];
      RecordIs(next, ids[1..]);
      assert ToSet(ids) == {ids[0]} + ToSet(ids[1..]);
      assert ToSet(next) == ToSet(known) + {ids[0]};
      if NoDup(known) && NoDup(ids) && ToSet(known) !! ToSet(ids) {
        assert ids[0] in ToSet(ids);
        assert ids[0] !in ids[1..];
        NoDupAppend(known, [ids[0]]);
        SeqShift(known, ids);
      }
    }
  }

  // ---------------------------------------------------------------- depth-first order

  /** Nodes in the order in which the search finished them: successors come first. */
  ghost predicate Finished(rel: Rel, done: seq<string>) {
    NoDup(done) && forall i, b :: 0 <= i < |done| && (done[i], b) in rel ==> b in done[..i]
  }

  lemma {:induction false} FinishedPath(rel: Rel, done: seq<string>, p: seq<string>, i: nat)
    requires Finished(rel, done) && IsPath(rel, p) && |p| > 1 && i < |done| && p[0] == done[i]
    ensures p[|p| - 1] in done[..i]
  {
    assert (p[0], p[1]) in rel;
    assert (done[i], p[1]) in rel;
    var j :| 0 <= j < i && done[j] == p[1];
    if |p| > 2 {
      FinishedPath(rel, done, p[1..], j);
      assert done[..j] <= done[..i];
    }
  }

  /** A graph whose sources have all been finished has no cycle. */
  lemma FinishedIsAcyclic(rel: Rel, done: seq<string>)
    requires Finished(rel, done) && forall a, b :: (a, b) in rel ==> a in done
    ensures Acyclic(rel)
  {
    forall a | ReachPlus(rel, a, a) ensures false {
      var p :| PathBetween(rel, p, a, a) && |p| > 1;
      assert (p[0], p[1]) in rel;
      var i :| 0 <= i < |done| && done[i] == a;
      FinishedPath(rel, done, p, i);
    }
  }

  // ---------------------------------------------------------------- what the graph passes report

  /** Steps from a cycle back along edges: the first lies on a cycle, each other leads to the one before. */
  ghost predicate CycleTrail(rel: Rel, trail: seq<string>) {
    trail != [] && ReachPlus(rel, trail[0], trail[0]) && forall i :: 0 < i < |trail| ==> (trail[i], trail[i - 1]) in rel
  }

  function CycleIssues(trail: seq<string>): seq<Issue> {
    seq(|trail|, i requires 0 <= i < |trail| => CycleDetected(trail[i]))
  }

  function UnreachableIssues(lost: seq<string>): seq<Issue> {
    seq(|lost|, i requires 0 <= i < |lost| => UnreachableStep(lost[i]))
  }

  lemma CycleIssuesSnoc(trail: seq<string>, s: string)
    ensures CycleIssues(trail + [s]) == CycleIssues(trail) + [CycleDetected(s)]
  {
  }

  /** The reachability pass: the calls that the entry does not reach, in ascending order. */
  ghost predicate ReachReport(w: Workflow, located: seq<string>, rel: Rel, part: seq<Issue>) {
    if located == [] then part == if w.steps != [] then [NoCallSteps] else []
    else exists lost ::
      && NoDup(lost) && SortedBy(lost, Leq) && part == UnreachableIssues(lost)
      && forall id :: id in lost <==> id in located && !Reach(rel, located[0], id)
  }

  /** The cycle pass: nothing without a cycle, a trail to one otherwise. */
  ghost predicate CycleReport(rel: Rel, part: seq<Issue>) {
    if Acyclic(rel) then part == [] else exists trail :: CycleTrail(rel, trail) && part == CycleIssues(trail)
  }

  lemma HeadIn(s: seq<string>)
    ensures s == [] || s[0] in s
  {
  }

  lemma NothingLost(w: Workflow, located: seq<string>, rel: Rel, part: seq<Issue>)
    requires located != [] && ReachReport(w, located, rel, part)
    requires forall id :: id in located ==> Reach(rel, located[0], id)
    ensures part == []
  {
    var lost :| NoDup(lost) && part == UnreachableIssues(lost) &&
      forall id :: id in lost <==> id in located && !Reach(rel, located[0], id);
    HeadIn(lost);
  }

  // ---------------------------------------------------------------- the traversal as a fold

  /** What the traversal carries along. */
  datatype Progress = Progress(
    exits: set<string>, scope: set<string>, issues: seq<Issue>, located: seq<string>, rel: Rel)

  function AfterStep(p: Progress, step: Step, inputs: set<string>): Progress {
    Progress(StepCallExits(step, p.exits), ScopeAfter(step, p.scope),
      p.issues + StepIssues(step, inputs, p.scope, ToSet(p.located)),
      Record(p.located, StepCallIds(step)), p.rel + StepCallEdges(step, p.exits))
  }

  /** Where the traversal of a block ends. */
  function Goal(p: Progress, steps: seq<Step>, inputs: set<string>): Progress {
    Progress(CallExits(steps, p.exits), BlockScope(steps, p.scope),
      p.issues + BlockIssues(steps, inputs, p.scope, ToSet(p.located)),
      Record(p.located, CallIds(steps)), p.rel + CallEdges(steps, p.exits))
  }

  lemma GoalIs(p: Progress, steps: seq<Step>, inputs: set<string>)
    ensures var g := Goal(p, steps, inputs);
      && g.exits == CallExits(steps, p.exits) && g.scope == BlockScope(steps, p.scope)
      && g.issues == p.issues + BlockIssues(steps, inputs, p.scope, ToSet(p.located))
      && g.located == Record(p.located, CallIds(steps)) && g.rel == p.rel + CallEdges(steps, p.exits)
  {
    hide CallExits, BlockScope, BlockIssues, Record, CallEdges;
  }

  lemma GoalNone(p: Progress, inputs: set<string>)
    ensures Goal(p, [], inputs) == p
  {
    assert p.issues + [] == p.issues && p.rel + {} == p.rel;
  }

  lemma GoalStep(p: Progress, steps: seq<Step>, inputs: set<string>)
    requires steps != []
    ensures Goal(AfterStep(p, steps[0], inputs), steps[1..], inputs) == Goal(p, steps, inputs)
  {
    hide StepCallExits, StepIssues, Record, StepCallEdges, ScopeAfter, StepCallIds, ToSet;
    var step, rest := steps[0], steps[1..];
    var q := AfterStep(p, step, inputs);
    RecordIs(p.located, StepCallIds(step));
    RecordAppend(p.located, StepCallIds(step), CallIds(rest));
    SeqPlus(p.issues, StepIssues(step, inputs, p.scope, ToSet(p.located)),
      BlockIssues(rest, inputs, q.scope, ToSet(q.located)));
    RelPlus(p.rel, StepCallEdges(step, p.exits), CallEdges(rest, q.exits));
  }

  lemma RelPlus(a: Rel, b: Rel, c: Rel)
    ensures (a + b) + c == a + (b + c)
  {
  }

  class Analyzer {
    const workflow: Workflow
    var issues: seq<Issue>
    var adjacency: map<string, set<string>>
    var located: seq<string>        // keys of `step_locations`, in insertion order
    var entry: Option<string>

    ghost predicate Valid()
      reads this
    {
      entry == if located == [] then None else Some(located[0])
    }

    constructor (w: Workflow)
      ensures workflow == w && Valid()
      ensures issues == [] && located == [] && RelOf(adjacency) == {}
    {
      workflow := w;
      issues, adjacency, located, entry := [], map[], [], None;
    }

    // -------------------------------------------------------------- traversal

    method ProcessSequence(steps: seq<Step>, defined: set<string>, prevExits: set<string>)
        returns (exits: set<string>, scope: set<string>)
      requires Valid()
      modifies this
      ensures Valid()
      ensures exits == CallExits(steps, prevExits) && scope == BlockScope(steps, defined)
      ensures issues == old(issues) + BlockIssues(steps, workflow.inputs, defined, ToSet(old(located)))
      ensures located == Record(old(located), CallIds(steps))
      ensures RelOf(adjacency) == old(RelOf(adjacency)) + CallEdges(steps, prevExits)
      decreases steps, 0
    {
      hide Goal, BlockIssues, CallExits, CallEdges, BlockScope, StepIssues, Record, RelOf, ToSet, CallIds;
      exits, scope := prevExits, defined;
      ghost var start := Progress(exits, scope, issues, located, RelOf(adjacency));
      ghost var goal := Goal(start, steps, workflow.inputs);
      GoalIs(start, steps, workflow.inputs);
      var i := 0;
      assert steps[0..] == steps;
      while i < |steps|
        invariant 0 <= i <= |steps|
        invariant Valid()
        invariant Goal(Progress(exits, scope, issues, located, RelOf(adjacency)), steps[i..], workflow.inputs) == goal
      {
        ghost var p := Progress(exits, scope, issues, located, RelOf(adjacency));
        match steps[i] {
          case Call(id, target, args) =>
            exits := ProcessCall(id, target, args, scope, exits);
            scope := scope + {id};
          case When(c, body) =>
            exits := ProcessWhen(c, body, scope, exits);
        }
        assert Progress(exits, scope, issues, located, RelOf(adjacency)) == AfterStep(p, steps[i], workflow.inputs);
        GoalStep(p, steps[i..], workflow.inputs);
        assert steps[i..][1..] == steps[i + 1..];
        i := i + 1;
      }
      assert steps[i..] == [];
      GoalNone(Progress(exits, scope, issues, located, RelOf(adjacency)), workflow.inputs);
    }

    method ProcessCall(id: StepId, target: string, args: seq<Entry>, available: set<string>, prevExits: set<string>)
        returns (exits: set<string>)
      requires Valid()
      modifies this
      ensures Valid()
      ensures exits == {id}
      ensures issues ==
        old(issues) + StepIssues(Call(id, target, args), workflow.inputs, available, ToSet(old(located)))
      ensures located == Record(old(located), [id])
      ensures RelOf(adjacency) == old(RelOf(adjacency)) + Fan(prevExits, Some(id))
    {
      assert [id][1..] == [];
      ghost var first := if id in located then [DuplicateStepId(id)] else [];
      if id in located {
        issues := issues + [DuplicateStepId(id)];
      } else {
        located := located + [id];
        if id !in adjacency {
          adjacency := adjacency[id := {}];
        }
        if entry == None {
          entry := Some(id);
        }
      }
      assert RelOf(adjacency) == old(RelOf(adjacency));
      SeqPlus(old(issues), first, ScalarIssues(EntriesScalars(args), workflow.inputs, available));
      CheckScalars(EntriesScalars(args), available);
      Connect(prevExits, id);
      exits := {id};
    }

    method ProcessWhen(c: Condition, body: seq<Step>, available: set<string>, prevExits: set<string>)
        returns (exits: set<string>)
      requires Valid()
      modifies this
      ensures Valid()
      ensures exits == StepCallExits(When(c, body), prevExits)
      ensures issues == old(issues) + StepIssues(When(c, body), workflow.inputs, available, ToSet(old(located)))
      ensures located == Record(old(located), CallIds(body))
      ensures RelOf(adjacency) == old(RelOf(adjacency)) + StepCallEdges(When(c, body), prevExits)
      decreases body, 1
    {
      issues := issues + RefIssues(c.key, workflow.inputs, available);
      if body == [] {
        SeqPlus(old(issues), RefIssues(c.key, workflow.inputs, available), [EmptyBranch]);
        issues := issues + [EmptyBranch];
        return prevExits;
      }
      var branchExits, _ := ProcessSequence(body, available, {});
      SeqPlus(old(issues), RefIssues(c.key, workflow.inputs, available),
              BlockIssues(body, workflow.inputs, available, ToSet(old(located))));
      var branchEntry := FirstCall(body);
      if branchEntry.Some? {
        Connect(prevExits, branchEntry.value);
      }
      exits := prevExits + branchExits;
    }

    method CheckScalars(scalars: seq<Scalar>, available: set<string>)
      modifies this`issues
      ensures issues == old(issues) + ScalarIssues(scalars, workflow.inputs, available)
    {
      var i := 0;
      while i < |scalars|
        invariant 0 <= i <= |scalars|
        invariant issues + ScalarIssues(scalars[i..], workflow.inputs, available) ==
                  old(issues) + ScalarIssues(scalars, workflow.inputs, available)
      {
        ghost var before := issues;
        var found := match scalars[i]
                     case Reference(r) => RefIssues(r, workflow.inputs, available)
                     case Literal(_) => [];
        issues := issues + found;
        SeqPlus(before, found, ScalarIssues(scalars[i + 1..], workflow.inputs, available));
        i := i + 1;
      }
    }

    /** An edge from every exit to `dst`. */
    method Connect(exits: set<string>, dst: string)
      modifies this`adjacency
      ensures RelOf(adjacency) == old(RelOf(adjacency)) + Fan(exits, Some(dst))
    {
      var left := exits;
      while left != {}
        invariant left <= exits
        invariant RelOf(adjacency) == old(RelOf(adjacency)) + Fan(exits - left, Some(dst))
        decreases |left|
      {
        var src :| src in left;
        WithPairRel(adjacency, src, dst);
        adjacency := WithPair(adjacency, src, dst);
        assert Fan(exits - (left - {src}), Some(dst)) == Fan(exits - left, Some(dst)) + {(src, dst)};
        left := left - {src};
      }
    }

    // -------------------------------------------------------------- reachability pass

    method ValidateReachability() returns (ghost part: seq<Issue>)
      requires Valid()
      modifies this`issues
      ensures issues == old(issues) + part && ReachReport(workflow, located, RelOf(adjacency), part)
    {
      if located == [] {
        part := if workflow.steps != [] then [NoCallSteps] else [];
        if workflow.steps != [] {
          issues := issues + [NoCallSteps];
        }
        return;
      }
      var visited := Visit(entry.value);
      var lost := SortSet((set id | id in located) - visited);
      var i := 0;
      while i < |lost|
        invariant 0 <= i <= |lost|
        invariant issues == old(issues) + UnreachableIssues(lost[..i])
      {
        assert UnreachableIssues(lost[..i + 1]) == UnreachableIssues(lost[..i]) + [UnreachableStep(lost[i])];
        issues := issues + [UnreachableStep(lost[i])];
        i := i + 1;
      }
      assert lost[..i] == lost;
      part := UnreachableIssues(lost);
      assert forall id :: id in lost <==> id in located && !Reach(RelOf(adjacency), located[0], id);
    }

    /** Breadth-first search. */
    method Visit(start: string) returns (visited: set<string>)
      ensures forall id :: id in visited <==> Reach(RelOf(adjacency), start, id)
    {
      ghost var rel := RelOf(adjacency);
      ghost var universe := {start} + (set e | e in rel :: e.1);
      visited := {};
      var queue := [start];
      ReachSelf(rel, start);
      while queue != []
        invariant start in visited || start in queue
        invariant forall id :: id in visited || id in queue ==> id in universe && Reach(rel, start, id)
        invariant forall a, b :: a in visited && (a, b) in rel ==> b in visited || b in queue
        decreases universe - visited, |queue|
      {
        var node := queue[0];
        var before := queue;
        queue := queue[1..];
        assert forall x :: x in before ==> x == node || x in queue;
        if node in visited {
          continue;
        }
        visited := visited + {node};
        var succs := Enumerate(Successors(adjacency, node));
        forall b | b in succs ensures (node, b) in rel && b in universe && Reach(rel, start, b) {
          assert (node, b) in rel;
          assert (node, b).1 in universe;
          ReachStep(rel, start, node, b);
        }
        queue := queue + succs;
      }
      forall id | Reach(rel, start, id) ensures id in visited {
        var p :| PathBetween(rel, p, start, id);
        ClosedUnderPath(rel, visited, p);
      }
    }

    // -------------------------------------------------------------- cycle pass

    method ValidateCycles() returns (ghost part: seq<Issue>)
      requires forall a, b :: (a, b) in RelOf(adjacency) ==> a in located
      modifies this`issues
      ensures issues == old(issues) + part && CycleReport(RelOf(adjacency), part)
    {
      ghost var rel := RelOf(adjacency);
      ghost var universe := ToSet(located) + (set e | e in rel :: e.1);
      assert forall a, b :: (a, b) in rel ==> (a, b).1 in universe;
      var visited: set<string> := {};
      ghost var done: seq<string> := [];
      part := [];
      var i := 0;
      while i < |located|
        invariant 0 <= i <= |located|
        invariant Finished(rel, done) && visited == ToSet(done) && visited <= universe
        invariant forall k :: 0 <= k < i ==> located[k] in done
        invariant issues == old(issues)
      {
        var found;
        assert located[i] in universe;
        ghost var before := done;
        ghost var trail;
        found, visited, done, trail := Dfs(located[i], visited, {}, done, universe);
        if found {
          part := CycleIssues(trail);
          return;
        }
        assert forall x :: x in before ==> x in done;
        i := i + 1;
      }
      FinishedIsAcyclic(rel, done);
    }

    /** Depth-first search from `node`; `stack` holds the nodes of the current path. */
    method Dfs(
      node: string, visited0: set<string>, stack: set<string>, ghost done0: seq<string>, ghost universe: set<string>)
        returns (found: bool, visited: set<string>, ghost done: seq<string>, ghost trail: seq<string>)
      requires Finished(RelOf(adjacency), done0)
      requires visited0 == ToSet(done0) + stack && stack !! ToSet(done0)
      requires forall s :: s in stack ==> ReachPlus(RelOf(adjacency), s, node)
      requires node in universe && visited0 <= universe
      requires forall a, b :: (a, b) in RelOf(adjacency) ==> b in universe
      modifies this`issues
      ensures found ==> !Acyclic(RelOf(adjacency))
      ensures issues == old(issues) + CycleIssues(trail)
      ensures found ==> if node in stack then trail == []
        else CycleTrail(RelOf(adjacency), trail) && (node, trail[|trail| - 1]) in RelOf(adjacency)
      ensures !found ==> trail == []
      ensures !found ==> Finished(RelOf(adjacency), done) && done0 <= done && node in done
      ensures !found ==> visited == ToSet(done) + stack && stack !! ToSet(done) && visited <= universe
      decreases universe - visited0
    {
      trail := [];
      ghost var rel := RelOf(adjacency);
      visited, done, found := visited0, done0, false;
      if node in stack {
        found := true;
        return;
      }
      if node in visited {
        return;
      }
      visited := visited + {node};
      var path := stack + {node};
      var left := Successors(adjacency, node);
      while left != {}
        invariant left <= Successors(adjacency, node)
        invariant Finished(rel, done) && done0 <= done
        invariant visited == ToSet(done) + path && path !! ToSet(done) && visited <= universe
        invariant forall b :: b in Successors(adjacency, node) - left ==> b in done
        invariant issues == old(issues) && trail == []
        decreases |left|
      {
        var succ :| succ in left;
        left := left - {succ};
        assert (node, succ) in rel;
        forall s | s in path ensures ReachPlus(rel, s, succ) {
          if s == node {
            ReachEdge(rel, node, succ);
          } else {
            PlusIsReach(rel, s, node);
            ReachStep(rel, s, node, succ);
          }
        }
        var hit;
        ghost var before := done;
        hit, visited, done, trail := Dfs(succ, visited, path, done, universe);
        if hit {
          CycleIssuesSnoc(trail, succ);
          SeqPlus(old(issues), CycleIssues(trail), [CycleDetected(succ)]);
          issues := issues + [CycleDetected(succ)];
          trail := trail + [succ];
          found := true;
          return;
        }
        assert forall x :: x in before ==> x in done;
      }
      ghost var grown := done + [node];
      forall k, b | 0 <= k < |grown| && (grown[k], b) in rel ensures b in grown[..k] {
        if k < |done| {
          assert (done[k], b) in rel;
          assert grown[..k] == done[..k];
        } else {
          assert b in Successors(adjacency, node);
          assert grown[..k] == done;
        }
      }
      NoDupAppend(done, [node]);
      ToSetAppend(done, [node]);
      done := grown;
    }

    // -------------------------------------------------------------- the whole analysis

    /** The report is the traversal's, then that of each graph pass; with distinct call ids these add nothing. */
    method Run() returns (ghost lost: seq<Issue>, ghost cycles: seq<Issue>)
      requires issues == [] && located == [] && RelOf(adjacency) == {} && Valid()
      modifies this
      ensures issues == Report(workflow) + lost + cycles
      ensures ReachReport(workflow, Record([], CallIds(workflow.steps)), CallEdges(workflow.steps, {}), lost)
      ensures CycleReport(CallEdges(workflow.steps, {}), cycles)
      ensures NoDup(CallIds(workflow.steps)) ==> cycles == []
      ensures NoDup(CallIds(workflow.steps)) ==>
        lost == if CallIds(workflow.steps) == [] && workflow.steps != [] then [NoCallSteps] else []
    {
      hide BlockIssues, ScalarIssues, EntriesScalars, CallEdges, CallIds;
      hide Reach, Acyclic, Record, ReachReport, CycleReport;
      var w := workflow;
      var _, scope := ProcessSequence(w.steps, {}, {});
      CheckScalars(EntriesScalars(w.outputs), scope);
      TraversalReport(w, issues);
      ghost var rel := CallEdges(w.steps, {});
      assert {} + rel == rel;
      EdgesLeaveCalls(w.steps);
      lost := ValidateReachability();
      cycles := ValidateCycles();
      if NoDup(CallIds(w.steps)) { PassesSilent(w, lost, cycles); }
    }
  }

  lemma PassesSilent(w: Workflow, lost: seq<Issue>, cycles: seq<Issue>)
    requires NoDup(CallIds(w.steps))
    requires ReachReport(w, Record([], CallIds(w.steps)), CallEdges(w.steps, {}), lost)
    requires CycleReport(CallEdges(w.steps, {}), cycles)
    ensures cycles == []
    ensures lost == if CallIds(w.steps) == [] && w.steps != [] then [NoCallSteps] else []
  {
    EdgesLeaveCalls(w.steps);
    CallGraphIsSound(w.steps);
    if CallIds(w.steps) != [] { NothingLost(w, CallIds(w.steps), CallEdges(w.steps, {}), lost); }
  }

  lemma TraversalReport(w: Workflow, issues: seq<Issue>)
    requires issues == ([] + BlockIssues(w.steps, w.inputs, {}, ToSet([])))
                       + ScalarIssues(EntriesScalars(w.outputs), w.inputs, BlockScope(w.steps, {}))
    ensures issues == Report(w)
  {
    assert ToSet<string>([]) == {};
    assert [] + BlockIssues(w.steps, w.inputs, {}, {}) == BlockIssues(w.steps, w.inputs, {}, {});
  }

  /** Edges leave recorded calls, and distinct ids are recorded as they stand. */
  lemma EdgesLeaveCalls(steps: seq<Step>)
    ensures forall a, b :: (a, b) in CallEdges(steps, {}) ==> a in Record([], CallIds(steps))
    ensures NoDup(CallIds(steps)) ==> Record([], CallIds(steps)) == CallIds(steps)
  {
    RecordIs([], CallIds(steps));
    assert ToSet<string>([]) == {};
    assert [] + CallIds(steps) == CallIds(steps);
    CallEdgesForward(steps, {}, []);
    forall a, b | (a, b) in CallEdges(steps, {}) ensures a in Record([], CallIds(steps)) {
      assert Before([] + CallIds(steps), a, b);
      assert a in ToSet(CallIds(steps));
    }
  }

  /** The elements of a set in some order. */
  method Enumerate(s: set<string>) returns (r: seq<string>)
    ensures forall x :: x in r <==> x in s
  {
    r := [];
    var left := s;
    while left != {}
      invariant left <= s
      invariant forall x :: x in r <==> x in s - left
      decreases |left|
    {
      var x :| x in left;
      r := r + [x];
      left := left - {x};
    }
  }
}
