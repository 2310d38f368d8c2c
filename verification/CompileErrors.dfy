/** When a workflow compiles, and what it means that it does not, tm/dsl/compiler_flow.py. */
module CompileErrors {
  import opened Collections
  import opened Wdl
  import opened Names
  import opened Labels
  import opened Flows
  import opened Runs

  // ---------------------------------------------------------------- names, whether or not they collide

  /** Every branch gets the least `when_` name that no earlier step has; calls keep their ids. */
  function Assign(steps: seq<Step>, used: set<string>, n: nat): Labelled
    decreases steps, 0
  {
    if steps == [] then Labelled([], used, n)
    else
      var first := AssignStep(steps[0], used, n);
      var rest := Assign(steps[1..], first.used, first.next);
      Labelled(first.tree + rest.tree, rest.used, rest.next)
  }

  function AssignStep(step: Step, used: set<string>, n: nat): Labelled
    decreases step, 1
  {
    match step
    case Call(id, target, args) => Labelled([LCall(id, target, args)], used + {id}, n)
    case When(c, body) =>
      var k := FreshCounter("when", used, n);
      var sid := Name("when", k);
      var inner := Assign(body, used + {sid}, k + 1);
      Labelled([LWhen(sid, c, inner.tree)], inner.used, inner.next)
  }

  /** Every argument has a key, at any depth. */
  ghost predicate Keyed(steps: seq<Step>)
    decreases steps, 0
  {
    steps == [] || (StepKeyed(steps[0]) && Keyed(steps[1..]))
  }

  ghost predicate StepKeyed(step: Step)
    decreases step, 1
  {
    match step
    case Call(_, _, args) => EntriesRenderable(args)
    case When(_, body) => Keyed(body)
  }

  // ---------------------------------------------------------------- a labelling is the assignment

  lemma {:induction false} LabelIsAssigned(steps: seq<Step>, used: set<string>, n: nat)
    requires Label(steps, used, n).Ok?
    ensures Label(steps, used, n).value == Assign(steps, used, n) && AllFull(steps) && Keyed(steps)
    decreases steps, 0
  {
    hide LabelStep, AssignStep, StepAllFull, StepKeyed;
    if steps != [] {
      LabelStepIsAssigned(steps[0], used, n);
      var first := LabelStep(steps[0], used, n).value;
      LabelIsAssigned(steps[1..], first.used, first.next);
    }
  }

  lemma {:induction false} LabelStepIsAssigned(step: Step, used: set<string>, n: nat)
    requires LabelStep(step, used, n).Ok?
    ensures LabelStep(step, used, n).value == AssignStep(step, used, n) && StepAllFull(step) && StepKeyed(step)
    decreases step, 1
  {
    hide Label, Assign, FreshCounter, Name;
    match step
    case Call(_, _, _) =>
    case When(c, body) =>
      var k := FreshCounter("when", used, n);
      LabelIsAssigned(body, used + {Name("when", k)}, k + 1);
  }

  lemma {:induction false} AssignUsed(steps: seq<Step>, used: set<string>, n: nat)
    ensures Assign(steps, used, n).used == used + ToSet(Ids(Assign(steps, used, n).tree))
    decreases steps, 0
  {
    hide AssignStep;
    if steps != [] {
      var first := AssignStep(steps[0], used, n);
      var rest := Assign(steps[1..], first.used, first.next);
      AssignStepUsed(steps[0], used, n);
      AssignUsed(steps[1..], first.used, first.next);
      IdsAppend(first.tree[0], rest.tree);
      assert first.tree + rest.tree == [first.tree[0]] + rest.tree;
      ToSetAppend(StepIds(first.tree[0]), Ids(rest.tree));
    } else {
      assert used + ToSet<string>([]) == used;
    }
  }

  lemma IdsAppend(l: LStep, rest: seq<LStep>)
    ensures Ids([l] + rest) == StepIds(l) + Ids(rest)
  {
    assert ([l] + rest)[1..] == rest;
  }

  lemma {:induction false} AssignStepUsed(step: Step, used: set<string>, n: nat)
    ensures |AssignStep(step, used, n).tree| == 1
    ensures AssignStep(step, used, n).used == used + ToSet(StepIds(AssignStep(step, used, n).tree[0]))
    decreases step, 1
  {
    hide Assign, FreshCounter, Name;
    match step
    case Call(id, _, _) => assert ToSet([id]) == {id};
    case When(c, body) =>
      var k := FreshCounter("when", used, n);
      var sid := Name("when", k);
      AssignUsed(body, used + {sid}, k + 1);
      var inner := Assign(body, used + {sid}, k + 1).tree;
      ToSetAppend([sid], Ids(inner));
      assert ToSet([sid]) == {sid};
  }

  // ---------------------------------------------------------------- and conversely

  lemma {:induction false} AssignedIsLabel(steps: seq<Step>, used: set<string>, n: nat)
    requires AllFull(steps) && Keyed(steps)
    requires var ids := Ids(Assign(steps, used, n).tree); NoDup(ids) && ToSet(ids) !! used
    ensures Label(steps, used, n).Ok?
    decreases steps, 0
  {
    hide LabelStep, AssignStep, StepAllFull, StepKeyed, StepIds;
    if steps != [] {
      var first := AssignStep(steps[0], used, n);
      var rest := Assign(steps[1..], first.used, first.next);
      AssignStepUsed(steps[0], used, n);
      IdsAppend(first.tree[0], rest.tree);
      assert first.tree + rest.tree == [first.tree[0]] + rest.tree;
      var a, b := StepIds(first.tree[0]), Ids(rest.tree);
      ToSetAppend(a, b);
      NoDupSplit(a, b);
      AssignedStepIsLabel(steps[0], used, n);
      LabelStepIsAssigned(steps[0], used, n);
      AssignedIsLabel(steps[1..], first.used, first.next);
    }
  }

  lemma NoDupSplit(a: seq<string>, b: seq<string>)
    requires NoDup(a + b)
    ensures NoDup(a) && NoDup(b) && ToSet(a) !! ToSet(b)
  {
    var s := a + b;
    assert forall i :: 0 <= i < |a| ==> s[i] == a[i];
    assert forall j :: 0 <= j < |b| ==> s[|a| + j] == b[j];
  }

  lemma {:induction false} AssignedStepIsLabel(step: Step, used: set<string>, n: nat)
    requires StepAllFull(step) && StepKeyed(step)
    requires var tree := AssignStep(step, used, n).tree;
      |tree| == 1 && NoDup(StepIds(tree[0])) && ToSet(StepIds(tree[0])) !! used
    ensures LabelStep(step, used, n).Ok?
    decreases step, 1
  {
    hide Label, Assign, FreshCounter, Name;
    match step
    case Call(id, _, _) => assert id in ToSet([id]);
    case When(c, body) =>
      var k := FreshCounter("when", used, n);
      var sid := Name("when", k);
      var inner := Assign(body, used + {sid}, k + 1).tree;
      NoDupSplit([sid], Ids(inner));
      ToSetAppend([sid], Ids(inner));
      assert ToSet([sid]) == {sid};
      AssignedIsLabel(body, used + {sid}, k + 1);
  }

  // ---------------------------------------------------------------- main results

  /** The names of all steps, in the order in which they are inserted. */
  function StepNames(w: Workflow): seq<string> { Ids(Assign(w.steps, {}, 0).tree) }

  /** A workflow compiles if and only if no block is empty, every argument and output has a key, and no two steps
      have the same name, generated names included. */
  lemma CompilesExactly(w: Workflow)
    ensures Compile(w).Ok? <==>
      && w.steps != [] && AllFull(w.steps)
      && Keyed(w.steps) && EntriesRenderable(w.outputs)
      && NoDup(StepNames(w))
  {
    hide Label, Assign, AllFull, Keyed, EntriesRenderable, Ids, RenderEntries;
    if Label(w.steps, {}, 0).Ok? {
      LabelIsAssigned(w.steps, {}, 0);
      LabelGood(w.steps, {}, 0);
    } else if AllFull(w.steps) && Keyed(w.steps) && NoDup(StepNames(w)) {
      AssignedIsLabel(w.steps, {}, 0);
    }
  }

  /** An error names a defect; a duplicate id is a call's, and another step before it has the same name. */
  lemma {:induction false} ErrorNames(steps: seq<Step>, used: set<string>, n: nat)
    requires Label(steps, used, n).Err?
    ensures var ids := Ids(Assign(steps, used, n).tree);
      match Label(steps, used, n).error
      case EmptySequence => !AllFull(steps)
      case MissingKey => !Keyed(steps)
      case DuplicateId(id) => id in CallIds(steps) && (Twice(ids, id) || (id in used && id in ids))
    decreases steps, 0
  {
    hide LabelStep, AssignStep, Twice, StepAllFull, StepKeyed;
    var one, first := LabelStep(steps[0], used, n), AssignStep(steps[0], used, n);
    var rest := Assign(steps[1..], first.used, first.next).tree;
    AssignStepUsed(steps[0], used, n);
    assert first.tree + rest == [first.tree[0]] + rest;
    IdsAppend(first.tree[0], rest);
    if one.Err? {
      StepErrorNames(steps[0], used, n);
    } else {
      LabelStepIsAssigned(steps[0], used, n);
      ErrorNames(steps[1..], first.used, first.next);
    }
    match Label(steps, used, n).error
    case DuplicateId(id) =>
      TwiceAppend(StepIds(first.tree[0]), Ids(rest), id);
      assert id in ToSet(StepIds(first.tree[0])) <==> id in StepIds(first.tree[0]);
    case _ =>
  }

  lemma {:induction false} StepErrorNames(step: Step, used: set<string>, n: nat)
    requires LabelStep(step, used, n).Err?
    ensures |AssignStep(step, used, n).tree| == 1
    ensures var ids := StepIds(AssignStep(step, used, n).tree[0]);
      match LabelStep(step, used, n).error
      case EmptySequence => !StepAllFull(step)
      case MissingKey => !StepKeyed(step)
      case DuplicateId(id) => id in StepCallIds(step) && (Twice(ids, id) || (id in used && id in ids))
    decreases step, 1
  {
    hide Twice;
    match step
    case Call(_, _, _) =>
    case When(c, body) =>
      var k := FreshCounter("when", used, n);
      var sid := Name("when", k);
      if Label(body, used + {sid}, k + 1).Err? {
        ErrorNames(body, used + {sid}, k + 1);
        match Label(body, used + {sid}, k + 1).error
        case DuplicateId(id) => TwiceAppend([sid], Ids(Assign(body, used + {sid}, k + 1).tree), id);
        case _ =>
      }
  }

  /** A refused workflow has the defect that the error names: an empty block, a missing key, or a call whose id
      another step has too. */
  lemma RefusedFor(w: Workflow)
    requires Compile(w).Err?
    ensures match Compile(w).error
      case EmptySequence => w.steps == [] || !AllFull(w.steps)
      case MissingKey => !Keyed(w.steps) || !EntriesRenderable(w.outputs)
      case DuplicateId(id) => id in CallIds(w.steps) && Twice(StepNames(w), id)
  {
    hide Label, AllFull, Keyed, EntriesRenderable, RenderEntries, Twice;
    if w.steps != [] && Label(w.steps, {}, 0).Err? { ErrorNames(w.steps, {}, 0); }
  }
}
