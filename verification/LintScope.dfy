/** The scope set of tm/dsl/lint.py is an exact must-analysis, and a workflow without unknown step
    references never looks up the result of a step that has not run. */
module LintScope {
  import opened Collections
  import opened Wdl
  import opened Runs
  import opened Labels
  import opened Flows
  import opened FlowEngine
  import opened FlowMeaning
  import opened Lint

  /** Ids of the steps called in a history: the keys of the run-time result store. */
  ghost function CalledIds(h: seq<Event>): set<string> {
    set i | 0 <= i < |h| && h[i].Called? :: h[i].id
  }

  lemma CalledIdsAppend(h: seq<Event>, e: Event)
    ensures CalledIds(h + [e]) == if e.Called? then CalledIds(h) + {e.id} else CalledIds(h)
  {
    var t := h + [e];
    assert t[|h|] == e;
    forall n | n in CalledIds(h) ensures n in CalledIds(t) {
      var i :| 0 <= i < |h| && h[i].Called? && h[i].id == n;
      assert t[i] == h[i];
    }
    forall n | n in CalledIds(t) ensures n in CalledIds(h) || (e.Called? && n == e.id) {
      var i :| 0 <= i < |t| && t[i].Called? && t[i].id == n;
      if i < |h| { assert h[i] == t[i]; }
    }
  }

  // ---------------------------------------------------------------- points of a workflow

  /** `path` names a step: an index into the block, then indices into nested bodies. */
  predicate IsPoint(steps: seq<Step>, path: seq<nat>)
    decreases |path|
  {
    && path != [] && path[0] < |steps|
    && (|path| > 1 ==> steps[path[0]].When? && IsPoint(steps[path[0]].body, path[1..]))
  }

  /** The scope in which the lint pass checks the step at `path`. */
  function ScopeAt(steps: seq<Step>, scope: set<string>, path: seq<nat>): set<string>
    requires IsPoint(steps, path)
    decreases |path|
  {
    var here := BlockScope(steps[..path[0]], scope);
    if |path| == 1 then here else ScopeAt(steps[path[0]].body, here, path[1..])
  }

  /** The history with which a run arrives at the step at `path`, if it does. */
  function HistoryAt(steps: seq<Step>, h: seq<Event>, path: seq<nat>, world: World): Option<seq<Event>>
    requires IsPoint(steps, path)
    decreases |path|
  {
    var here := Exec(steps[..path[0]], h, world, AsWritten, false);
    if |path| == 1 then Some(here)
    else
      var c := steps[path[0]].cond;
      var v := world(here, c.key);
      if Enters(c, v, AsWritten, false)
      then HistoryAt(steps[path[0]].body, here + [Tested(c.key, v)], path[1..], world) else None
  }

  /** What is in scope after a block has run in every run of it. */
  lemma {:induction false} BlockScopeRuns(
    steps: seq<Step>, h: seq<Event>, scope: set<string>, world: World, how: Reading, named: bool)
    requires scope <= CalledIds(h)
    ensures BlockScope(steps, scope) <= CalledIds(Exec(steps, h, world, how, named))
    decreases steps
  {
    if steps != [] {
      var h1 := ExecStep(steps[0], h, world, how, Following(steps[1..], named));
      ExecStepExtends(steps[0], h, world, how, Following(steps[1..], named));
      CalledIdsMono(h, h1);
      match steps[0]
      case Call(id, t, args) =>
        CalledIdsAppend(h, Called(id, t, RenderEntries(args)));
        BlockScopeRuns(steps[1..], h1, scope + {id}, world, how, named);
      case When(_, _) =>
        BlockScopeRuns(steps[1..], h1, scope, world, how, named);
    }
  }

  lemma CalledIdsMono(h: seq<Event>, t: seq<Event>)
    requires h <= t
    ensures CalledIds(h) <= CalledIds(t)
  {
    forall n | n in CalledIds(h) ensures n in CalledIds(t) {
      var i :| 0 <= i < |h| && h[i].Called? && h[i].id == n;
      assert t[i] == h[i];
    }
  }

  /** Sound: the scope at a point has run whenever a run arrives there. */
  lemma {:induction false} ScopeIsSound(
    steps: seq<Step>, h: seq<Event>, scope: set<string>, path: seq<nat>, world: World)
    requires IsPoint(steps, path) && scope <= CalledIds(h)
    ensures HistoryAt(steps, h, path, world).Some? ==>
      ScopeAt(steps, scope, path) <= CalledIds(HistoryAt(steps, h, path, world).value)
    decreases |path|
  {
    var here := Exec(steps[..path[0]], h, world, AsWritten, false);
    BlockScopeRuns(steps[..path[0]], h, scope, world, AsWritten, false);
    if |path| > 1 {
      var c := steps[path[0]].cond;
      var e := Tested(c.key, world(here, c.key));
      CalledIdsAppend(here, e);
      ScopeIsSound(steps[path[0]].body, here + [e], BlockScope(steps[..path[0]], scope), path[1..], world);
    }
  }

  /** The run of a block that skips every branch. */
  function Skipping(steps: seq<Step>, h: seq<Event>): seq<Event>
    decreases steps
  {
    if steps == [] then h
    else
      match steps[0]
      case Call(id, target, args) => Skipping(steps[1..], h + [Called(id, target, RenderEntries(args))])
      case When(c, _) => Skipping(steps[1..], h + [Tested(c.key, None)])
  }

  lemma {:induction false} SkippingRuns(steps: seq<Step>, h: seq<Event>, t: seq<Event>)
    ensures h <= Skipping(steps, h)
    ensures Skipping(steps, h) <= t ==> Exec(steps, h, Follow(t), AsWritten, false) == Skipping(steps, h)
    ensures CalledIds(Skipping(steps, h)) == BlockScope(steps, CalledIds(h))
    decreases steps
  {
    if steps != [] {
      var e := match steps[0]
               case Call(id, target, args) => Called(id, target, RenderEntries(args))
               case When(c, _) => Tested(c.key, None);
      SkippingRuns(steps[1..], h + [e], t);
      CalledIdsAppend(h, e);
      if Skipping(steps, h) <= t {
        assert h + [e] <= t;
        assert t[|h|] == (h + [e])[|h|];
      }
    }
  }

  /** A run that enters exactly the branches around the point. */
  function Direct(steps: seq<Step>, h: seq<Event>, path: seq<nat>): seq<Event>
    requires IsPoint(steps, path)
    decreases |path|
  {
    var here := Skipping(steps[..path[0]], h);
    if |path| == 1 then here
    else
      var c := steps[path[0]].cond;
      Direct(steps[path[0]].body, here + [Tested(c.key, Some(c.cases[0]))], path[1..])
  }

  lemma {:induction false} DirectArrives(steps: seq<Step>, h: seq<Event>, path: seq<nat>, t: seq<Event>)
    requires IsPoint(steps, path) && Direct(steps, h, path) <= t
    ensures h <= Direct(steps, h, path)
    ensures HistoryAt(steps, h, path, Follow(t)) == Some(Direct(steps, h, path))
    ensures CalledIds(Direct(steps, h, path)) == ScopeAt(steps, CalledIds(h), path)
    decreases |path|
  {
    var here := Skipping(steps[..path[0]], h);
    if |path| == 1 {
      SkippingRuns(steps[..path[0]], h, t);
    } else {
      var c := steps[path[0]].cond;
      var e := Tested(c.key, Some(c.cases[0]));
      DirectArrives(steps[path[0]].body, here + [e], path[1..], t);
      assert here <= here + [e] <= t;
      SkippingRuns(steps[..path[0]], h, t);
      assert t[|here|] == (here + [e])[|here|];
      CalledIdsAppend(here, e);
    }
  }

  /** Exact: a step is in scope at a point if and only if it has run in every run that arrives there. */
  lemma ScopeIsExact(steps: seq<Step>, path: seq<nat>, id: string)
    requires IsPoint(steps, path)
    ensures id in ScopeAt(steps, {}, path) <==>
      forall world: World ::
        HistoryAt(steps, [], path, world).Some? ==> id in CalledIds(HistoryAt(steps, [], path, world).value)
  {
    assert CalledIds([]) == {};
    forall world: World { ScopeIsSound(steps, [], {}, path, world); }
    var t := Direct(steps, [], path);
    DirectArrives(steps, [], path, t);
    if id !in ScopeAt(steps, {}, path) {
      assert HistoryAt(steps, [], path, Follow(t)).Some? && id !in CalledIds(t);
    }
  }

  // ---------------------------------------------------------------- look-ups at run time

  /** Does the reading look at the value of a branch's key? */
  predicate ReadsKeys(how: Reading) { !how.UnlessNamed? && !how.Always? }

  /** Step results that an event reads. */
  ghost function Needs(e: Event, how: Reading): set<string> {
    match e
    case Tested(key, _) => if ReadsKeys(how) then RefSteps(key) else {}
    case Called(_, _, args) => FieldLookups(args)
    case Emitted(outputs) => FieldLookups(outputs)
  }

  /** Every look-up finds the result of a step that has been called before. */
  ghost predicate AllPresent(t: seq<Event>, how: Reading) {
    forall i :: 0 <= i < |t| ==> Needs(t[i], how) <= CalledIds(t[..i])
  }

  lemma AllPresentAppend(h: seq<Event>, e: Event, how: Reading)
    ensures AllPresent(h + [e], how) <==> AllPresent(h, how) && Needs(e, how) <= CalledIds(h)
  {
    hide Needs;
    var t := h + [e];
    assert t[|h|] == e && t[..|h|] == h;
    forall i | 0 <= i < |h| ensures t[i] == h[i] && t[..i] == h[..i] {}
    if AllPresent(t, how) {
      assert Needs(t[|h|], how) <= CalledIds(t[..|h|]);
      forall i | 0 <= i < |h| ensures Needs(h[i], how) <= CalledIds(h[..i]) {
        assert Needs(t[i], how) <= CalledIds(t[..i]);
      }
    }
  }

  lemma AllPresentPrefix(h: seq<Event>, t: seq<Event>, how: Reading)
    requires h <= t && AllPresent(t, how)
    ensures AllPresent(h, how)
  {
    forall i | 0 <= i < |h| ensures Needs(h[i], how) <= CalledIds(h[..i]) {
      assert t[i] == h[i] && t[..i] == h[..i];
    }
  }

  // ---------------------------------------------------------------- what every run has called

  /** Calls made by every run of a block, given those in `scope`: a branch entered whatever its value counts. */
  function Certain(steps: seq<Step>, scope: set<string>, how: Reading, named: bool): set<string>
    decreases steps, 0
  {
    if steps == [] then scope
    else Certain(steps[1..], StepCertain(steps[0], scope, how, Following(steps[1..], named)), how, named)
  }

  function StepCertain(step: Step, scope: set<string>, how: Reading, named: bool): set<string>
    decreases step, 1
  {
    match step
    case Call(id, _, _) => scope + {id}
    case When(c, body) => if Enters(c, None, how, named) then Certain(body, scope, how, named) else scope
  }

  /** A branch entered without a value is entered with any. */
  lemma EnteredAnyway(c: Condition, v: Option<string>, how: Reading, named: bool)
    requires Enters(c, None, how, named)
    ensures Enters(c, v, how, named)
  {
  }

  lemma {:induction false} CertainGrows(steps: seq<Step>, scope: set<string>, how: Reading, named: bool)
    ensures scope <= Certain(steps, scope, how, named)
    decreases steps, 0
  {
    if steps != [] {
      match steps[0] {
        case Call(_, _, _) =>
        case When(_, body) => CertainGrows(body, scope, how, Following(steps[1..], named));
      }
      CertainGrows(steps[1..], StepCertain(steps[0], scope, how, Following(steps[1..], named)), how, named);
    }
  }

  lemma {:induction false} CertainRuns(
    steps: seq<Step>, h: seq<Event>, scope: set<string>, world: World, how: Reading, named: bool)
    requires scope <= CalledIds(h)
    ensures Certain(steps, scope, how, named) <= CalledIds(Exec(steps, h, world, how, named))
    decreases steps, 0
  {
    if steps != [] {
      var next := Following(steps[1..], named);
      StepCertainRuns(steps[0], h, scope, world, how, next);
      var h1, certain := ExecStep(steps[0], h, world, how, next), StepCertain(steps[0], scope, how, next);
      CertainRuns(steps[1..], h1, certain, world, how, named);
    }
  }

  lemma {:induction false} StepCertainRuns(
    step: Step, h: seq<Event>, scope: set<string>, world: World, how: Reading, named: bool)
    requires scope <= CalledIds(h)
    ensures StepCertain(step, scope, how, named) <= CalledIds(ExecStep(step, h, world, how, named))
    decreases step, 1
  {
    hide Enters;
    match step
    case Call(id, target, args) => CalledIdsAppend(h, Called(id, target, RenderEntries(args)));
    case When(c, body) =>
      var v := world(h, c.key);
      CalledIdsAppend(h, Tested(c.key, v));
      if Enters(c, None, how, named) {
        EnteredAnyway(c, v, how, named);
        CertainRuns(body, h + [Tested(c.key, v)], scope, world, how, named);
      } else {
        ExecStepExtends(step, h, world, how, named);
        CalledIdsMono(h, ExecStep(step, h, world, how, named));
      }
  }

  /** The run in which no branch has a value calls no more than that. */
  lemma {:induction false} CertainOnly(steps: seq<Step>, h: seq<Event>, how: Reading, named: bool)
    ensures CalledIds(Exec(steps, h, Follow([]), how, named)) == Certain(steps, CalledIds(h), how, named)
    decreases steps, 0
  {
    if steps != [] {
      StepCertainOnly(steps[0], h, how, Following(steps[1..], named));
      CertainOnly(steps[1..], ExecStep(steps[0], h, Follow([]), how, Following(steps[1..], named)), how, named);
    }
  }

  lemma {:induction false} StepCertainOnly(step: Step, h: seq<Event>, how: Reading, named: bool)
    ensures CalledIds(ExecStep(step, h, Follow([]), how, named)) == StepCertain(step, CalledIds(h), how, named)
    decreases step, 1
  {
    hide Enters;
    match step
    case Call(id, target, args) => CalledIdsAppend(h, Called(id, target, RenderEntries(args)));
    case When(c, body) =>
      CalledIdsAppend(h, Tested(c.key, None));
      if Enters(c, None, how, named) { CertainOnly(body, h + [Tested(c.key, None)], how, named); }
  }

  // ---------------------------------------------------------------- look-ups that are served

  /** Every look-up of the rendered block finds a step that has been called for certain. */
  ghost predicate Served(steps: seq<Step>, scope: set<string>, how: Reading, named: bool)
    decreases steps, 0
  {
    steps == [] ||
    var next := Following(steps[1..], named);
    StepServed(steps[0], scope, how, next) && Served(steps[1..], StepCertain(steps[0], scope, how, next), how, named)
  }

  ghost predicate StepServed(step: Step, scope: set<string>, how: Reading, named: bool)
    decreases step, 1
  {
    match step
    case Call(_, _, args) => FieldLookups(RenderEntries(args)) <= scope
    case When(c, body) =>
      && (ReadsKeys(how) ==> RefSteps(c.key) <= scope)
      && (Enters(c, Some(LastLiteral(c)), how, named) ==> Served(body, scope, how, named))
  }

  ghost predicate WorkflowServed(w: Workflow, how: Reading) {
    Served(w.steps, {}, how, false) && FieldLookups(RenderEntries(w.outputs)) <= Certain(w.steps, {}, how, false)
  }

  lemma {:induction false} ServedIsSafe(
    steps: seq<Step>, h: seq<Event>, scope: set<string>, world: World, how: Reading, named: bool)
    requires Served(steps, scope, how, named) && scope <= CalledIds(h) && AllPresent(h, how)
    ensures AllPresent(Exec(steps, h, world, how, named), how)
    decreases steps, 0
  {
    hide AllPresent;
    if steps != [] {
      var next := Following(steps[1..], named);
      StepServedIsSafe(steps[0], h, scope, world, how, next);
      StepCertainRuns(steps[0], h, scope, world, how, next);
      var h1, certain := ExecStep(steps[0], h, world, how, next), StepCertain(steps[0], scope, how, next);
      ServedIsSafe(steps[1..], h1, certain, world, how, named);
    }
  }

  lemma EnterableOnLast(c: Condition, v: Option<string>, how: Reading, named: bool)
    requires Enters(c, v, how, named)
    ensures Enters(c, Some(LastLiteral(c)), how, named)
  {
    assert LastLiteral(c) in c.cases;
  }

  lemma {:induction false} StepServedIsSafe(
    step: Step, h: seq<Event>, scope: set<string>, world: World, how: Reading, named: bool)
    requires StepServed(step, scope, how, named) && scope <= CalledIds(h) && AllPresent(h, how)
    ensures AllPresent(ExecStep(step, h, world, how, named), how)
    decreases step, 1
  {
    hide AllPresent, Enters;
    match step
    case Call(id, target, args) => AllPresentAppend(h, Called(id, target, RenderEntries(args)), how);
    case When(c, body) =>
      var e := Tested(c.key, world(h, c.key));
      AllPresentAppend(h, e, how);
      CalledIdsAppend(h, e);
      if Enters(c, world(h, c.key), how, named) {
        EnterableOnLast(c, world(h, c.key), how, named);
        ServedIsSafe(body, h + [e], scope, world, how, named);
      }
  }

  /** A look-up is not served: some run makes it in vain. */
  lemma {:induction false} NotServedIsUnsafe(steps: seq<Step>, h: seq<Event>, how: Reading, named: bool)
      returns (t: seq<Event>)
    requires !Served(steps, CalledIds(h), how, named)
    ensures h <= t && t == Exec(steps, h, Follow(t), how, named) && !AllPresent(t, how)
    decreases steps, 0
  {
    hide AllPresent, CalledIds;
    var step, rest := steps[0], steps[1..];
    var next := Following(rest, named);
    if StepServed(step, CalledIds(h), how, next) {
      var h1 := ExecStep(step, h, Follow([]), how, next);
      StepCertainOnly(step, h, how, next);
      ExecStepExtends(step, h, Follow([]), how, next);
      t := NotServedIsUnsafe(rest, h1, how, named);
      FollowReproducesStep(step, h, Follow([]), how, t, next);
    } else {
      var h1 := StepNotServedIsUnsafe(step, h, how, next);
      t := Exec(rest, h1, Follow(h1), how, named);
      ExecExtends(rest, h1, Follow(h1), how, named);
      FollowReproducesStep(step, h, Follow(h1), how, t, next);
      FollowReproduces(rest, h1, Follow(h1), how, t, named);
      if AllPresent(t, how) { AllPresentPrefix(h1, t, how); }
    }
  }

  lemma {:induction false} StepNotServedIsUnsafe(step: Step, h: seq<Event>, how: Reading, named: bool)
      returns (t: seq<Event>)
    requires !StepServed(step, CalledIds(h), how, named)
    ensures h <= t && t == ExecStep(step, h, Follow(t), how, named) && !AllPresent(t, how)
    decreases step, 1
  {
    hide AllPresent, Enters, CalledIds;
    match step
    case Call(id, target, args) =>
      t := h + [Called(id, target, RenderEntries(args))];
      AllPresentAppend(h, Called(id, target, RenderEntries(args)), how);
    case When(c, body) =>
      if ReadsKeys(how) ==> RefSteps(c.key) <= CalledIds(h) {
        var e := Tested(c.key, Some(LastLiteral(c)));
        CalledIdsAppend(h, e);
        t := NotServedIsUnsafe(body, h + [e], how, named);
        assert t[|h|] == (h + [e])[|h|];
      } else {
        var e := Tested(c.key, None);
        t := ExecStep(step, h, Follow([]), how, named);
        ExecStepExtends(step, h, Follow([]), how, named);
        FollowReproducesStep(step, h, Follow([]), how, t, named);
        assert h + [e] <= t by { ExecExtends(body, h + [e], Follow([]), how, named); }
        AllPresentAppend(h, e, how);
        if AllPresent(t, how) { AllPresentPrefix(h + [e], t, how); }
      }
  }

  // ---------------------------------------------------------------- the report

  /** Issues about references, duplicates and empty branches, outputs included. */
  function Report(w: Workflow): seq<Issue> {
    BlockIssues(w.steps, w.inputs, {}, {})
    + ScalarIssues(EntriesScalars(w.outputs), w.inputs, BlockScope(w.steps, {}))
  }

  ghost predicate NoUnknownRef(issues: seq<Issue>) {
    forall i :: i in issues ==> !i.UnknownStepRef?
  }

  lemma NoUnknownRefAppend(a: seq<Issue>, b: seq<Issue>)
    ensures NoUnknownRef(a + b) <==> NoUnknownRef(a) && NoUnknownRef(b)
  {
  }

  lemma {:induction false} ScalarIssuesAppend(a: seq<Scalar>, b: seq<Scalar>, inputs: set<string>, scope: set<string>)
    ensures ScalarIssues(a + b, inputs, scope) == ScalarIssues(a, inputs, scope) + ScalarIssues(b, inputs, scope)
  {
    if a == [] {
      assert a + b == b;
    } else {
      assert (a + b)[1..] == a[1..] + b;
      ScalarIssuesAppend(a[1..], b, inputs, scope);
    }
  }

  lemma RefIssuesMean(r: Ref, inputs: set<string>, scope: set<string>)
    ensures NoUnknownRef(RefIssues(r, inputs, scope)) <==> RefSteps(r) <= scope
  {
    match r
    case InputRef(_) =>
    case StepRef(n) => if n !in scope { assert RefIssues(r, inputs, scope)[0].UnknownStepRef?; }
  }

  lemma {:induction false} NodeIssuesMean(n: Node, inputs: set<string>, scope: set<string>)
    ensures NoUnknownRef(ScalarIssues(Scalars(n), inputs, scope)) <==> NodeRefs(n) <= scope
    decreases n, 1
  {
    match n
    case Leaf(s) =>
      assert [s][1..] == [];
      if s.Reference? {
        RefIssuesMean(s.ref, inputs, scope);
        assert ScalarIssues([s], inputs, scope) == RefIssues(s.ref, inputs, scope) + [];
      }
    case Mapping(es) => EntriesIssuesMean(es, inputs, scope);
    case Sequence(ns) => ItemIssuesMean(ns, inputs, scope);
  }

  lemma {:induction false} ItemIssuesMean(ns: seq<Node>, inputs: set<string>, scope: set<string>)
    ensures NoUnknownRef(ScalarIssues(ItemScalars(ns), inputs, scope)) <==> ItemRefs(ns) <= scope
    decreases ns, 0
  {
    if ns != [] {
      NodeIssuesMean(ns[0], inputs, scope);
      ItemIssuesMean(ns[1..], inputs, scope);
      ScalarIssuesAppend(Scalars(ns[0]), ItemScalars(ns[1..]), inputs, scope);
    }
  }

  lemma {:induction false} EntryIssuesMean(e: Entry, inputs: set<string>, scope: set<string>)
    ensures NoUnknownRef(ScalarIssues(EntryScalars(e), inputs, scope)) <==> EntryRefs(e) <= scope
    decreases e, 2
  {
    NodeIssuesMean(e.value, inputs, scope);
  }

  lemma {:induction false} EntriesIssuesMean(es: seq<Entry>, inputs: set<string>, scope: set<string>)
    ensures NoUnknownRef(ScalarIssues(EntriesScalars(es), inputs, scope)) <==> EntriesRefs(es) <= scope
    decreases es, 0
  {
    if es != [] {
      EntryIssuesMean(es[0], inputs, scope);
      EntriesIssuesMean(es[1..], inputs, scope);
      ScalarIssuesAppend(EntryScalars(es[0]), EntriesScalars(es[1..]), inputs, scope);
    }
  }

  /** The traversal reports an unknown reference exactly when some reference is out of scope. */
  lemma {:induction false} BlockIssuesMean(steps: seq<Step>, inputs: set<string>, scope: set<string>, seen: set<string>)
    ensures NoUnknownRef(BlockIssues(steps, inputs, scope, seen)) <==> RefsOk(steps, scope)
    decreases steps, 0
  {
    if steps != [] {
      var seen' := seen + ToSet(StepCallIds(steps[0]));
      StepIssuesMean(steps[0], inputs, scope, seen);
      BlockIssuesMean(steps[1..], inputs, ScopeAfter(steps[0], scope), seen');
      NoUnknownRefAppend(StepIssues(steps[0], inputs, scope, seen),
                         BlockIssues(steps[1..], inputs, ScopeAfter(steps[0], scope), seen'));
    }
  }

  lemma {:induction false} StepIssuesMean(step: Step, inputs: set<string>, scope: set<string>, seen: set<string>)
    ensures NoUnknownRef(StepIssues(step, inputs, scope, seen)) <==> StepRefsOk(step, scope)
    decreases step, 1
  {
    match step
    case Call(id, _, args) =>
      EntriesIssuesMean(args, inputs, scope);
      NoUnknownRefAppend(
        if id in seen then [DuplicateStepId(id)] else [], ScalarIssues(EntriesScalars(args), inputs, scope));
    case When(c, body) =>
      RefIssuesMean(c.key, inputs, scope);
      BlockIssuesMean(body, inputs, scope, seen);
      NoUnknownRefAppend(RefIssues(c.key, inputs, scope),
                         if body == [] then [EmptyBranch] else BlockIssues(body, inputs, scope, seen));
  }

  lemma ReportMeans(w: Workflow)
    ensures NoUnknownRef(Report(w)) <==> RefsOk(w.steps, {}) && EntriesRefs(w.outputs) <= BlockScope(w.steps, {})
  {
    BlockIssuesMean(w.steps, w.inputs, {}, {});
    EntriesIssuesMean(w.outputs, w.inputs, BlockScope(w.steps, {}));
    NoUnknownRefAppend(BlockIssues(w.steps, w.inputs, {}, {}),
                       ScalarIssues(EntriesScalars(w.outputs), w.inputs, BlockScope(w.steps, {})));
  }

  // ---------------------------------------------------------------- report, look-ups and runs

  /** All step references of a block are in the scope that the lint pass keeps. */
  predicate RefsOk(steps: seq<Step>, scope: set<string>)
    decreases steps, 0
  {
    steps == [] || (StepRefsOk(steps[0], scope) && RefsOk(steps[1..], ScopeAfter(steps[0], scope)))
  }

  predicate StepRefsOk(step: Step, scope: set<string>)
    decreases step, 1
  {
    match step
    case Call(_, _, args) => EntriesRefs(args) <= scope
    case When(c, body) => RefSteps(c.key) <= scope && RefsOk(body, scope)
  }

  /** References in scope are served, whatever the reading. */
  lemma {:induction false} OkIsServed(
    steps: seq<Step>, scope: set<string>, certain: set<string>, how: Reading, named: bool)
    requires RefsOk(steps, scope) && scope <= certain
    ensures Served(steps, certain, how, named) && BlockScope(steps, scope) <= Certain(steps, certain, how, named)
    decreases steps, 0
  {
    OkScope(steps, scope, certain, how, named);
    if steps != [] {
      var next := Following(steps[1..], named);
      StepOkIsServed(steps[0], scope, certain, how, next);
      OkIsServed(steps[1..], ScopeAfter(steps[0], scope), StepCertain(steps[0], certain, how, next), how, named);
    }
  }

  lemma {:induction false} OkScope(
    steps: seq<Step>, scope: set<string>, certain: set<string>, how: Reading, named: bool)
    requires scope <= certain
    ensures BlockScope(steps, scope) <= Certain(steps, certain, how, named)
    ensures steps != [] ==>
      ScopeAfter(steps[0], scope) <= StepCertain(steps[0], certain, how, Following(steps[1..], named))
    decreases steps, 0
  {
    if steps != [] {
      var next := Following(steps[1..], named);
      match steps[0] {
        case Call(_, _, _) =>
        case When(_, body) => CertainGrows(body, certain, how, next);
      }
      OkScope(steps[1..], ScopeAfter(steps[0], scope), StepCertain(steps[0], certain, how, next), how, named);
    }
  }

  lemma {:induction false} StepOkIsServed(
    step: Step, scope: set<string>, certain: set<string>, how: Reading, named: bool)
    requires StepRefsOk(step, scope) && scope <= certain
    ensures StepServed(step, certain, how, named)
    decreases step, 1
  {
    match step
    case Call(_, _, args) => RenderEntriesLookups(args);
    case When(c, body) => OkIsServed(body, scope, certain, how, named);
  }

  /** Arguments render without losing a reference; every branch can be entered, and is not without a value. */
  ghost predicate Plain(steps: seq<Step>, how: Reading, named: bool)
    decreases steps, 0
  {
    steps == [] || (StepPlain(steps[0], how, Following(steps[1..], named)) && Plain(steps[1..], how, named))
  }

  ghost predicate StepPlain(step: Step, how: Reading, named: bool)
    decreases step, 1
  {
    match step
    case Call(_, _, args) => FieldLookups(RenderEntries(args)) == EntriesRefs(args)
    case When(c, body) =>
      !Enters(c, None, how, named) && Enters(c, Some(LastLiteral(c)), how, named) && Plain(body, how, named)
  }

  lemma {:induction false} ServedIsOk(steps: seq<Step>, scope: set<string>, how: Reading, named: bool)
    requires Plain(steps, how, named) && ReadsKeys(how)
    ensures Served(steps, scope, how, named) <==> RefsOk(steps, scope)
    ensures Certain(steps, scope, how, named) == BlockScope(steps, scope)
    decreases steps, 0
  {
    if steps != [] {
      match steps[0] {
        case Call(_, _, _) =>
        case When(_, body) => ServedIsOk(body, scope, how, Following(steps[1..], named));
      }
      ServedIsOk(steps[1..], ScopeAfter(steps[0], scope), how, named);
    }
  }

  /** The run finishes and finds every result it looks up. */
  ghost predicate SafeRun(o: Outcome, how: Reading) {
    o.Finished? && AllPresent(o.trace, how)
  }

  ghost predicate AlwaysSafe(flow: Flow, via: Dispatcher) {
    forall world: World :: SafeRun(Walk(flow, via, flow.entry, [], world, |flow.order|), ReadingOf(via))
  }

  /** Every run of a compiled flow finds every result it looks up, in any world, if and only if each look-up that
      survives rendering, at a point that some run reaches, is of a step that every run arriving there has called. */
  lemma SafeExactly(w: Workflow, flow: Flow, via: Dispatcher)
    requires Compile(w) == Ok(flow)
    ensures AlwaysSafe(flow, via) <==> WorkflowServed(w, ReadingOf(via))
  {
    hide AllPresent, Walk, Compile, Exec, Served, Certain;
    var how := ReadingOf(via);
    var out := Emitted(RenderEntries(w.outputs));
    assert CalledIds([]) == {};
    assert AllPresent([], how) by { NothingNeeded(how); }
    forall world: World
      ensures SafeRun(Walk(flow, via, flow.entry, [], world, |flow.order|), how) <==>
        var t := Exec(w.steps, [], world, how, false); AllPresent(t, how) && Needs(out, how) <= CalledIds(t)
    {
      WalkIsMeaning(w, flow, via, world, |flow.order|);
      AllPresentAppend(Exec(w.steps, [], world, how, false), out, how);
    }
    if WorkflowServed(w, how) {
      forall world: World ensures SafeRun(Walk(flow, via, flow.entry, [], world, |flow.order|), how) {
        ServedIsSafe(w.steps, [], {}, world, how, false);
        CertainRuns(w.steps, [], {}, world, how, false);
      }
    } else {
      var world: World;
      if !Served(w.steps, {}, how, false) {
        var t := NotServedIsUnsafe(w.steps, [], how, false);
        world := Follow(t);
      } else {
        CertainOnly(w.steps, [], how, false);
        world := Follow([]);
      }
      assert !SafeRun(Walk(flow, via, flow.entry, [], world, |flow.order|), how);
    }
  }

  lemma NothingNeeded(how: Reading)
    ensures AllPresent([], how)
  {
  }

  /** A workflow whose report has no unknown step reference: no run of its compiled flow, in any
      world and with any dispatcher, looks up an absent result. */
  lemma CleanReportIsSafe(w: Workflow, flow: Flow, via: Dispatcher)
    requires Compile(w) == Ok(flow) && NoUnknownRef(Report(w))
    ensures AlwaysSafe(flow, via)
  {
    hide AlwaysSafe, Compile;
    ReportMeans(w);
    OkIsServed(w.steps, {}, {}, ReadingOf(via), false);
    RenderEntriesLookups(w.outputs);
    SafeExactly(w, flow, via);
  }

  /** Where keys are read, rendering loses no reference and every branch can be entered and passed over, the
      report is exact: it is clean if and only if every run finds every result it looks up. */
  lemma CleanReportIsExact(w: Workflow, flow: Flow, via: Dispatcher)
    requires Compile(w) == Ok(flow)
    ensures var how := ReadingOf(via);
      var kept := FieldLookups(RenderEntries(w.outputs)) == EntriesRefs(w.outputs);
      ReadsKeys(how) && Plain(w.steps, how, false) && kept ==>
      (NoUnknownRef(Report(w)) <==> AlwaysSafe(flow, via))
  {
    hide AlwaysSafe, Compile;
    var how := ReadingOf(via);
    ReportMeans(w);
    if ReadsKeys(how) && Plain(w.steps, how, false) { ServedIsOk(w.steps, {}, how, false); }
    SafeExactly(w, flow, via);
  }
}
