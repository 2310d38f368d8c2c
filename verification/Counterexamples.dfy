/** Workflows on which natural claims fail; the general lemmas say exactly when they hold. */
module Counterexamples {
  import opened Collections
  import opened Wdl
  import opened Names
  import opened Labels
  import opened Flows
  import opened FlowEngine
  import opened FlowMeaning
  import opened LintScope
  import opened WorkflowPlan
  import opened PlanAgreement

  const READ: Step := Call("read", "read", [])

  lemma OneCall(id: StepId, used: set<string>, n: nat)
    requires id !in used
    ensures Label([Call(id, "read", [])], used, n) == Ok(Labelled([LCall(id, "read", [])], used + {id}, n))
  {
    var step := Call(id, "read", []);
    assert [step][1..] == [];
    assert [LCall(id, "read", [])] + [] == [LCall(id, "read", [])];
  }

  lemma OneBranch(c: Condition, used: set<string>, n: nat)
    requires "read" !in used
    ensures Label([When(c, [READ])], used, n).Ok?
  {
    var step := When(c, [READ]);
    var k := FreshCounter("when", used, n);
    assert Name("when", k)[0] == 'w' && "read"[0] == 'r';
    OneCall("read", used + {Name("when", k)}, k + 1);
    assert [step][1..] == [];
  }

  function OneBranchFlow(cases: Cases): Workflow {
    Workflow({}, [When(Condition("", InputRef("mode"), cases), [READ])], [])
  }

  lemma OneBranchCompiles(cases: Cases)
    ensures Compile(OneBranchFlow(cases)).Ok?
  {
    OneBranch(OneBranchFlow(cases).steps[0].cond, {}, 0);
  }

  /** A branch on the literal `_DEFAULT` is entered whatever the value, by every dispatcher. */
  lemma DefaultLiteral(via: Dispatcher)
    ensures var w := OneBranchFlow([DEFAULT_CASE]);
      Compile(w).Ok? && !KeepsMeaning(w, Compile(w).value, via)
  {
    var w := OneBranchFlow([DEFAULT_CASE]);
    OneBranchCompiles([DEFAULT_CASE]);
    PreservedExactly(w, Compile(w).value);
    EnginePreservesExactly(w, Compile(w).value);
    if via.ByRuntime? || via.ByIr? { RunnersPreserveExactly(w, Compile(w).value, via); }
    assert !StepNoDefaultCase(w.steps[0]) && !StepSoleCases(w.steps[0]);
    assert Whens(w.steps) >= StepWhens(w.steps[0]) >= 1;
    assert !NoDefaultCase(w.steps) && !SoleCases(w.steps);
  }

  /** A branch on one literal: the runners of compiled flows enter it whatever the value. */
  lemma OneLiteral(via: Dispatcher)
    requires via.ByRuntime? || via.ByIr?
    ensures var w := OneBranchFlow(["a"]);
      Compile(w).Ok? && SoleCases(w.steps) && !KeepsMeaning(w, Compile(w).value, via)
  {
    var w := OneBranchFlow(["a"]);
    OneBranchCompiles(["a"]);
    RunnersPreserveExactly(w, Compile(w).value, via);
    assert "a"[0] != DEFAULT_CASE[0];
    assert [READ][1..] == [] && StepSoleCases(READ) && w.steps[1..] == [];
    assert SoleCases([READ]);
    assert SoleCase(w.steps[0].cond);
    assert StepSoleCases(w.steps[0]);
    assert Whens(w.steps) >= StepWhens(w.steps[0]) >= 1;
  }

  /** A branch on two literals: the engine forgets the first, the edge list does not. */
  lemma TwoLiterals()
    ensures var w := OneBranchFlow(["a", "b"]);
      Compile(w).Ok? && KeepsMeaning(w, Compile(w).value, ByEdges) && !KeepsMeaning(w, Compile(w).value, ByEngine)
  {
    var w := OneBranchFlow(["a", "b"]);
    OneBranchCompiles(["a", "b"]);
    PreservedExactly(w, Compile(w).value);
    EnginePreservesExactly(w, Compile(w).value);
    assert "a"[0] != DEFAULT_CASE[0] && "b"[0] != DEFAULT_CASE[0] && "a"[0] != "b"[0];
    assert [READ][1..] == [] && StepNoDefaultCase(READ);
    assert NoDefaultCase([READ]);
    var step := w.steps[0];
    assert StepNoDefaultCase(step);
    assert w.steps[1..] == [];
    assert step.cond.cases[0] != LastLiteral(step.cond);
    assert !StepSoleCases(step);
  }

  /** An argument given twice: lint reports the first entry, which rendering drops, and every run is safe. */
  lemma RepeatedKey(via: Dispatcher)
    ensures var key := Some("x");
      var args := [Entry(key, Leaf(Reference(StepRef("ghost")))), Entry(key, Leaf(Literal("1")))];
      var w := Workflow({}, [Call("read", "read", args)], []);
      Compile(w).Ok? && !NoUnknownRef(Report(w)) && AlwaysSafe(Compile(w).value, via)
  {
    var key := Some("x");
    var first, second := Entry(key, Leaf(Reference(StepRef("ghost")))), Entry(key, Leaf(Literal("1")));
    var args := [first, second];
    var step := Call("read", "read", args);
    var w := Workflow({}, [step], []);
    assert args[1..] == [second] && [second][1..] == [] && w.steps[1..] == [];
    assert EntryRenderable(first) && EntryRenderable(second);
    assert EntriesRenderable(args);
    assert LabelStep(step, {}, 0).Ok?;
    assert Label(w.steps, {}, 0).Ok?;
    RepeatedLookups(first, second);
    ReportMeans(w);
    assert "ghost" in EntryRefs(first);
    assert "ghost" in EntriesRefs(args);
    assert !StepRefsOk(step, {});
    assert StepServed(step, {}, ReadingOf(via), false);
    assert Served(w.steps, {}, ReadingOf(via), false);
    NoOutputs();
    SafeExactly(w, Compile(w).value, via);
  }

  lemma RepeatedLookups(first: Entry, second: Entry)
    requires first.key == second.key == Some("x") && second.value == Leaf(Literal("1"))
    ensures FieldLookups(RenderEntries([first, second])) == {}
  {
    assert [first, second][1..] == [second] && [second][1..] == [];
    assert RenderEntries([second]) == map["x" := Text(Literal("1"))];
    assert RenderEntries([first, second]) == RenderEntries([second]);
    assert Lookups(Text(Literal("1"))) == {};
  }

  lemma NoOutputs()
    ensures FieldLookups(RenderEntries([])) == {}
  {
  }

  /** A call named `when_0` before a branch: the plan gives both the same node, the compiled flow does not. */
  lemma BranchNamedCall()
    ensures var c := Condition("", InputRef("mode"), ["fast"]);
      var w := Workflow({}, [Call(Name("when", 0), "read", []), When(c, [READ])], []);
      Compile(w).Ok? && !Agrees(PlanBlock(EMPTY, w.steps, []).0, Compile(w).value)
  {
    var c := Condition("", InputRef("mode"), ["fast"]);
    var first, second := Call(Name("when", 0), "read", []), When(c, [READ]);
    var w := Workflow({}, [first, second], []);
    assert w.steps[1..] == [second] && [second][1..] == [];
    assert Name("when", 0)[0] == 'w' && "read"[0] == 'r';
    assert LabelStep(first, {}, 0).Ok? && LabelStep(first, {}, 0).value.used == {} + {Name("when", 0)};
    OneBranch(c, {} + {Name("when", 0)}, 0);
    assert Whens([second]) >= 1 && Whens(w.steps) >= 1;
    assert CallIds(w.steps) == [Name("when", 0)] + CallIds([second]);
    assert CallIds(w.steps)[0] == Name("when", 0);
    assert Name("when", 0) in ToSet(CallIds(w.steps));
    AgreesExactly(w, Compile(w).value);
  }
}
