# TraceMind: a verified model of its core

TraceMind runs workflows written in an indentation language (WDL), analyses flow graphs, normalises
and compares JSON documents, governs policy changes proposed by agents, applies actions to a cluster
idempotently and aggregates run records over a rolling window. This project models those parts in
Dafny and proves what they promise.

## What is proved

**Workflow compiler** (`Wdl`, `Names`, `Labels`, `Flows`, `FlowBuilder`, `Runs`, `FlowEngine`,
`FlowMeaning`, `FlowShape`, `Rendering`, `CompileErrors`). `FlowBuilder.Builder` is the one-pass compiler with its fields updated in
place, exits that dangle and are patched later, generated ids and switch tables filled in as edges are
added. It is proved equal to a declarative graph of the source (`Flows.Compile`). A flow is walked with
one of four dispatchers: `ByEdges`, a specification that takes the edge labelled with the key value, else
the default edge; `ByRuntime` (tm/flow/runtime.py) and `ByIr` (tm/runtime/ir_runner.py), the runners that
are given compiled flows; and `ByEngine` (tm/flow/engine.py) over its graph, in which adding an edge
between the same two steps again overwrites the label. Nothing in the repository hands a compiled flow to
that engine; the result says what it would do with one. With each of them, walking a compiled flow does
exactly what structured execution of the workflow does, for every workflow that compiles and every world
of answers, once branches are read the dispatcher's way (`WalkIsMeaning`); a world may answer differently
after different histories. The literal meaning is kept in every world if and only if the two readings
agree (`KeptExactly`): over the edge list, if no case literal is `_DEFAULT` (`PreservedExactly`); by the
runners, if the workflow has no branch at all (`RunnersPreserveExactly`); by the engine, if every branch
lists one and the same literal, and not `_DEFAULT` (`EnginePreservesExactly`). A compiled flow is a
single-entry, single-exit acyclic graph with nothing dangling. Its tasks and its outputs hold what the source
wrote, position by position, the last entry of a repeated key winning. A workflow compiles if and only if no
block is empty, everything has a key and no two steps share a name, generated names included.

**Lint** (`Lint`, `LintScope`, `LintReport`, `LintAnalyzer`). The scope at a point is exactly the set of steps that
every run arriving there has called. Every run of a compiled flow finds every result it looks up if and
only if each look-up that survives rendering is of a step called for certain; a report without unknown
references implies it, for every dispatcher. The report is the traversal's issues, then exactly the
unreachable calls, then a trail to a cycle if there is one; with distinct ids the last two are empty. Each of the traversal's issues is reported if and only if
its cause is in the workflow: an undeclared input, a reference out of scope, a repeated id, an empty branch.

**Plan** (`WorkflowPlan`, `PlanAgreement`). The second translation of the same source agrees with the
compiled graph if and only if no call is named like one of the workflow's branches (`when_0`, ...) and no
case literal is `_DEFAULT`.

**Flow graph analysis** (`Graphs`, `Levels`, `Planner`, `Validator`). Layering fails exactly on cycles;
otherwise a node's layer is its longest path and the depth is the least possible. Validation reports
exactly the issues a declarative specification lists, each as often as it says, in order, errors first; a
report is free of errors if and only if the graph is well formed, and then planning cannot fail.

**Canonical JSON** (`Json`, `Canonical`). The compact text is injective; canonical forms are equal if
and only if the documents are equivalent; canonicalizing is idempotent. Keys and set-like items come out in the
order of code points, and the set-like places are those that the dotted texts denote.

**Diff** (`Trees`, `Paths`, `Diff`, `DiffLaws`). The changes are exactly the true ones that lie as deep as the
documents allow, in ascending order of paths; patching the old document with them yields the new one.

**Policies** (`PolicyDocs`, `PolicyStore`, `Governance`). Path update laws; of an applied proposal, the last
change to touch a path is what a reader finds there, and what no change touches stays; for every interleaving of
the controller's locked sections, each submission is applied at most once, versions count the history
and the policies are its replay.

**Cluster adapter** (`ApiServer`, `ExecuteAdapter`). For every run of actions mixed with outages and
foreign changes, the server ends as if repeats had been dropped, and each key mutates it at most once. An action
succeeds if and only if the cluster is up, its fields fit its kind and the resource it names exists.

**Retrospect** (`Retrospect`). Rolling aggregates against a filter over the whole history, with the exact
conditions under which they agree; the averages of a concatenation, and of one record.

**Parser** (`Parser`, `ParserLines`, `ParserLayout`, `ParserPrinter`, `ParserRange`, `ParserErrors`). A document parses to a tree if and
only if its lines lay that tree out. Parsing inverts a printer on every tree that any text parses to, line
breaks and all. Blank lines and comments make no difference wherever they are inserted. A text that is
refused has the defect that the error names, at the line that it names.

Helpers: `Collections`, `Characters`, `StringOrder`. `Counterexamples` holds the failing workflows.

## Where code and claims differ

- The runners of compiled flows do not look at the value of a branch. `tm run` looks for a key that the
  compiler never writes, then for `_DEFAULT` among the successor ids, and else takes the first successor
  (tm/flow/runtime.py:557-568), which is the body; a branch is passed over only when the step after it is
  called `_DEFAULT`. The IR runner keeps the first edge of every step (tm/runtime/ir_runner.py:101-108) and
  always enters. So `when $input.mode == "a"` runs its body for "b". See
  `FlowMeaning.RunnersPreserveExactly` and `Counterexamples.OneLiteral`.
- The engine's graph keeps one label between two steps (tm/flow/graph.py:49-50), and all case edges of a
  branch lead to the same step, so given compiled edges only the last literal would count. See
  `FlowMeaning.EnginePreservesExactly`.
- Lint reports a reference in an argument that is given again, which rendering drops
  (tm/dsl/_render.py:25-31). See `Counterexamples.RepeatedKey`.
- `latest` starts at 0 (tm/ai/retrospect.py:36), so with negative times and a window longer than the
  retention entries are counted that lie before `latest - min(window, retention)`. See
  `Retrospect.MeetsFilterExactly`. With times out of order the same happens for any window longer than
  the retention. See `Retrospect.AlwaysWithinExactly`.
- Listing the policies reads the version and the policies in two locked sections (tm/ai/controller.py:28-32);
  an approval in between lists a version with later policies. See `Governance.ListedPolicies`.
- An approval whose proposal has a path without parts loses the proposal: it is popped before the store
  refuses it (tm/ai/controller.py:44-46). See `Governance.Controller.Approve`.
- `PolicyStore.history(0)` returns everything, as `data[-0:]` does (tm/ai/policy_store.py:44-49).

## Model

| member | source | states |
|---|---|---|
| `Wdl.RenderLookups` | tm/dsl/_render.py:10-22 | evaluating a rendered value looks up only steps that the raw value references, and all of them when no key repeats |
| `Rendering.RenderIs` | tm/dsl/_render.py:10-31 | the rendered value has the shape of the raw one: a leaf is its scalar, a list corresponds item by item, a dictionary has exactly the keys of the entries and at each the value of the last entry with that key |
| `Names.NameInjective` | tm/dsl/compiler_flow.py:226-231 | generated ids with different counters differ |
| `Names.FreshCounterIsLeast` | tm/dsl/compiler_flow.py:226-231 | the generated id is free and every smaller counter was taken |
| `Labels.LabelGood` | tm/dsl/compiler_flow.py:98-174 | naming the branches gives distinct ids, keeps the source (erasing the names returns it) and reports exactly the ids in use |
| `Flows.AddToTableKeeps` | tm/dsl/compiler_flow.py:209-220 | adding an edge keeps every switch table equal to the label-to-target relation of its edges |
| `FlowBuilder.Builder.constructor` | tm/dsl/compiler_flow.py:56-96 | a new builder is empty |
| `FlowBuilder.Builder.AddStep` | tm/dsl/compiler_flow.py:198-207 | a new id is inserted, first one becomes the entry; a taken id is an error that changes nothing |
| `FlowBuilder.Builder.AddEdge` | tm/dsl/compiler_flow.py:209-220 | the edge is appended and the source's table updated, keeping the builder consistent |
| `FlowBuilder.Builder.LinkSegments` | tm/dsl/compiler_flow.py:222-224 | exactly the given exits are connected to the target |
| `FlowBuilder.Builder.UniqueStepId` | tm/dsl/compiler_flow.py:226-231 | the least free id from the counter on |
| `FlowBuilder.Builder.CompileSequence` | tm/dsl/compiler_flow.py:98-113 | a block adds exactly the steps and edges of its declarative graph, leaves exactly its exits dangling, or fails with the specified error |
| `FlowBuilder.Builder.CompileStep` | tm/dsl/compiler_flow.py:115-120 | the same for one step |
| `FlowBuilder.Builder.CompileCall` | tm/dsl/compiler_flow.py:122-140 | the same for a call |
| `FlowBuilder.Builder.CompileWhen` | tm/dsl/compiler_flow.py:142-174 | the same for a branch: switch, case edges to the body, default exit |
| `FlowBuilder.Builder.AddOutputsStep` | tm/dsl/compiler_flow.py:176-191 | the emit step with a generated id |
| `FlowBuilder.Builder.AddFinishStep` | tm/dsl/compiler_flow.py:193-196 | the finish step with a generated id |
| `FlowBuilder.Builder.CompileWorkflow` | tm/dsl/compiler_flow.py:56-96 | the builder computes the declarative compilation, errors included |
| `Rendering.CompiledCall` | tm/dsl/compiler_flow.py:122-140 | every call of the source, at any depth, is a task of the compiled flow with its id and target, and the task's arguments correspond to the source's |
| `Rendering.CompiledOutputs` | tm/dsl/compiler_flow.py:176-191 | the compiled flow has an emit step whose outputs correspond to the source's |
| `Rendering.EmittedOutputs` | tm/dsl/compiler_flow.py:176-191 | the last event of structured execution, in every world, emits outputs that correspond to the source's |
| `CompileErrors.CompilesExactly` | tm/dsl/compiler_flow.py:56-231 | a workflow compiles if and only if no block is empty, every argument and output has a key, and no two steps have the same name, generated names included |
| `CompileErrors.RefusedFor` | tm/dsl/compiler_flow.py:98-207 | a refused workflow has the defect that the error names: an empty block, a missing key, or a call whose id another step has too |
| `FlowEngine.SwitchArcs` | tm/flow/graph.py:46-69 | the successors of a compiled switch in the engine's graph: the body under the last case literal, then the continuation under the default label |
| `FlowEngine.SwitchTargets` | tm/flow/recipe_loader.py:192-212 | the successors of a compiled switch without labels, in list order: the body first, and the continuation |
| `FlowEngine.ChoiceIs` | tm/flow/runtime.py:557-568 | a compiled switch enters its body exactly when the dispatcher's reading of the branch does, for each of the four dispatchers |
| `FlowMeaning.WalkBlock` | tm/flow/runtime.py:480-555 | with each dispatcher a flow that implements a block does what the block does and goes on at its continuation, using at most one visit per step |
| `FlowMeaning.CompiledImplements` | tm/dsl/compiler_flow.py:56-224 | the compiled graph implements its source block by block |
| `FlowMeaning.WalkIsMeaning` | tm/dsl/compiler_flow.py:56-224 | walking a compiled flow with each dispatcher performs exactly the tests and calls of structured execution in order, then emits and finishes, in every world |
| `FlowMeaning.KeptExactly` | tm/dsl/compiler_flow.py:142-174 | a dispatcher keeps the literal meaning in every world if and only if it reads every branch literally |
| `FlowMeaning.PreservedExactly` | tm/dsl/compiler_flow.py:142-174 | over the edge list the literal meaning is kept in every world if and only if no case literal is the default label |
| `FlowMeaning.RunnersPreserveExactly` | tm/flow/runtime.py:557-568 | the runners of compiled flows keep the literal meaning in every world if and only if the workflow has no branch |
| `FlowMeaning.EnginePreservesExactly` | tm/flow/engine.py:119-143 | given the compiled edges, the engine keeps the literal meaning in every world if and only if every branch lists one and the same literal, and not the default label |
| `Counterexamples.OneLiteral` | tm/runtime/ir_runner.py:101-108 | a branch on one literal compiles and loses its meaning with both runners |
| `Counterexamples.DefaultLiteral` | tm/flow/engine.py:119-143 | a workflow with the literal `_DEFAULT` that compiles and loses its meaning with every dispatcher |
| `Counterexamples.TwoLiterals` | tm/flow/graph.py:49-50 | a branch on two literals keeps its meaning over the edge list and loses it in the engine |
| `FlowShape.DanglingExits` | tm/dsl/compiler_flow.py:98-174 | after a block is compiled, the calls and switch defaults without successor are exactly its exits, except defaults whose label is also a case literal |
| `FlowShape.CompiledTables` | tm/dsl/compiler_flow.py:209-224 | in a compiled flow nothing dangles and each switch's table is the label-to-target relation of its edges, default included |
| `FlowShape.CompiledIsDag` | tm/dsl/compiler_flow.py:56-96 | edges go from earlier to later steps, the entry is the first and reaches every step, finish is reached by every step and is the only sink |
| `FlowShape.IrStartsAtEntry` | tm/runtime/ir_runner.py:111-116 | the one step that no first edge leads to is the entry of the flow, where the IR runner starts |
| `Lint.CallGraphIsSound` | tm/dsl/lint.py:183-339 | with distinct ids the call graph is acyclic and every call is reachable from the first |
| `LintScope.ScopeIsExact` | tm/dsl/lint.py:183-273 | a step is in scope at a point if and only if every run arriving there has called it |
| `LintScope.ReportMeans` | tm/dsl/lint.py:342-390 | no unknown reference is reported if and only if every reference is in scope |
| `LintReport.ReportExactly` | tm/dsl/lint.py:183-278 | an issue is reported if and only if its cause is at some point of the workflow or in its outputs; a duplicate id, if and only if two calls have it |
| `LintReport.MissingInputExactly` | tm/dsl/lint.py:342-390 | an input is reported missing if and only if it is not declared and an argument, an output or a branch key references it |
| `LintReport.UnknownStepExactly` | tm/dsl/lint.py:342-390 | a step is reported unknown if and only if it is referenced at a point, or in the outputs, where it is not in scope |
| `LintReport.EmptyBranchExactly` | tm/dsl/lint.py:237-273 | an empty branch is reported if and only if some branch, at any depth, has no steps |
| `LintScope.SafeExactly` | tm/dsl/runtime.py:49-145 | with each dispatcher every run of a compiled flow finds every result it looks up, in any world, if and only if each look-up that survives rendering, where some run reaches it, is of a step called for certain |
| `LintScope.CleanReportIsSafe` | tm/dsl/runtime.py:124-145 | without unknown references no run of the compiled flow, in any world and with any dispatcher, looks up an absent result |
| `LintScope.CleanReportIsExact` | tm/dsl/lint.py:342-390 | where keys are read, rendering loses no reference and every branch can be entered and passed over, the report is clean if and only if every run is safe |
| `Counterexamples.RepeatedKey` | tm/dsl/_render.py:25-31 | an argument given twice: lint reports the dropped entry and every run is safe |
| `LintAnalyzer.Analyzer.constructor` | tm/dsl/lint.py:162-173 | a new analyzer has seen nothing |
| `LintAnalyzer.Analyzer.ProcessSequence` | tm/dsl/lint.py:183-203 | issues, scope, exits, recorded calls and edges of a block are those of the specification |
| `LintAnalyzer.Analyzer.ProcessCall` | tm/dsl/lint.py:205-235 | the same for a call |
| `LintAnalyzer.Analyzer.ProcessWhen` | tm/dsl/lint.py:237-273 | the same for a branch, whose definitions do not escape |
| `LintAnalyzer.Analyzer.CheckScalars` | tm/dsl/lint.py:342-366 | one issue for each undeclared input and each step out of scope, in order |
| `LintAnalyzer.Analyzer.ValidateReachability` | tm/dsl/lint.py:280-312 | reports, in ascending order, exactly the calls the entry does not reach |
| `LintAnalyzer.Analyzer.ValidateCycles` | tm/dsl/lint.py:314-339 | reports nothing if the graph is acyclic, else the steps of a trail that starts on a cycle and follows edges backwards |
| `LintAnalyzer.Analyzer.Run` | tm/dsl/lint.py:175-339 | the whole report is the traversal's issues, the unreachable calls and the cycle trail; with distinct ids the graph passes add nothing |
| `WorkflowPlan.Planner.constructor` | tm/dsl/plan.py:149-157 | a new planner is empty |
| `WorkflowPlan.Planner.Build` | tm/dsl/plan.py:159-163 | the planner computes the specified plan |
| `WorkflowPlan.Planner.ProcessSequence` | tm/dsl/plan.py:166-173 | nodes, edges, pending labels and exits of a block are those of the specification |
| `WorkflowPlan.Planner.ProcessCall` | tm/dsl/plan.py:175-188 | the same for a call |
| `WorkflowPlan.Planner.ProcessWhen` | tm/dsl/plan.py:190-216 | the same for a branch |
| `WorkflowPlan.Planner.ConnectTo` | tm/dsl/plan.py:219-233 | each source is connected once, under its pending label, which is used up |
| `PlanAgreement.AgreesExactly` | tm/dsl/plan.py:159-238 | the plan has the nodes and edges of the compiled graph, `if` for case edges and `else` for the default edge, if and only if no call is named like a branch and no case literal is the default label |
| `Counterexamples.BranchNamedCall` | tm/dsl/plan.py:235-238 | a call named `when_0` on which plan and compiled graph disagree |
| `Levels.LevelIsPathBound` | tm/ana/planner.py:39-60 | a node is settled after k rounds if and only if every path ending at it has at most k nodes |
| `Levels.LeftOverIsBehindCycle` | tm/ana/validator.py:160-183 | nodes left over by the rounds are exactly those reachable from a cycle |
| `Levels.AllLevelledIffAcyclic` | tm/ana/planner.py:61-63 | nothing is left over if and only if the graph is acyclic |
| `Planner.BuildAdjacency` | tm/ana/planner.py:20-37 | the adjacency has every node, targets included, and each edge once |
| `Planner.CountIndegree` | tm/ana/planner.py:39-43 | each node's count is its number of predecessors |
| `Planner.LayerGraph` | tm/ana/planner.py:44-59 | the loop's layers are the successive levels and its remaining counts those of the nodes left over |
| `Planner.Plan` | tm/ana/planner.py:20-68 | fails if and only if there is a cycle; otherwise the layers partition the nodes by longest path, sorted, with exact statistics |
| `Planner.DepthIsLeast` | tm/ana/planner.py:20-68 | no valid layering has fewer layers |
| `Planner.LayersIncrease` | tm/ana/planner.py:20-68 | every edge goes to a later layer |
| `Validator.CheckNodes` | tm/ana/validator.py:49-104 | exactly the invalid ids, self loops and repeated edges: a self loop once for each occurrence, the others once |
| `Validator.Visit` | tm/ana/validator.py:138-147 | depth-first search visits exactly the nodes reachable from the root |
| `Validator.CheckEntrypoints` | tm/ana/validator.py:109-157 | exactly the missing or extra entry points and the nodes the least one does not reach |
| `Validator.CheckCycles` | tm/ana/validator.py:160-183 | a cycle is reported if and only if one exists, at the least node downstream of a cycle |
| `Validator.Validate` | tm/ana/validator.py:37-197 | the report holds exactly the specified issues, each as often as specified, sorted, every error before every warning |
| `Validator.InvalidIdsReported` | tm/ana/validator.py:43-59 | a declared id that is empty or holds a blank, a tab or a line break anywhere is reported; one of visible ASCII characters is not |
| `Validator.ErrorFreeExactly` | tm/ana/validator.py:77-183 | no errors if and only if ids are valid, all targets defined, no cycle, and empty or one root reaching everything |
| `Validator.Analyze` | tm/cli/flow.py:149-169 | a graph is planned if and only if it is well formed, and planning then never fails |
| `Json.PrintInjective` | tm/ast/canonical.py:51-52 | the compact text determines the value |
| `StringOrder.LeqExactly` | tm/ast/canonical.py:75-78 | texts are ordered by the first character in which they differ, a prefix first |
| `Canonical.SetLikeFromTexts` | tm/ast/canonical.py:7-32 | the set-like positions are those that the five dotted texts denote |
| `Canonical.CanonicalizeSetLikeList` | tm/ast/canonical.py:62-72 | the loop keeps the first item of every sort key and sorts |
| `Canonical.SetFormIs` | tm/ast/canonical.py:55-72 | a set-like list comes out with the same items, once each, in key order |
| `Canonical.SetFormOrder` | tm/ast/canonical.py:55-72 | in a set-like list scalars come before containers, and each kind in code point order of the compact texts |
| `Canonical.SetFormDecides` | tm/ast/canonical.py:62-72 | two lists have the same form if and only if they hold the same items |
| `Canonical.SortThenCanon` | tm/ast/canonical.py:75-78 | sorting fields before or after canonicalizing them is the same |
| `Canonical.CanonWellFormed` | tm/ast/canonical.py:75-86 | canonical documents are well formed |
| `Canonical.CanonKeysAscend` | tm/ast/canonical.py:75-78 | the keys of a canonical object ascend strictly by code point |
| `Canonical.CanonDecides` | tm/ast/canonical.py:75-86 | canonical forms are equal if and only if the documents differ only in key order and in order or multiplicity at set-like paths, at any depth |
| `Canonical.CanonIsEquivalent` | tm/ast/canonical.py:75-86 | a document is equivalent to its canonical form |
| `Canonical.CanonIdempotent` | tm/ast/canonical.py:75-86 | canonicalizing twice is canonicalizing once |
| `Diff.DiffJson` | tm/app/wiring.py:51-83 | the code's changes are the specified difference under the given path |
| `Diff.DiffDict` | tm/app/wiring.py:57-67 | the loop over sorted keys computes the specified difference |
| `Diff.DiffList` | tm/app/wiring.py:69-79 | the loop over positions computes the specified difference |
| `DiffLaws.ChangesHold` | tm/app/wiring.py:51-83 | an added path is new, a removed one gone, a modified one holds the two stated, different values |
| `DiffLaws.ChangesExactly` | tm/app/wiring.py:51-83 | a change is in the difference if and only if it is true of both documents, they have containers of one kind all along its path, and what it replaces is not a pair of dictionaries or of lists |
| `DiffLaws.ChangesInOrder` | tm/app/wiring.py:57-79 | the changes are listed in ascending order of keys and positions where their paths part |
| `DiffLaws.DiffersAbove` | tm/app/wiring.py:51-83 | the documents differ at every prefix of a changed path |
| `DiffLaws.ChangesApart` | tm/app/wiring.py:51-83 | no changed path is a prefix of another |
| `DiffLaws.PatchYieldsNew` | tm/app/wiring.py:51-83 | patching the old document with the changes, one by one, yields the new one |
| `DiffLaws.EmptyIffEqual` | tm/app/wiring.py:51-83 | the difference is empty if and only if the documents are equal |
| `DiffLaws.DiffersOnlyWhereChanged` | tm/app/wiring.py:51-83 | lookups differ only at paths comparable with a changed one |
| `PolicyDocs.SegmentsExactly` | tm/ai/proposals.py:22 | dotted texts denote exactly the sequences of non-empty, dot-free parts |
| `PolicyDocs.NoSegments` | tm/ai/proposals.py:22-24 | a path has no parts if and only if it is made of dots |
| `PolicyDocs.ReadAfterWrite` | tm/ai/proposals.py:19-34 | every lookup after a change: at or below the path, above it, and elsewhere |
| `PolicyDocs.GetAfterSet` | tm/ai/policy_store.py:32-42 | get after set returns the value |
| `PolicyDocs.GetAfterRemove` | tm/ai/policy_store.py:32-42 | get after remove finds nothing |
| `PolicyDocs.ElsewhereUnchanged` | tm/ai/proposals.py:25-34 | an incomparable path reads the same, also when scalars on the way became objects |
| `PolicyDocs.WritesCommute` | tm/ai/proposals.py:19-34 | changes at incomparable paths commute |
| `PolicyDocs.LastWriteWins` | tm/ai/proposals.py:19-34 | a change makes earlier ones at or below its path irrelevant |
| `PolicyStore.AppliesIff` | tm/ai/policy_store.py:63-65 | a list of changes applies, to any document, if and only if each path has a part |
| `PolicyStore.ChangesTakeEffect` | tm/ai/policy_store.py:63-65 | after the changes each path that no later change touches reads the value set there, or nothing if removed, and a path incomparable with all of them reads as before |
| `PolicyStore.AppliedIff` | tm/ai/policy_store.py:55-80 | the store accepts a proposal, in any state, if and only if each of its paths has a part |
| `PolicyStore.AppliedConsistent` | tm/ai/policy_store.py:55-80 | applying keeps versions gap-free and the policies equal to the replay |
| `PolicyStore.Store.constructor` | tm/ai/policy_store.py:85-87 | a new store is empty and consistent |
| `PolicyStore.Store.Get` | tm/ai/policy_store.py:32-42 | the node at the path, or the default |
| `PolicyStore.Store.History` | tm/ai/policy_store.py:44-49 | the entries that the slice keeps, for every limit |
| `PolicyStore.Store.Apply` | tm/ai/policy_store.py:55-80 | a new version whose last history entry has the version, actor, reason and changes, and whose policies read as the changes say, in order; or an error that changes nothing |
| `Governance.Controller.constructor` | tm/ai/controller.py:18-23 | nothing is pending |
| `Governance.Controller.ListPolicies` | tm/ai/controller.py:28-32 | for a single caller the version and the policies of one snapshot |
| `Governance.Controller.Submit` | tm/ai/controller.py:38-42 | the proposal is pending, replacing one with its id |
| `Governance.Controller.PopPending` | tm/ai/controller.py:69-73 | the pending proposal is taken, or unknown |
| `Governance.Controller.Approve` | tm/ai/controller.py:44-54 | the proposal leaves the pending ones and is applied, with the actor and reason given in the last history entry and its changes in force, or refused; it is lost if and only if one of its paths has no part |
| `Governance.Controller.Reject` | tm/ai/controller.py:56-64 | the proposal leaves the pending ones |
| `Governance.NextKeeps` | tm/ai/controller.py:38-73 | every locked section keeps each submission in exactly one place and the store consistent |
| `Governance.StepsAreCalls` | tm/ai/controller.py:38-64 | the sections of submitting and rejecting change the pending proposals as the calls do, and nothing else |
| `Governance.EveryRunIsGoverned` | tm/ai/controller.py:38-73 | in every interleaving each submission is applied at most once, versions are gap-free and count the history, and the policies are its replay |
| `Governance.EverySubmissionAccounted` | tm/ai/controller.py:38-73 | every submission of a run has one fate, and those in force are exactly the history |
| `Governance.GoneForGood` | tm/ai/controller.py:38-73 | a replaced, rejected or refused submission never enters the history in any continuation |
| `Governance.ApprovalUninterrupted` | tm/ai/controller.py:44-54 | an approval whose sections follow each other is the sequential one |
| `Governance.ListedPolicies` | tm/ai/controller.py:28-32 | among many callers the listed policies are those of the listed version and what was applied since; both belong to one snapshot if and only if nothing was |
| `Governance.TornListing` | tm/ai/controller.py:28-32 | an approval between the two reads lists version 0 with the policies of version 1 |
| `Governance.PastPoliciesReplay` | tm/ai/policy_store.py:55-80 | policies once in force are the replay of a prefix of any later history |
| `ApiServer.StrategicMerge` | extensions/k8s/fake_apiserver.py:261-274 | the loop computes the key-by-key merge |
| `ApiServer.MergeFixedIff` | extensions/k8s/fake_apiserver.py:261-274 | merging changes nothing if and only if the document already holds the patch |
| `ApiServer.MergeElsewhere` | extensions/k8s/fake_apiserver.py:261-274 | a key that the patch does not have keeps its value |
| `ApiServer.MergeTwice` | extensions/k8s/fake_apiserver.py:261-274 | merging a patch twice equals merging it once |
| `ApiServer.PatchedTwice` | extensions/k8s/fake_apiserver.py:175-182 | patching a resource again changes its revision only |
| `ApiServer.Server.constructor` | extensions/k8s/fake_apiserver.py:104-108 | no resources and no outage |
| `ApiServer.Server.SetOutage` | extensions/k8s/fake_apiserver.py:112-114 | only the outage flag changes |
| `ApiServer.Server.CreateResource` | extensions/k8s/fake_apiserver.py:153-161 | a new resource at revision 1; unavailable in an outage, a conflict for a taken id, and neither changes anything |
| `ApiServer.Server.PatchResource` | extensions/k8s/fake_apiserver.py:163-182 | the patched resource, or an error that changes nothing |
| `ApiServer.Server.ScaleResource` | extensions/k8s/fake_apiserver.py:184-190 | outage first, then anything but a non-negative integer is invalid, then a patch of spec.replicas |
| `ExecuteAdapter.Adapter.constructor` | extensions/k8s/adapters.py:181-183 | nothing is remembered |
| `ExecuteAdapter.Adapter.Execute` | extensions/k8s/adapters.py:185-229 | server, memory and response are those of the specification |
| `ExecuteAdapter.Adapter.DispatchAction` | extensions/k8s/adapters.py:231-260 | the four kinds of action; a failure leaves the server unchanged |
| `ExecuteAdapter.ErrorChangesNothing` | extensions/k8s/adapters.py:216-224 | an error leaves server and memory unchanged |
| `ExecuteAdapter.RunErrorChangesNothing` | extensions/k8s/adapters.py:185-229 | so it does at every point of every run |
| `ExecuteAdapter.OutageFreezes` | extensions/k8s/fake_apiserver.py:245-247 | during an outage nothing changes and only repeats succeed |
| `ExecuteAdapter.SuccessTouchesOne` | extensions/k8s/adapters.py:231-260 | a success changes one existing resource and raises its revision by one |
| `ExecuteAdapter.SucceedsExactly` | extensions/k8s/adapters.py:231-260 | an action of a kind that names a resource succeeds if and only if there is no outage, the kind is supported, the payload fits it and the resource exists; the view then has that kind, namespace and name |
| `ExecuteAdapter.UnnamedFails` | extensions/k8s/adapters.py:185-260 | no action without a kind or without naming a resource succeeds |
| `ExecuteAdapter.ActionEffects` | extensions/k8s/adapters.py:231-260 | scaling sets the replicas, labelling adds the labels, deleting marks the status, each leaving the rest of the resource; a patch merges its sections |
| `ExecuteAdapter.RunDropsRepeats` | extensions/k8s/adapters.py:185-260 | the server ends as in the run without repeats and without memory |
| `ExecuteAdapter.AtMostOneMutation` | extensions/k8s/adapters.py:212-229 | in any run each key changes the server at most once, and not at all once remembered |
| `ExecuteAdapter.RepeatReturnsFirst` | extensions/k8s/adapters.py:212-214 | after a success a supported action with its key changes nothing and returns that success, whatever happened between |
| `ExecuteAdapter.DistinctKeysKept` | extensions/k8s/adapters.py:212-214 | actions under different keys are never dropped |
| `Retrospect.Compute` | tm/ai/retrospect.py:92-119 | count and averages of the newest entries back to the first one before the cutoff |
| `Retrospect.OneRecord` | tm/ai/retrospect.py:39-48 | the metrics of one record: its status, reward, duration and cost, with the defaults for missing ones |
| `Retrospect.AveragesPlus` | tm/ai/retrospect.py:106-119 | for a concatenation the counts add up, and so does each average weighted by its count |
| `Retrospect.Aggregator.constructor` | tm/ai/retrospect.py:32-37 | retention of at least one second, nothing kept |
| `Retrospect.Aggregator.Ingest` | tm/ai/retrospect.py:39-53 | the history grows by the entry; kept entries and latest time stay functions of it |
| `Retrospect.Aggregator.AggregateOne` | tm/ai/retrospect.py:55-61 | averages of the counted part of the binding's history |
| `Retrospect.Aggregator.AggregateAll` | tm/ai/retrospect.py:62-64 | the same for every binding |
| `Retrospect.CountedIsFilter` | tm/ai/retrospect.py:39-124 | with times in order the counted entries are the whole history filtered at the later of two cutoffs |
| `Retrospect.MeetsFilterExactly` | tm/ai/retrospect.py:39-124 | that is the filter at latest minus min(window, retention) for every history if and only if the last time is not negative, or the window is within the retention, or everything is older than the window |
| `Retrospect.NegativeTimesMiss` | tm/ai/retrospect.py:52-53 | two entries with negative times, both counted, not both in the advertised filter |
| `Retrospect.CountedIsRecent` | tm/ai/retrospect.py:92-123 | in any order the counted entries are the newest part of the history and within the window |
| `Retrospect.AlwaysWithinExactly` | tm/ai/retrospect.py:92-123 | in any order they lie within the advertised filter for every history if and only if the window is within the retention |
| `Retrospect.LateEntryCounted` | tm/ai/retrospect.py:92-123 | an entry arriving late that is counted and is not in the advertised filter |
| `Parser.FindMappingSeparator` | tm/dsl/parser.py:367-393 | the first colon outside quotes, not escaped and not followed by `=` |
| `ParserLines.QuotedKey` | tm/dsl/parser.py:367-393 | the separator of a quoted key comes after the closing quote, whatever colons the key holds |
| `ParserLines.EscapedColon` | tm/dsl/parser.py:367-393 | an escaped colon and the start of `:=` are no separators |
| `ParserLines.DashExactly` | tm/dsl/parser.py:277 | a list item is a dash and a blank with anything after |
| `Parser.PrepareLines` | tm/dsl/parser.py:133-159 | a text cut at every line break: number, indentation and content of the lines that are neither blank nor comments, or the first tab error |
| `ParserLines.IgnoredExactly` | tm/dsl/parser.py:133-159 | a line is passed over if and only if it is blank or its first visible character is a number sign |
| `ParserLines.PreparesExactly` | tm/dsl/parser.py:133-159 | without a tab in an indentation the result holds every line that counts, once, under its number, in order, split at its indentation; else the error is at the first such tab |
| `ParserLines.InsertedLineIgnored` | tm/dsl/parser.py:133-159 | inserting a blank line or a comment, not indented with a tab, between two lines of a text or at its ends, changes neither the tree nor the kind of error |
| `Parser.ParseMapping` | tm/dsl/parser.py:162-250 | the loop computes the recursive specification, errors and their lines included |
| `Parser.ParseSequence` | tm/dsl/parser.py:253-364 | the same for list items |
| `Parser.ParseEntries` | tm/dsl/parser.py:173-250 | makes progress and stops only at a shallower line or at the end |
| `Parser.ParseItems` | tm/dsl/parser.py:266-364 | makes progress and stops only at a shallower line or at the end |
| `Parser.ParseDocument` | tm/dsl/parser.py:109-130 | splits and prepares a text, then parses a mapping at the top level |
| `ParserLayout.EntriesSound` | tm/dsl/parser.py:162-250 | parsed lines fall into consecutive pieces, one for each entry, each headed by one line |
| `ParserLayout.EntriesComplete` | tm/dsl/parser.py:162-250 | lines that lay out entries, up to a shallower line, parse to them |
| `ParserLayout.ItemsSound` | tm/dsl/parser.py:253-364 | the same for list items |
| `ParserLayout.ItemsComplete` | tm/dsl/parser.py:253-364 | the same for list items |
| `ParserLayout.ParsesExactly` | tm/dsl/parser.py:109-130 | a document parses to a tree if and only if its lines lay that tree out, and uses all lines |
| `ParserErrors.RefusedFor` | tm/dsl/parser.py:109-364 | a refused text has the defect that the error names at its line: the first tab, no line that counts, an indented start, a line deeper than its block, an item among entries or the reverse, an empty key, an item without a block |
| `ParserPrinter.SplitJoined` | tm/dsl/parser.py:135 | splitting undoes joining lines that hold no break |
| `ParserPrinter.PrintThenParse` | tm/dsl/parser.py:109-364 | parsing the printed text of a representable document gives it back |
| `ParserRange.ParsedIsPrintable` | tm/dsl/parser.py:109-364 | whatever the parser returns is representable |
| `ParserRange.RangeExactly` | tm/dsl/parser.py:109-364 | a tree is the parse of some text if and only if it is representable |
| `ParserRange.Reprint` | tm/dsl/parser.py:109-364 | for every text that parses, printing the tree and parsing again gives the same tree |

## Left out

- Condition and literal text: a condition is its text, the reference it reads and its case literals; a scalar
  is a literal or one reference. The regular expressions that find references inside text are not modelled.
- Columns, file names and the wording of error messages in the parser and the lint pass, and the source
  locations in parsed trees.
- Branches that cannot be taken: the trailing-content error of the parser (tm/dsl/parser.py:122-129), its
  missing-item error (tm/dsl/parser.py:261-262), the second entry test of the planner
  (tm/dsl/plan.py:204-205), the empty-branch exit of the lint pass (tm/dsl/lint.py:266-270) and the cycle
  report without a node in the validator.
- Other step kinds of the engine and the runners, operator failures, hooks, policies and tracing. A step other
  than finish without successors ends a run; the model calls it stuck, and compiled flows have none. The IR runner
  also passes the finish step to the default handler.
- Writing a compiled flow to a file, loading it and the checks of the recipe loader: runners and engine are given
  the compiled edges in order.
- Values computed by steps: a world answers every switch key from the history of the run.
- Policy documents and patches are values: sharing between a change's value and the stored document, and
  between a cached response and its caller, is not modelled; `Change.apply` updates in place in the source.
- Persistence of the policy store, its loading from a file, audit records and clocks.
- Lower-casing of statuses and the text of label values are parameters; averages are over real numbers.
- Comparison of two windows in the aggregator, reading resources and metrics, deleting a resource outright.
- Documents with keys that are not text, NaN, and the indented text of canonical documents.
- Command line, network, daemon, agents, policy language and artifact schemas.
