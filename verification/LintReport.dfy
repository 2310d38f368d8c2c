/** What the traversal of tm/dsl/lint.py reports, issue by issue. */
module LintReport {
  import opened Collections
  import opened Wdl
  import opened Lint
  import opened LintScope

  // ---------------------------------------------------------------- who mentions what

  /** The node holds the reference, at any depth. */
  ghost predicate Mentions(n: Node, r: Ref)
    decreases n, 1
  {
    match n
    case Leaf(s) => s == Reference(r)
    case Mapping(es) => AnyMentions(es, r)
    case Sequence(ns) => exists i :: 0 <= i < |ns| && Mentions(ns[i], r)
  }

  ghost predicate AnyMentions(es: seq<Entry>, r: Ref)
    decreases es, 0
  {
    exists i :: 0 <= i < |es| && EntryMentions(es[i], r)
  }

  ghost predicate EntryMentions(e: Entry, r: Ref)
    decreases e, 2
  {
    Mentions(e.value, r)
  }

  /** The step itself holds the reference: a call in its arguments, a branch in its condition. */
  ghost predicate StepMentions(step: Step, r: Ref) {
    match step
    case Call(_, _, args) => AnyMentions(args, r)
    case When(c, _) => c.key == r
  }

  /** The step at a point. */
  function StepAt(steps: seq<Step>, path: seq<nat>): Step
    requires IsPoint(steps, path)
    decreases |path|
  {
    if |path| == 1 then steps[path[0]] else StepAt(steps[path[0]].body, path[1..])
  }

  /** The issue a reference causes where `scope` is available. */
  ghost predicate Complains(r: Ref, inputs: set<string>, scope: set<string>, i: Issue) {
    match r
    case InputRef(n) => n !in inputs && i == MissingInput(n)
    case StepRef(n) => n !in scope && i == UnknownStepRef(n)
  }

  // ---------------------------------------------------------------- scalars

  ghost predicate ScalarsHave(ss: seq<Scalar>, r: Ref) { Reference(r) in ss }

  lemma {:induction false} ScalarsOf(n: Node, r: Ref)
    ensures ScalarsHave(Scalars(n), r) <==> Mentions(n, r)
    decreases n, 1
  {
    match n
    case Leaf(_) =>
    case Mapping(es) => EntriesScalarsOf(es, r);
    case Sequence(ns) => ItemScalarsOf(ns, r);
  }

  lemma {:induction false} ItemScalarsOf(ns: seq<Node>, r: Ref)
    ensures ScalarsHave(ItemScalars(ns), r) <==> exists i :: 0 <= i < |ns| && Mentions(ns[i], r)
    decreases ns, 0
  {
    hide Mentions;
    if ns != [] {
      ScalarsOf(ns[0], r);
      ItemScalarsOf(ns[1..], r);
      if i :| 0 <= i < |ns| && Mentions(ns[i], r) { if i > 0 { assert ns[1..][i - 1] == ns[i]; } }
      if i :| 0 <= i < |ns[1..]| && Mentions(ns[1..][i], r) { assert ns[i + 1] == ns[1..][i]; }
    }
  }

  lemma {:induction false} EntriesScalarsOf(es: seq<Entry>, r: Ref)
    ensures ScalarsHave(EntriesScalars(es), r) <==> AnyMentions(es, r)
    decreases es, 0
  {
    hide EntryMentions;
    if es != [] {
      EntryScalarsOf(es[0], r);
      EntriesScalarsOf(es[1..], r);
      if i :| 0 <= i < |es| && EntryMentions(es[i], r) { if i > 0 { assert es[1..][i - 1] == es[i]; } }
      if i :| 0 <= i < |es[1..]| && EntryMentions(es[1..][i], r) { assert es[i + 1] == es[1..][i]; }
    }
  }

  lemma {:induction false} EntryScalarsOf(e: Entry, r: Ref)
    ensures ScalarsHave(EntryScalars(e), r) <==> EntryMentions(e, r)
    decreases e, 2
  {
    ScalarsOf(e.value, r);
  }

  lemma RefIssuesAre(r: Ref, inputs: set<string>, scope: set<string>, i: Issue)
    ensures i in RefIssues(r, inputs, scope) <==> Complains(r, inputs, scope, i)
  {
  }

  lemma {:induction false} ScalarIssuesAre(ss: seq<Scalar>, inputs: set<string>, scope: set<string>, i: Issue)
    ensures i in ScalarIssues(ss, inputs, scope) <==> exists r :: ScalarsHave(ss, r) && Complains(r, inputs, scope, i)
  {
    hide Complains, RefIssues;
    if ss != [] {
      ScalarIssuesAre(ss[1..], inputs, scope, i);
      if ss[0].Reference? { RefIssuesAre(ss[0].ref, inputs, scope, i); }
      forall r ensures ScalarsHave(ss, r) <==> ss[0] == Reference(r) || ScalarsHave(ss[1..], r) {}
      if ss[0].Reference? && i in RefIssues(ss[0].ref, inputs, scope) { assert ScalarsHave(ss, ss[0].ref); }
    }
  }

  /** The issues of some entries are those of the references they hold. */
  lemma EntriesIssuesAre(es: seq<Entry>, inputs: set<string>, scope: set<string>, i: Issue)
    ensures i in ScalarIssues(EntriesScalars(es), inputs, scope) <==>
      exists r :: AnyMentions(es, r) && Complains(r, inputs, scope, i)
  {
    hide Complains, AnyMentions, ScalarsHave;
    ScalarIssuesAre(EntriesScalars(es), inputs, scope, i);
    forall r ensures ScalarsHave(EntriesScalars(es), r) <==> AnyMentions(es, r) { EntriesScalarsOf(es, r); }
  }

  // ---------------------------------------------------------------- points

  /** The issue of the step at a point, in the scope that is available there. */
  ghost predicate IssueOf(step: Step, inputs: set<string>, scope: set<string>, i: Issue) {
    || (exists r :: StepMentions(step, r) && Complains(r, inputs, scope, i))
    || (step.When? && step.body == [] && i == EmptyBranch)
  }

  ghost predicate IssueAt(steps: seq<Step>, inputs: set<string>, scope: set<string>, path: seq<nat>, i: Issue) {
    IsPoint(steps, path) && IssueOf(StepAt(steps, path), inputs, ScopeAt(steps, scope, path), i)
  }

  /** Points of the rest of a block, and points of the body of its first step. */
  lemma PointAfter(steps: seq<Step>, scope: set<string>, path: seq<nat>)
    requires steps != [] && path != [] && path[0] > 0
    ensures var rest := [path[0] - 1] + path[1..];
      && (IsPoint(steps, path) <==> IsPoint(steps[1..], rest))
      && (IsPoint(steps, path) ==> StepAt(steps, path) == StepAt(steps[1..], rest))
      && (IsPoint(steps, path) ==>
            ScopeAt(steps, scope, path) == ScopeAt(steps[1..], ScopeAfter(steps[0], scope), rest))
  {
    var rest := [path[0] - 1] + path[1..];
    assert rest[1..] == path[1..];
    if path[0] < |steps| {
      assert steps[..path[0]] == [steps[0]] + steps[1..][..path[0] - 1];
      var front := steps[..path[0]];
      assert front[0] == steps[0] && front[1..] == steps[1..][..path[0] - 1];
    }
  }

  lemma PointInside(steps: seq<Step>, scope: set<string>, path: seq<nat>)
    requires steps != [] && path != []
    ensures var inner := [0] + path;
      && (IsPoint(steps, inner) <==> steps[0].When? && IsPoint(steps[0].body, path))
      && (IsPoint(steps, inner) ==> StepAt(steps, inner) == StepAt(steps[0].body, path))
      && (IsPoint(steps, inner) ==> ScopeAt(steps, scope, inner) == ScopeAt(steps[0].body, scope, path))
  {
    var inner := [0] + path;
    assert inner[1..] == path && steps[..0] == [];
  }

  lemma PointHere(steps: seq<Step>, scope: set<string>)
    requires steps != []
    ensures IsPoint(steps, [0]) && StepAt(steps, [0]) == steps[0] && ScopeAt(steps, scope, [0]) == scope
  {
    assert steps[..0] == [];
  }

  // ---------------------------------------------------------------- issues of a block

  /** Apart from repeated ids, the traversal reports exactly what is wrong at some point. */
  lemma {:induction false} BlockIssuesAre(
    steps: seq<Step>, inputs: set<string>, scope: set<string>, seen: set<string>, i: Issue)
    requires !i.DuplicateStepId?
    ensures i in BlockIssues(steps, inputs, scope, seen) <==> exists path :: IssueAt(steps, inputs, scope, path, i)
    decreases steps, 0
  {
    hide IssueOf, StepIssues;
    if steps != [] {
      var step, rest := steps[0], steps[1..];
      StepIssuesAre(step, inputs, scope, seen, i);
      BlockIssuesAre(rest, inputs, ScopeAfter(step, scope), seen + ToSet(StepCallIds(step)), i);
      if i in StepIssues(step, inputs, scope, seen) {
        if IssueOf(step, inputs, scope, i) {
          PointHere(steps, scope);
          assert IssueAt(steps, inputs, scope, [0], i);
        } else {
          var path :| IssueAt(step.body, inputs, scope, path, i);
          PointInside(steps, scope, path);
          assert IssueAt(steps, inputs, scope, [0] + path, i);
        }
      }
      if path :| IssueAt(rest, inputs, ScopeAfter(step, scope), path, i) {
        var next := [path[0] + 1] + path[1..];
        PointAfter(steps, scope, next);
        assert [next[0] - 1] + next[1..] == path;
        assert IssueAt(steps, inputs, scope, next, i);
      }
      if path :| IssueAt(steps, inputs, scope, path, i) { IssueSplits(steps, inputs, scope, path, i); }
    } else {
      assert forall path :: !IsPoint(steps, path);
    }
  }

  lemma IssueSplits(steps: seq<Step>, inputs: set<string>, scope: set<string>, path: seq<nat>, i: Issue)
    requires steps != [] && IssueAt(steps, inputs, scope, path, i)
    ensures || IssueOf(steps[0], inputs, scope, i)
      || (steps[0].When? && exists p :: IssueAt(steps[0].body, inputs, scope, p, i))
      || (exists p :: IssueAt(steps[1..], inputs, ScopeAfter(steps[0], scope), p, i))
  {
    hide IssueOf;
    if path[0] > 0 {
      PointAfter(steps, scope, path);
      assert IssueAt(steps[1..], inputs, ScopeAfter(steps[0], scope), [path[0] - 1] + path[1..], i);
    } else if |path| == 1 {
      assert path == [0];
      PointHere(steps, scope);
    } else {
      assert path == [0] + path[1..];
      PointInside(steps, scope, path[1..]);
      assert IssueAt(steps[0].body, inputs, scope, path[1..], i);
    }
  }

  lemma {:induction false} StepIssuesAre(
    step: Step, inputs: set<string>, scope: set<string>, seen: set<string>, i: Issue)
    requires !i.DuplicateStepId?
    ensures i in StepIssues(step, inputs, scope, seen) <==>
      || IssueOf(step, inputs, scope, i)
      || (step.When? && exists path :: IssueAt(step.body, inputs, scope, path, i))
    decreases step, 1
  {
    match step
    case Call(id, _, args) =>
      EntriesIssuesAre(args, inputs, scope, i);
      hide Complains, AnyMentions;
      assert IssueOf(step, inputs, scope, i) <==> exists r :: AnyMentions(args, r) && Complains(r, inputs, scope, i);
    case When(c, body) =>
      RefIssuesAre(c.key, inputs, scope, i);
      BlockIssuesAre(body, inputs, scope, seen, i);
      hide Complains;
      assert StepMentions(step, c.key);
  }

  // ---------------------------------------------------------------- repeated ids

  /** A repeated id is one met before or listed twice. */
  lemma {:induction false} DuplicatesAre(
    steps: seq<Step>, inputs: set<string>, scope: set<string>, seen: set<string>, id: string)
    ensures DuplicateStepId(id) in BlockIssues(steps, inputs, scope, seen) <==>
      (id in seen && id in CallIds(steps)) || Twice(CallIds(steps), id)
    decreases steps, 0
  {
    hide Twice, StepIssues;
    if steps != [] {
      var a, b := StepCallIds(steps[0]), CallIds(steps[1..]);
      StepDuplicatesAre(steps[0], inputs, scope, seen, id);
      DuplicatesAre(steps[1..], inputs, ScopeAfter(steps[0], scope), seen + ToSet(a), id);
      TwiceAppend(a, b, id);
      assert id in ToSet(a) <==> id in a;
    } else {
      NotTwiceInNothing(id);
    }
  }

  lemma NotTwiceInNothing(id: string)
    ensures !Twice([], id) && !Twice([id], id)
  {
  }

  lemma {:induction false} StepDuplicatesAre(
    step: Step, inputs: set<string>, scope: set<string>, seen: set<string>, id: string)
    ensures DuplicateStepId(id) in StepIssues(step, inputs, scope, seen) <==>
      (id in seen && id in StepCallIds(step)) || Twice(StepCallIds(step), id)
    decreases step, 1
  {
    match step
    case Call(i, _, args) =>
      EntriesIssuesAre(args, inputs, scope, DuplicateStepId(id));
      assert !Twice([i], id);
    case When(c, body) =>
      DuplicatesAre(body, inputs, scope, seen, id);
      NotTwiceInNothing(id);
  }

  // ---------------------------------------------------------------- the report

  /** Every issue of the traversal, and no other: a missing input or an unknown step where a call, a condition or
      an output mentions it, an empty branch, and an id that two calls share. */
  lemma ReportExactly(w: Workflow, i: Issue)
    ensures i in Report(w) <==>
      match i
      case DuplicateStepId(id) => Twice(CallIds(w.steps), id)
      case _ =>
        || (exists path :: IssueAt(w.steps, w.inputs, {}, path, i))
        || (exists r :: AnyMentions(w.outputs, r) && Complains(r, w.inputs, BlockScope(w.steps, {}), i))
  {
    hide Twice, IssueAt, AnyMentions;
    EntriesIssuesAre(w.outputs, w.inputs, BlockScope(w.steps, {}), i);
    match i
    case DuplicateStepId(id) => DuplicatesAre(w.steps, w.inputs, {}, {}, id);
    case _ => BlockIssuesAre(w.steps, w.inputs, {}, {}, i);
  }

  ghost predicate MentionedAt(steps: seq<Step>, path: seq<nat>, r: Ref) {
    IsPoint(steps, path) && StepMentions(StepAt(steps, path), r)
  }

  /** An input is reported missing if and only if it is mentioned and not declared. */
  lemma MissingInputExactly(w: Workflow, n: string)
    ensures MissingInput(n) in Report(w) <==>
      && n !in w.inputs
      && ((exists path :: MentionedAt(w.steps, path, InputRef(n))) || AnyMentions(w.outputs, InputRef(n)))
  {
    hide StepMentions, AnyMentions;
    var i := MissingInput(n);
    ReportExactly(w, i);
    if path :| IssueAt(w.steps, w.inputs, {}, path, i) { assert MentionedAt(w.steps, path, InputRef(n)); }
    if n !in w.inputs {
      assert forall s :: Complains(InputRef(n), w.inputs, s, i);
      if path :| MentionedAt(w.steps, path, InputRef(n)) { assert IssueAt(w.steps, w.inputs, {}, path, i); }
    }
  }

  /** A step is reported unknown if and only if it is mentioned where it is not in scope. */
  lemma UnknownStepExactly(w: Workflow, n: string)
    ensures UnknownStepRef(n) in Report(w) <==>
      || (exists path :: MentionedAt(w.steps, path, StepRef(n)) && n !in ScopeAt(w.steps, {}, path))
      || (AnyMentions(w.outputs, StepRef(n)) && n !in BlockScope(w.steps, {}))
  {
    hide StepMentions, AnyMentions, ScopeAt, BlockScope;
    var i := UnknownStepRef(n);
    ReportExactly(w, i);
    if path :| IssueAt(w.steps, w.inputs, {}, path, i) { assert MentionedAt(w.steps, path, StepRef(n)); }
    if path :| MentionedAt(w.steps, path, StepRef(n)) && n !in ScopeAt(w.steps, {}, path) {
      assert Complains(StepRef(n), w.inputs, ScopeAt(w.steps, {}, path), i);
      assert IssueAt(w.steps, w.inputs, {}, path, i);
    }
    if AnyMentions(w.outputs, StepRef(n)) && n !in BlockScope(w.steps, {}) {
      assert Complains(StepRef(n), w.inputs, BlockScope(w.steps, {}), i);
    }
  }

  ghost predicate EmptyAt(steps: seq<Step>, path: seq<nat>) {
    IsPoint(steps, path) && StepAt(steps, path).When? && StepAt(steps, path).body == []
  }

  /** An empty branch is reported if and only if there is one. */
  lemma EmptyBranchExactly(w: Workflow)
    ensures EmptyBranch in Report(w) <==> exists path :: EmptyAt(w.steps, path)
  {
    ReportExactly(w, EmptyBranch);
    if path :| IssueAt(w.steps, w.inputs, {}, path, EmptyBranch) { assert EmptyAt(w.steps, path); }
    if path :| EmptyAt(w.steps, path) { assert IssueAt(w.steps, w.inputs, {}, path, EmptyBranch); }
  }
}
