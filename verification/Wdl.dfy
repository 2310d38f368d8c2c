/** Workflow IR of the WDL language and the meaning of a workflow.

    Follows the dataclasses of tm/dsl/ir.py and the rendering of raw nodes in tm/dsl/_render.py.
    A condition is kept as its text, the reference it reads and its case literals. */
module Wdl {
  import opened Collections

  /** The case label that a switch falls back to. */
  const DEFAULT_CASE: string := "_DEFAULT"

  datatype Ref = InputRef(name: string) | StepRef(name: string)
  datatype Scalar = Literal(text: string) | Reference(ref: Ref)

  datatype Node =
    | Leaf(scalar: Scalar)
    | Mapping(entries: seq<Entry>)
    | Sequence(items: seq<Node>)
  datatype Entry = Entry(key: Option<string>, value: Node)

  /** A condition lists at least one case literal (tm/dsl/compiler_flow.py:267-268). */
  type Cases = s: seq<string> | s != [] witness [""]

  datatype Condition = Condition(text: string, key: Ref, cases: Cases)

  /** The IR rejects call steps with an empty id (tm/dsl/ir.py:448-449). */
  type StepId = s: string | s != "" witness "s"

  datatype Step =
    | Call(id: StepId, target: string, args: seq<Entry>)
    | When(cond: Condition, body: seq<Step>)

  datatype Workflow = Workflow(inputs: set<string>, steps: seq<Step>, outputs: seq<Entry>)

  // ---------------------------------------------------------------- rendering

  /** Rendered configuration data: dictionaries keep the last entry of a repeated key. */
  datatype Data = Text(scalar: Scalar) | List(items: seq<Data>) | Dict(fields: map<string, Data>)

  /** Rendering raises on a mapping entry without a key. */
  predicate Renderable(n: Node)
    decreases n, 1
  {
    match n
    case Leaf(_) => true
    case Mapping(es) => EntriesRenderable(es)
    case Sequence(ns) => forall i :: 0 <= i < |ns| ==> Renderable(ns[i])
  }

  predicate EntriesRenderable(es: seq<Entry>)
    decreases es, 0
  {
    forall i :: 0 <= i < |es| ==> EntryRenderable(es[i])
  }

  predicate EntryRenderable(e: Entry)
    decreases e, 2
  {
    e.key.Some? && Renderable(e.value)
  }

  function Render(n: Node): Data
    decreases n, 1
  {
    match n
    case Leaf(s) => Text(s)
    case Mapping(es) => Dict(RenderEntries(es))
    case Sequence(ns) => List(RenderItems(ns))
  }

  function RenderItems(ns: seq<Node>): seq<Data>
    decreases ns, 0
  {
    if ns == [] then [] else [Render(ns[0])] + RenderItems(ns[1..])
  }

  /** Entries are assigned in order, so a later entry replaces an earlier one. */
  function RenderEntries(es: seq<Entry>): map<string, Data>
    decreases es, 0
  {
    if es == [] then map[]
    else
      var rest := RenderEntries(es[1..]);
      if es[0].key.Some? && es[0].key.value !in rest
      then rest[es[0].key.value := RenderEntry(es[0])] else rest
  }

  function RenderEntry(e: Entry): Data
    decreases e, 2
  {
    Render(e.value)
  }

  // ---------------------------------------------------------------- references

  /** Step names referenced anywhere in the raw nodes, as the lint pass enumerates them. */
  function NodeRefs(n: Node): set<string>
    decreases n, 1
  {
    match n
    case Leaf(s) => ScalarRefs(s)
    case Mapping(es) => EntriesRefs(es)
    case Sequence(ns) => ItemRefs(ns)
  }

  function ItemRefs(ns: seq<Node>): set<string>
    decreases ns, 0
  {
    if ns == [] then {} else NodeRefs(ns[0]) + ItemRefs(ns[1..])
  }

  function EntriesRefs(es: seq<Entry>): set<string>
    decreases es, 0
  {
    if es == [] then {} else EntryRefs(es[0]) + EntriesRefs(es[1..])
  }

  function EntryRefs(e: Entry): set<string>
    decreases e, 2
  {
    NodeRefs(e.value)
  }

  function ScalarRefs(s: Scalar): set<string> {
    match s
    case Reference(r) => RefSteps(r)
    case Literal(_) => {}
  }

  function RefSteps(r: Ref): set<string> {
    match r
    case StepRef(n) => {n}
    case InputRef(_) => {}
  }

  /** Step names whose results are looked up when rendered data is evaluated at run time. */
  ghost function Lookups(d: Data): set<string> {
    match d
    case Text(s) => ScalarRefs(s)
    case List(ds) => set i, n | 0 <= i < |ds| && n in Lookups(ds[i]) :: n
    case Dict(m) => set k, n | k in m && n in Lookups(m[k]) :: n
  }

  ghost function FieldLookups(m: map<string, Data>): set<string> {
    Lookups(Dict(m))
  }

  /** No mapping inside the entries, at any depth, repeats a key. */
  ghost predicate DistinctKeys(es: seq<Entry>)
    decreases es, 0
  {
    && (forall i, j :: 0 <= i < j < |es| ==> es[i].key != es[j].key)
    && forall i :: 0 <= i < |es| ==> EntryDistinct(es[i])
  }

  ghost predicate EntryDistinct(e: Entry)
    decreases e, 2
  {
    NodeDistinct(e.value)
  }

  ghost predicate NodeDistinct(n: Node)
    decreases n, 1
  {
    match n
    case Leaf(_) => true
    case Mapping(es) => DistinctKeys(es)
    case Sequence(ns) => forall i :: 0 <= i < |ns| ==> NodeDistinct(ns[i])
  }

  /** Evaluating the rendered form never looks up more than the raw form mentions, and looks up
      all of it when no key is repeated. */
  lemma {:induction false} RenderLookups(n: Node)
    ensures Lookups(Render(n)) <= NodeRefs(n)
    ensures Renderable(n) && NodeDistinct(n) ==> Lookups(Render(n)) == NodeRefs(n)
    decreases n, 1
  {
    match n
    case Leaf(_) =>
    case Mapping(es) => RenderEntriesLookups(es);
    case Sequence(ns) => RenderItemLookups(ns);
  }

  lemma {:induction false} RenderItemLookups(ns: seq<Node>)
    ensures Lookups(List(RenderItems(ns))) <= ItemRefs(ns)
    ensures (forall i :: 0 <= i < |ns| ==> Renderable(ns[i]) && NodeDistinct(ns[i]))
            ==> Lookups(List(RenderItems(ns))) == ItemRefs(ns)
    decreases ns, 0
  {
    if ns != [] {
      var tail := RenderItems(ns[1..]);
      RenderLookups(ns[0]);
      RenderItemLookups(ns[1..]);
      var all := [Render(ns[0])] + tail;
      assert Lookups(List(all)) == Lookups(all[0]) + Lookups(List(tail)) by {
        forall n | n in Lookups(List(tail)) ensures n in Lookups(List(all)) {
          var i :| 0 <= i < |tail| && n in Lookups(tail[i]);
          assert all[i + 1] == tail[i];
        }
        forall n | n in Lookups(List(all)) ensures n in Lookups(all[0]) + Lookups(List(tail)) {
          var i :| 0 <= i < |all| && n in Lookups(all[i]);
          if i > 0 { assert all[i] == tail[i - 1]; }
        }
      }
    }
  }

  lemma {:induction false} RenderEntryLookups(e: Entry)
    ensures Lookups(RenderEntry(e)) <= EntryRefs(e)
    ensures EntryRenderable(e) && EntryDistinct(e) ==> Lookups(RenderEntry(e)) == EntryRefs(e)
    decreases e, 2
  {
    RenderLookups(e.value);
  }

  /** The keys of the entries. */
  ghost function KeySet(es: seq<Entry>): set<string> {
    set i | 0 <= i < |es| && es[i].key.Some? :: es[i].key.value
  }

  lemma {:induction false} RenderedKeys(es: seq<Entry>)
    ensures RenderEntries(es).Keys == KeySet(es)
  {
    if es != [] {
      RenderedKeys(es[1..]);
      assert KeySet(es) == KeySet([es[0]]) + KeySet(es[1..]) by {
        forall k | k in KeySet(es) ensures k in KeySet([es[0]]) + KeySet(es[1..]) {
          var i :| 0 <= i < |es| && es[i].key == Some(k);
          if i > 0 { assert es[1..][i - 1].key == Some(k); } else { assert [es[0]][0].key == Some(k); }
        }
        forall k | k in KeySet(es[1..]) ensures k in KeySet(es) {
          var i :| 0 <= i < |es[1..]| && es[1..][i].key == Some(k);
          assert es[i + 1].key == Some(k);
        }
      }
    }
  }

  lemma {:induction false} RenderEntriesLookups(es: seq<Entry>)
    ensures FieldLookups(RenderEntries(es)) <= EntriesRefs(es)
    ensures EntriesRenderable(es) && DistinctKeys(es) ==> FieldLookups(RenderEntries(es)) == EntriesRefs(es)
    decreases es, 0
  {
    if es != [] {
      var rest, m := RenderEntries(es[1..]), RenderEntries(es);
      RenderEntryLookups(es[0]);
      RenderEntriesLookups(es[1..]);
      forall n | n in FieldLookups(m) ensures n in EntriesRefs(es) {
        var k :| k in m && n in Lookups(m[k]);
        if k in rest { assert m[k] == rest[k]; }
      }
      if EntriesRenderable(es) && DistinctKeys(es) {
        var k := es[0].key.value;
        assert k !in rest by { RenderedKeys(es[1..]); }
        forall n | n in FieldLookups(rest) ensures n in FieldLookups(m) {
          var k' :| k' in rest && n in Lookups(rest[k']);
          assert m[k'] == rest[k'];
        }
        forall n | n in EntryRefs(es[0]) ensures n in FieldLookups(m) {
          assert m[k] == RenderEntry(es[0]);
        }
      }
    }
  }

  // ---------------------------------------------------------------- structured execution

  /** What an observer of a run sees: a branch key being read, a step being called with its
      rendered arguments, and the outputs being emitted. */
  datatype Event =
    | Tested(key: Ref, value: Option<string>)
    | Called(id: string, target: string, args: map<string, Data>)
    | Emitted(outputs: map<string, Data>)

  /** The world: which value a branch key has after a given history (None: absent or no string). */
  type World = (seq<Event>, Ref) -> Option<string>

  /** How a branch is read: as written; as a list of labels in which the default label matches every value; with
      the last literal standing for all of them; entered unless a step named like the default label follows;
      or always entered. */
  datatype Reading = AsWritten | EveryCase | LastCase | UnlessNamed | Always

  function LastLiteral(c: Condition): string { c.cases[|c.cases| - 1] }

  /** Does a branch run? `named`: the step that follows it has the name of the default label. */
  predicate Enters(c: Condition, v: Option<string>, how: Reading, named: bool) {
    match how
    case AsWritten => v.Some? && v.value in c.cases
    case EveryCase => (v.Some? && v.value in c.cases) || DEFAULT_CASE in c.cases
    case LastCase => v == Some(LastLiteral(c)) || LastLiteral(c) == DEFAULT_CASE
    case UnlessNamed => !named
    case Always => true
  }

  /** Does a step named like the default label follow, when `rest` comes next? Branches have generated names. */
  predicate Following(rest: seq<Step>, named: bool) {
    if rest == [] then named else rest[0].Call? && rest[0].id == DEFAULT_CASE
  }

  /** The history after executing a block from history `h`. */
  function Exec(steps: seq<Step>, h: seq<Event>, world: World, how: Reading, named: bool): seq<Event>
    decreases steps, 0
  {
    if steps == [] then h
    else Exec(steps[1..], ExecStep(steps[0], h, world, how, Following(steps[1..], named)), world, how, named)
  }

  function ExecStep(step: Step, h: seq<Event>, world: World, how: Reading, named: bool): seq<Event>
    decreases step, 1
  {
    match step
    case Call(id, target, args) => h + [Called(id, target, RenderEntries(args))]
    case When(c, body) =>
      var v := world(h, c.key);
      var h' := h + [Tested(c.key, v)];
      if Enters(c, v, how, named) then Exec(body, h', world, how, named) else h'
  }

  /** The meaning of a workflow: run the steps, then emit the outputs. */
  function Meaning(w: Workflow, world: World, how: Reading): seq<Event> {
    Exec(w.steps, [], world, how, false) + [Emitted(RenderEntries(w.outputs))]
  }

  /** Call ids in source order. */
  function CallIds(steps: seq<Step>): seq<string>
    decreases steps, 0
  {
    if steps == [] then [] else StepCallIds(steps[0]) + CallIds(steps[1..])
  }

  function StepCallIds(step: Step): seq<string>
    decreases step, 1
  {
    match step
    case Call(id, _, _) => [id]
    case When(_, body) => CallIds(body)
  }

  /** No branch lists the default label as one of its case literals. */
  predicate NoDefaultCase(steps: seq<Step>)
    decreases steps, 0
  {
    steps == [] || (StepNoDefaultCase(steps[0]) && NoDefaultCase(steps[1..]))
  }

  predicate StepNoDefaultCase(step: Step)
    decreases step, 1
  {
    match step
    case Call(_, _, _) => true
    case When(c, body) => DEFAULT_CASE !in c.cases && NoDefaultCase(body)
  }

  /** Every branch lists one literal, perhaps repeatedly, and not the default label. */
  predicate SoleCases(steps: seq<Step>)
    decreases steps, 0
  {
    steps == [] || (StepSoleCases(steps[0]) && SoleCases(steps[1..]))
  }

  predicate StepSoleCases(step: Step)
    decreases step, 1
  {
    match step
    case Call(_, _, _) => true
    case When(c, body) => SoleCase(c) && SoleCases(body)
  }

  predicate SoleCase(c: Condition) {
    LastLiteral(c) != DEFAULT_CASE && forall i :: 0 <= i < |c.cases| ==> c.cases[i] == LastLiteral(c)
  }

  /** The number of branches. */
  function Whens(steps: seq<Step>): nat
    decreases steps, 0
  {
    if steps == [] then 0 else StepWhens(steps[0]) + Whens(steps[1..])
  }

  function StepWhens(step: Step): nat
    decreases step, 1
  {
    match step
    case Call(_, _, _) => 0
    case When(_, body) => 1 + Whens(body)
  }
}
