/** What the rendered configuration of a compiled flow holds, tm/dsl/_render.py, position by position. */
module Rendering {
  import opened Collections
  import opened Wdl
  import opened Names
  import opened Labels
  import opened Flows
  import opened FlowMeaning

  // ---------------------------------------------------------------- data that render a raw node

  /** A leaf is its scalar, a list corresponds item by item, a dictionary field by field. */
  ghost predicate Renders(d: Data, n: Node)
    decreases n, 1
  {
    match n
    case Leaf(s) => d == Text(s)
    case Sequence(ns) =>
      d.List? && |d.items| == |ns| && forall i :: 0 <= i < |ns| ==> Renders(d.items[i], ns[i])
    case Mapping(es) => d.Dict? && FieldsRender(d.fields, es)
  }

  /** The keys are those of the entries; the last entry of a key gives its value. */
  ghost predicate FieldsRender(m: map<string, Data>, es: seq<Entry>)
    decreases es, 0
  {
    && (forall k :: k in m <==> HasKey(es, k))
    && forall i :: 0 <= i < |es| && IsLast(es, i) ==> es[i].key.value in m && EntryRenders(m[es[i].key.value], es[i])
  }

  ghost predicate EntryRenders(d: Data, e: Entry)
    decreases e, 2
  {
    Renders(d, e.value)
  }

  ghost predicate HasKey(es: seq<Entry>, k: string) {
    exists i :: 0 <= i < |es| && es[i].key == Some(k)
  }

  /** The entry has a key and none after it has the same. */
  ghost predicate IsLast(es: seq<Entry>, i: nat)
    requires i < |es|
  {
    es[i].key.Some? && forall j :: i < j < |es| ==> es[j].key != es[i].key
  }

  lemma {:induction false} RenderIs(n: Node)
    ensures Renders(Render(n), n)
    decreases n, 1
  {
    match n
    case Leaf(_) =>
    case Sequence(ns) => RenderItemsAre(ns);
    case Mapping(es) => RenderEntriesAre(es);
  }

  lemma {:induction false} RenderItemsAre(ns: seq<Node>)
    ensures |RenderItems(ns)| == |ns|
    ensures forall i :: 0 <= i < |ns| ==> Renders(RenderItems(ns)[i], ns[i])
    decreases ns, 0
  {
    if ns != [] {
      RenderIs(ns[0]);
      RenderItemsAre(ns[1..]);
    }
  }

  lemma {:induction false} RenderEntriesAre(es: seq<Entry>)
    ensures FieldsRender(RenderEntries(es), es)
    decreases es, 0
  {
    hide Renders;
    if es != [] {
      var rest, m := RenderEntries(es[1..]), RenderEntries(es);
      RenderEntryIs(es[0]);
      RenderEntriesAre(es[1..]);
      forall k ensures k in m <==> HasKey(es, k) { HasKeyCons(es, k); }
      forall i | 0 <= i < |es| && IsLast(es, i)
        ensures es[i].key.value in m && EntryRenders(m[es[i].key.value], es[i])
      {
        LastCons(es, i);
      }
    }
  }

  lemma HasKeyCons(es: seq<Entry>, k: string)
    requires es != []
    ensures HasKey(es, k) <==> es[0].key == Some(k) || HasKey(es[1..], k)
  {
    if i :| 0 <= i < |es| && es[i].key == Some(k) {
      if i > 0 { assert es[1..][i - 1] == es[i]; }
    }
    if i :| 0 <= i < |es[1..]| && es[1..][i].key == Some(k) { assert es[i + 1] == es[1..][i]; }
  }

  lemma LastCons(es: seq<Entry>, i: nat)
    requires i < |es| && IsLast(es, i)
    ensures i > 0 ==> IsLast(es[1..], i - 1) && es[1..][i - 1] == es[i]
    ensures i == 0 ==> !HasKey(es[1..], es[0].key.value)
  {
    assert forall j :: 0 <= j < |es| - 1 ==> es[1..][j] == es[j + 1];
  }

  lemma {:induction false} RenderEntryIs(e: Entry)
    ensures EntryRenders(RenderEntry(e), e)
    decreases e, 2
  {
    RenderIs(e.value);
  }

  // ---------------------------------------------------------------- calls of the source in the compiled flow

  /** The call occurs in the block, at any depth. */
  ghost predicate Occurs(steps: seq<Step>, id: string, target: string, args: seq<Entry>)
    decreases steps, 0
  {
    exists i :: 0 <= i < |steps| && StepOccurs(steps[i], id, target, args)
  }

  ghost predicate StepOccurs(step: Step, id: string, target: string, args: seq<Entry>)
    decreases step, 1
  {
    match step
    case Call(i, t, a) => i == id && t == target && a == args
    case When(_, body) => Occurs(body, id, target, args)
  }

  lemma {:induction false} ImplementedCall(
    flow: Flow, ls: seq<LStep>, k: string, id: string, target: string, args: seq<Entry>)
    requires Implements(flow, ls, k) && Occurs(Erase(ls), id, target, args)
    ensures id in flow.steps && flow.steps[id] == Task(target, RenderEntries(args))
    decreases ls, 0
  {
    hide StepImplements;
    var i :| 0 <= i < |Erase(ls)| && StepOccurs(Erase(ls)[i], id, target, args);
    assert Erase(ls)[0] == EraseStep(ls[0]) && Erase(ls)[1..] == Erase(ls[1..]);
    if i == 0 {
      ImplementedStep(flow, ls[0], if |ls| == 1 then k else EntryId(ls[1]), id, target, args);
    } else {
      assert Erase(ls[1..])[i - 1] == Erase(ls)[i];
      ImplementedCall(flow, ls[1..], k, id, target, args);
    }
  }

  lemma {:induction false} ImplementedStep(
    flow: Flow, l: LStep, k: string, id: string, target: string, args: seq<Entry>)
    requires StepImplements(flow, l, k) && StepOccurs(EraseStep(l), id, target, args)
    ensures id in flow.steps && flow.steps[id] == Task(target, RenderEntries(args))
    decreases l, 1
  {
    match l
    case LCall(_, _, _) =>
    case LWhen(_, _, body) => ImplementedCall(flow, body, k, id, target, args);
  }

  /** Every call of the source is a task of the compiled flow with its target, whose arguments are the source's. */
  lemma CompiledCall(w: Workflow, flow: Flow, id: string, target: string, args: seq<Entry>)
    requires Compile(w) == Ok(flow) && Occurs(w.steps, id, target, args)
    ensures id in flow.steps && flow.steps[id].Task? && flow.steps[id].target == target
    ensures FieldsRender(flow.steps[id].args, args)
  {
    hide Compile, Implements, FieldsRender, Occurs;
    var tree, emit, finish := CompiledTree(w, flow);
    CompiledImplements(flow, tree, emit, finish, w.outputs);
    ImplementedCall(flow, tree, emit, id, target, args);
    RenderEntriesAre(args);
  }

  /** The compiled flow has an emit step whose outputs are the source's. */
  lemma CompiledOutputs(w: Workflow, flow: Flow) returns (emit: string)
    requires Compile(w) == Ok(flow)
    ensures emit in flow.steps && flow.steps[emit].Emit? && FieldsRender(flow.steps[emit].outputs, w.outputs)
  {
    hide Compile, Implements, FieldsRender;
    var tree, e, finish := CompiledTree(w, flow);
    emit := e;
    CompiledImplements(flow, tree, emit, finish, w.outputs);
    RenderEntriesAre(w.outputs);
  }

  /** Every finished walk ends by emitting the source's outputs. */
  lemma EmittedOutputs(w: Workflow, world: World, how: Reading)
    ensures var t := Meaning(w, world, how);
      t != [] && t[|t| - 1].Emitted? && FieldsRender(t[|t| - 1].outputs, w.outputs)
  {
    hide FieldsRender;
    RenderEntriesAre(w.outputs);
  }
}
