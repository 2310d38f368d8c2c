/** Compiled flows of tm/dsl/compiler_flow.py as values: steps, edges and switch tables. */
module Flows {
  import opened Collections
  import opened Wdl
  import opened Names
  import opened Labels

  datatype FlowStep =
    | Task(target: string, args: map<string, Data>)
    | Switch(key: Ref, cases: map<string, string>)
    | Emit(outputs: map<string, Data>)
    | Finish

  datatype Flow = Flow(steps: map<string, FlowStep>, order: seq<string>, edges: seq<Edge>, entry: string)

  /** The first edge that leaves `src` with the given tag. */
  function Find(edges: seq<Edge>, src: string, tag: Option<string>): Option<string> {
    if edges == [] then None
    else if edges[0].src == src && edges[0].tag == tag then Some(edges[0].dst)
    else Find(edges[1..], src, tag)
  }

  /** Case labels on the edges that leave `src`. */
  function CaseLabels(edges: seq<Edge>, src: string): set<string> {
    set i | 0 <= i < |edges| && edges[i].src == src && edges[i].tag.Some? :: edges[i].tag.value
  }

  /** The label-to-target relation of the edges that leave `src`. */
  function Table(edges: seq<Edge>, src: string): map<string, string> {
    FindLabelled(edges, src);
    map c | c in CaseLabels(edges, src) :: Find(edges, src, Some(c)).value
  }

  lemma FindLabelled(edges: seq<Edge>, src: string)
    ensures forall c :: c in CaseLabels(edges, src) ==> Find(edges, src, Some(c)).Some?
  {
    forall c | c in CaseLabels(edges, src) ensures Find(edges, src, Some(c)).Some? {
      var i :| 0 <= i < |edges| && edges[i].src == src && edges[i].tag == Some(c);
      FindSome(edges, src, Some(c), i);
    }
  }

  lemma {:induction false} FindSome(edges: seq<Edge>, src: string, tag: Option<string>, i: nat)
    requires i < |edges| && edges[i].src == src && edges[i].tag == tag
    ensures Find(edges, src, tag).Some?
  {
    if i > 0 { FindSome(edges[1..], src, tag, i - 1); }
  }

  lemma {:induction false} FindIs(edges: seq<Edge>, src: string, tag: Option<string>)
    ensures Find(edges, src, tag).Some? ==> Edge(src, Find(edges, src, tag).value, tag) in edges
    ensures Find(edges, src, tag).None? ==> forall e :: e in edges ==> !(e.src == src && e.tag == tag)
  {
    if edges != [] { FindIs(edges[1..], src, tag); }
  }

  lemma {:induction false} FindAppend(a: seq<Edge>, b: seq<Edge>, src: string, tag: Option<string>)
    ensures Find(a + b, src, tag) == if Find(a, src, tag).Some? then Find(a, src, tag) else Find(b, src, tag)
  {
    if a == [] {
      assert a + b == b;
    } else {
      assert (a + b)[1..] == a[1..] + b;
      FindAppend(a[1..], b, src, tag);
    }
  }

  lemma FindElsewhere(edges: seq<Edge>, src: string, tag: Option<string>)
    requires forall e :: e in edges ==> e.src != src
    ensures Find(edges, src, tag) == None
  {
    FindIs(edges, src, tag);
  }

  /** The edges that leave `src`, in order. */
  function From(edges: seq<Edge>, src: string): seq<Edge> {
    if edges == [] then []
    else (if edges[0].src == src then [edges[0]] else []) + From(edges[1..], src)
  }

  lemma {:induction false} FromAppend(a: seq<Edge>, b: seq<Edge>, src: string)
    ensures From(a + b, src) == From(a, src) + From(b, src)
  {
    if a == [] {
      assert a + b == b;
    } else {
      var one := if a[0].src == src then [a[0]] else [];
      FromHead(a, src);
      FromHead(a + b, src);
      assert (a + b)[0] == a[0] && (a + b)[1..] == a[1..] + b;
      FromAppend(a[1..], b, src);
      SeqPlus(one, From(a[1..], src), From(b, src));
    }
  }

  lemma FromHead(edges: seq<Edge>, src: string)
    requires edges != []
    ensures From(edges, src) == (if edges[0].src == src then [edges[0]] else []) + From(edges[1..], src)
  {
  }

  lemma {:induction false} FromElsewhere(edges: seq<Edge>, src: string)
    requires forall e :: e in edges ==> e.src != src
    ensures From(edges, src) == []
  {
    if edges != [] {
      assert edges[0] in edges;
      FromElsewhere(edges[1..], src);
    }
  }

  lemma {:induction false} FromAll(edges: seq<Edge>, src: string)
    requires forall e :: e in edges ==> e.src == src
    ensures From(edges, src) == edges
  {
    if edges != [] {
      assert edges[0] in edges;
      FromAll(edges[1..], src);
    }
  }

  /** A look-up depends on the edges of its source alone. */
  lemma {:induction false} FindFrom(edges: seq<Edge>, src: string, tag: Option<string>)
    ensures Find(edges, src, tag) == Find(From(edges, src), src, tag)
  {
    if edges != [] {
      FindFrom(edges[1..], src, tag);
      assert From(edges, src) == (if edges[0].src == src then [edges[0]] else []) + From(edges[1..], src);
      if edges[0].src == src {
        assert From(edges, src)[1..] == From(edges[1..], src);
      } else {
        assert From(edges, src) == From(edges[1..], src);
      }
    }
  }

  /** Every switch's table is the label-to-target relation of its edges. */
  ghost predicate Tabled(steps: map<string, FlowStep>, edges: seq<Edge>) {
    forall id, c :: id in steps && steps[id].Switch? ==> Lookup(steps[id].cases, c) == Find(edges, id, Some(c))
  }

  lemma TabledIsTable(steps: map<string, FlowStep>, edges: seq<Edge>, id: string)
    requires Tabled(steps, edges) && id in steps && steps[id].Switch?
    ensures steps[id].cases == Table(edges, id)
  {
    FindLabelled(edges, id);
    forall c ensures c in steps[id].cases <==> c in CaseLabels(edges, id) {
      FindIs(edges, id, Some(c));
      assert Lookup(steps[id].cases, c) == Find(edges, id, Some(c));
    }
    forall c | c in steps[id].cases ensures steps[id].cases[c] == Table(edges, id)[c] {
      assert Lookup(steps[id].cases, c) == Find(edges, id, Some(c));
    }
  }

  /** Steps without their tables. */
  function Bare(steps: map<string, FlowStep>): map<string, FlowStep> {
    map id | id in steps :: match steps[id] case Switch(k, _) => Switch(k, map[]) case s => s
  }

  /** Steps with the tables that their edges prescribe. */
  function Dress(steps: map<string, FlowStep>, edges: seq<Edge>): map<string, FlowStep> {
    map id | id in steps :: match steps[id] case Switch(k, _) => Switch(k, Table(edges, id)) case s => s
  }

  /** The side effect of adding an edge: an unknown label enters the switch's table. */
  function AddToTable(steps: map<string, FlowStep>, e: Edge): map<string, FlowStep> {
    if e.tag.Some? && e.src in steps && steps[e.src].Switch? && e.tag.value !in steps[e.src].cases
    then steps[e.src := Switch(steps[e.src].key, steps[e.src].cases[e.tag.value := e.dst])]
    else steps
  }

  lemma AddToTableKeeps(steps: map<string, FlowStep>, edges: seq<Edge>, e: Edge)
    requires Tabled(steps, edges)
    ensures Tabled(AddToTable(steps, e), edges + [e])
    ensures Bare(AddToTable(steps, e)) == Bare(steps)
  {
    var after := AddToTable(steps, e);
    forall id, c | id in after && after[id].Switch?
      ensures Lookup(after[id].cases, c) == Find(edges + [e], id, Some(c))
    {
      FindAppend(edges, [e], id, Some(c));
      assert Lookup(steps[id].cases, c) == Find(edges, id, Some(c));
    }
  }

  /** Declarations of a labelled block. */
  function Decls(ls: seq<LStep>): map<string, FlowStep>
    decreases ls, 0
  {
    if ls == [] then map[] else StepDecls(ls[0]) + Decls(ls[1..])
  }

  function StepDecls(l: LStep): map<string, FlowStep>
    decreases l, 1
  {
    match l
    case LCall(id, target, args) => map[id := Task(target, RenderEntries(args))]
    case LWhen(sid, c, body) => map[sid := Switch(c.key, map[])] + Decls(body)
  }

  // ---------------------------------------------------------------- the compiled flow

  /** The flow of a labelled tree followed by the emit and finish steps. */
  function FlowOf(tree: seq<LStep>, emit: string, finish: string, outputs: seq<Entry>): Flow
    requires tree != [] && Full(tree)
  {
    var edges := Edges(tree) + Link(Exits(tree), emit) + [Edge(emit, finish, None)];
    var decls := Decls(tree)[emit := Emit(RenderEntries(outputs))][finish := Finish];
    Flow(Dress(decls, edges), Ids(tree) + [emit, finish], edges, EntryId(tree[0]))
  }

  function EmitCounter(out: Labelled): nat { FreshCounter("emit", out.used, out.next) }
  function EmitId(out: Labelled): string { Name("emit", EmitCounter(out)) }
  function FinishId(out: Labelled): string {
    Name("finish", FreshCounter("finish", out.used + {EmitId(out)}, EmitCounter(out) + 1))
  }

  /** What `compile` returns. */
  function Compile(w: Workflow): Result<Flow> {
    if w.steps == [] then Err(EmptySequence)
    else
      match Label(w.steps, {}, 0)
      case Err(e) => Err(e)
      case Ok(out) =>
        if !EntriesRenderable(w.outputs) then Err(MissingKey)
        else
          LabelGood(w.steps, {}, 0);
          Ok(FlowOf(out.tree, EmitId(out), FinishId(out), w.outputs))
  }

  // ---------------------------------------------------------------- appending a step to a block

  lemma {:induction false} SnocIds(ls: seq<LStep>, l: LStep)
    ensures Full(ls + [l]) == (Full(ls) && StepFull(l))
    ensures Ids(ls + [l]) == Ids(ls) + StepIds(l)
  {
    if ls == [] {
      Singleton(l);
      assert ls + [l] == [l];
    } else {
      assert (ls + [l])[1..] == ls[1..] + [l];
      SnocIds(ls[1..], l);
    }
  }

  lemma {:induction false} SnocDecls(ls: seq<LStep>, l: LStep)
    ensures Decls(ls + [l]) == Decls(ls) + StepDecls(l)
  {
    hide StepDecls;
    if ls == [] {
      assert ls + [l] == [l] && [l][1..] == [];
      MapEmpty(StepDecls(l));
    } else {
      assert (ls + [l])[1..] == ls[1..] + [l] && (ls + [l])[0] == ls[0];
      SnocDecls(ls[1..], l);
      MapPlus(StepDecls(ls[0]), Decls(ls[1..]), StepDecls(l));
    }
  }

  lemma {:induction false} SnocExits(ls: seq<LStep>, l: LStep)
    ensures Exits(ls + [l]) == StepExits(l)
  {
    if ls != [] {
      assert (ls + [l])[1..] == ls[1..] + [l];
      SnocExits(ls[1..], l);
    }
  }

  lemma {:induction false} SnocAfter(exits: seq<Exit>, ls: seq<LStep>, l: LStep)
    requires Full(ls) && Full(ls + [l]) && StepFull(l)
    ensures EdgesAfter(exits, ls + [l]) ==
            EdgesAfter(exits, ls) + StepEdges(l) + Link(if ls == [] then exits else Exits(ls), EntryId(l))
    decreases ls
  {
    if ls == [] {
      assert ls + [l] == [l];
      assert [l][1..] == [];
    } else {
      assert (ls + [l])[1..] == ls[1..] + [l];
      SnocAfter(StepExits(ls[0]), ls[1..], l);
      var a, b := StepEdges(ls[0]) + Link(exits, EntryId(ls[0])), EdgesAfter(StepExits(ls[0]), ls[1..]);
      var link := Link(Exits(ls), EntryId(l));
      assert Exits(ls) == if ls[1..] == [] then StepExits(ls[0]) else Exits(ls[1..]);
      SeqPlus(a, b + StepEdges(l), link);
      SeqPlus(a, b, StepEdges(l));
    }
  }

  /** Appending a step adds its edges and links the dangling exits to its entry. */
  lemma SnocEdges(ls: seq<LStep>, l: LStep)
    requires Full(ls) && Full(ls + [l]) && StepFull(l)
    ensures Edges(ls + [l]) ==
            Edges(ls) + StepEdges(l) + (if ls == [] then [] else Link(Exits(ls), EntryId(l)))
  {
    if ls == [] {
      Singleton(l);
      assert ls + [l] == [l];
    } else {
      assert (ls + [l])[1..] == ls[1..] + [l];
      SnocAfter(StepExits(ls[0]), ls[1..], l);
      var a, b := StepEdges(ls[0]), EdgesAfter(StepExits(ls[0]), ls[1..]);
      assert Exits(ls) == if ls[1..] == [] then StepExits(ls[0]) else Exits(ls[1..]);
      SeqPlus(a, b + StepEdges(l), Link(Exits(ls), EntryId(l)));
      SeqPlus(a, b, StepEdges(l));
    }
  }

  /** Edges of a block stay between its own steps; its entry and exits are among them. */
  lemma {:induction false} EdgesInside(ls: seq<LStep>)
    requires Full(ls)
    ensures forall e :: e in Edges(ls) ==> e.src in Ids(ls) && e.dst in Ids(ls)
    ensures forall x :: x in Exits(ls) ==> x.src in Ids(ls)
    ensures Decls(ls).Keys == ToSet(Ids(ls))
    decreases ls, 0
  {
    if ls != [] {
      StepEdgesInside(ls[0]);
      EdgesInside(ls[1..]);
      EdgesAfterInside(StepExits(ls[0]), ls[1..]);
    }
  }

  lemma {:induction false} StepEdgesInside(l: LStep)
    requires StepFull(l)
    ensures forall e :: e in StepEdges(l) ==> e.src in StepIds(l) && e.dst in StepIds(l)
    ensures forall x :: x in StepExits(l) ==> x.src in StepIds(l)
    ensures EntryId(l) in StepIds(l)
    ensures StepDecls(l).Keys == ToSet(StepIds(l))
    decreases l, 1
  {
    match l
    case LCall(_, _, _) =>
    case LWhen(sid, c, body) =>
      EdgesInside(body);
      StepEntryInside(body);
      CaseEdgesAre(sid, c.cases, EntryId(body[0]));
  }

  lemma StepEntryInside(ls: seq<LStep>)
    requires ls != []
    ensures EntryId(ls[0]) in Ids(ls)
  {
    assert EntryId(ls[0]) in StepIds(ls[0]) by {
      match ls[0] case LCall(id, _, _) => case LWhen(sid, _, body) => assert StepIds(ls[0])[0] == sid;
    }
  }

  lemma {:induction false} EdgesAfterInside(exits: seq<Exit>, ls: seq<LStep>)
    requires Full(ls)
    ensures forall e :: e in EdgesAfter(exits, ls) ==>
      e.dst in Ids(ls) && (e.src in Ids(ls) || (exists x :: x in exits && x.src == e.src))
    decreases ls, 0
  {
    if ls != [] {
      StepEdgesInside(ls[0]);
      LinkIs(exits, EntryId(ls[0]));
      EdgesAfterInside(StepExits(ls[0]), ls[1..]);
    }
  }

  lemma {:induction false} LinkIs(exits: seq<Exit>, dst: string)
    ensures forall e :: e in Link(exits, dst) <==> e.dst == dst && Exit(e.src, e.tag) in exits
  {
    if exits != [] { LinkIs(exits[1..], dst); }
  }

  lemma {:induction false} CaseEdgesAre(sid: string, cases: seq<string>, dst: string)
    ensures forall e :: e in CaseEdges(sid, cases, dst) <==>
      e.src == sid && e.dst == dst && e.tag.Some? && e.tag.value in cases
  {
    if cases != [] { CaseEdgesAre(sid, cases[1..], dst); }
  }
}
