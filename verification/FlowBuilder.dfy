/** The one-pass builder `_FlowBuilder` of tm/dsl/compiler_flow.py: fields updated in place,
    exits left dangling and patched later, switch tables filled in as edges are added. */
module FlowBuilder {
  import opened Collections
  import opened Wdl
  import opened Names
  import opened Labels
  import opened Flows

  datatype Segment = Segment(entry: string, exits: seq<Exit>)

  /** The builder's fields as one value; `order` is the insertion order of `steps`. */
  datatype State = State(
    steps: map<string, FlowStep>,
    order: seq<string>,
    edges: seq<Edge>,
    entry: Option<string>,
    counter: nat)

  ghost predicate Sound(s: State) {
    && s.entry == (if s.order == [] then None else Some(s.order[0]))
    && (forall e :: e in s.edges ==> e.src in s.steps)
    && Tabled(s.steps, s.edges)
  }

  /** From `s` to `t` exactly the block `tree` has been added. */
  ghost predicate Grew(s: State, tree: seq<LStep>, next: nat, t: State)
    requires Full(tree)
  {
    && Sound(t)
    && t.order == s.order + Ids(tree)
    && t.edges == s.edges + Edges(tree)
    && Bare(t.steps) == Bare(s.steps) + Decls(tree)
    && t.counter == next
  }

  /** The outcome of compiling one step, by its labelling. */
  ghost predicate StepCompiled(s: State, labelled: Result<Labelled>, r: Result<Segment>, t: State) {
    match labelled
    case Err(e) => r == Err(e)
    case Ok(out) =>
      && |out.tree| == 1 && Full(out.tree)
      && r == Ok(Segment(EntryId(out.tree[0]), StepExits(out.tree[0])))
      && Grew(s, out.tree, out.next, t)
  }

  /** The outcome of compiling a block, by its labelling. */
  ghost predicate BlockCompiled(s: State, labelled: Result<Labelled>, r: Result<Segment>, t: State) {
    match labelled
    case Err(e) => r == Err(e)
    case Ok(out) =>
      if out.tree == [] then r == Err(EmptySequence)
      else
        && Full(out.tree)
        && r == Ok(Segment(EntryId(out.tree[0]), Exits(out.tree)))
        && Grew(s, out.tree, out.next, t)
  }

  function WithStep(s: State, id: string, step: FlowStep): State {
    State(s.steps[id := step], s.order + [id], s.edges, if s.entry.None? then Some(id) else s.entry, s.counter)
  }

  function WithEdge(s: State, e: Edge): State {
    s.(steps := AddToTable(s.steps, e), edges := s.edges + [e])
  }

  function WithEdges(s: State, es: seq<Edge>): State
    decreases es
  {
    if es == [] then s else WithEdges(WithEdge(s, es[0]), es[1..])
  }

  lemma WithStepKeeps(s: State, id: string, step: FlowStep)
    requires Sound(s) && id !in s.steps
    requires step.Switch? ==> step.cases == map[]
    ensures Sound(WithStep(s, id, step))
    ensures Bare(WithStep(s, id, step).steps) == Bare(s.steps)[id := step]
  {
    forall c { FindIs(s.edges, id, Some(c)); }
  }

  lemma {:induction false} WithEdgesKeeps(s: State, es: seq<Edge>)
    requires Sound(s)
    requires forall e :: e in es ==> e.src in s.steps
    ensures var t := WithEdges(s, es);
            && Sound(t) && t.edges == s.edges + es && Bare(t.steps) == Bare(s.steps)
            && t.order == s.order && t.entry == s.entry && t.counter == s.counter
            && t.steps.Keys == s.steps.Keys
    decreases es
  {
    if es != [] {
      AddToTableKeeps(s.steps, s.edges, es[0]);
      var s1 := WithEdge(s, es[0]);
      assert Bare(s1.steps).Keys == s1.steps.Keys;
      WithEdgesKeeps(s1, es[1..]);
      SeqShift(s.edges, es);
    }
  }

  class Builder {
    var steps: map<string, FlowStep>
    var order: seq<string>
    var edges: seq<Edge>
    var entry: Option<string>
    var counter: nat

    ghost function Now(): State
      reads this
    {
      State(steps, order, edges, entry, counter)
    }

    constructor ()
      ensures Now() == State(map[], [], [], None, 0)
    {
      steps, order, edges, entry, counter := map[], [], [], None, 0;
    }

    method AddStep(id: string, step: FlowStep) returns (r: Result<()>)
      modifies this
      ensures r == if id in old(steps) then Err(DuplicateId(id)) else Ok(())
      ensures Now() == if id in old(steps) then old(Now()) else WithStep(old(Now()), id, step)
    {
      if id in steps {
        return Err(DuplicateId(id));
      }
      steps := steps[id := step];
      order := order + [id];
      if entry == None {
        entry := Some(id);
      }
      r := Ok(());
    }

    method AddEdge(src: string, dst: string, tag: Option<string>)
      modifies this
      ensures Now() == WithEdge(old(Now()), Edge(src, dst, tag))
    {
      if tag.Some? && src in steps && steps[src].Switch? {
        var cases := steps[src].cases;
        if tag.value !in cases {
          steps := steps[src := Switch(steps[src].key, cases[tag.value := dst])];
        }
      }
      edges := edges + [Edge(src, dst, tag)];
    }

    method LinkSegments(exits: seq<Exit>, dst: string)
      modifies this
      ensures Now() == WithEdges(old(Now()), Link(exits, dst))
    {
      var i := 0;
      while i < |exits|
        invariant 0 <= i <= |exits|
        invariant WithEdges(Now(), Link(exits[i..], dst)) == WithEdges(old(Now()), Link(exits, dst))
      {
        AddEdge(exits[i].src, dst, exits[i].tag);
        i := i + 1;
      }
    }

    method UniqueStepId(prefix: string) returns (id: string)
      modifies this`counter
      ensures counter == FreshCounter(prefix, steps.Keys, old(counter)) + 1
      ensures id == Name(prefix, counter - 1) && id !in steps
    {
      id := Name(prefix, counter);
      counter := counter + 1;
      FreshCounterIsLeast(prefix, steps.Keys, old(counter));
      ghost var goal := FreshCounter(prefix, steps.Keys, old(counter));
      while id in steps
        invariant old(counter) < counter <= goal + 1
        invariant id == Name(prefix, counter - 1)
        invariant forall m :: old(counter) <= m < counter - 1 ==> Name(prefix, m) in steps
        decreases goal + 1 - counter
      {
        id := Name(prefix, counter);
        counter := counter + 1;
      }
      FreshCounterIsUnique(prefix, steps.Keys, old(counter), counter - 1);
    }

    method CompileSequence(block: seq<Step>) returns (r: Result<Segment>)
      requires Sound(Now())
      modifies this
      ensures BlockCompiled(old(Now()), Label(block, old(steps.Keys), old(counter)), r, Now())
      decreases block, 0
    {
      hide Sound, RenderEntries, Decls, Edges, Ids, Bare, FreshCounter, WithEdges, Link;
      var first: Option<string> := None;
      var exits: seq<Exit> := [];
      ghost var done: seq<LStep> := [];
      ghost var total := Label(block, steps.Keys, counter);
      var i := 0;
      GrewNothing(Now());
      PrependNothing(block, steps.Keys, counter);
      while i < |block|
        invariant 0 <= i <= |block|
        invariant Full(done) && (done == [] <==> i == 0)
        invariant Grew(old(Now()), done, counter, Now())
        invariant exits == Exits(done)
        invariant first == First(done)
        invariant total == Prepend(done, Label(block[i..], steps.Keys, counter))
      {
        ghost var before := Now();
        var segment := CompileStep(block[i]);
        if segment.Err? {
          return Err(segment.error);
        }
        ghost var out, after := LabelStep(block[i], before.steps.Keys, before.counter).value, Now();
        if first == None {
          first := Some(segment.value.entry);
        }
        if done != [] { ExitsNonEmpty(done); }
        if exits != [] {
          LinkSegments(exits, segment.value.entry);
        }
        exits := segment.value.exits;
        SequenceStep(old(Now()), done, block[i..], before, out, after, Now());
        done := done + out.tree;
        i := i + 1;
      }
      if first == None {
        return Err(EmptySequence);
      }
      PrependAll(done, block, steps.Keys, counter);
      r := Ok(Segment(first.value, exits));
    }

    method CompileStep(step: Step) returns (r: Result<Segment>)
      requires Sound(Now())
      modifies this
      ensures StepCompiled(old(Now()), LabelStep(step, old(steps.Keys), old(counter)), r, Now())
      decreases step, 2
    {
      match step
      case Call(id, target, args) => r := CompileCall(id, target, args);
      case When(c, body) => r := CompileWhen(c, body);
    }

    method CompileCall(id: StepId, target: string, args: seq<Entry>) returns (r: Result<Segment>)
      requires Sound(Now())
      modifies this
      ensures StepCompiled(old(Now()), LabelStep(Call(id, target, args), old(steps.Keys), old(counter)), r, Now())
    {
      if id in steps {
        return Err(DuplicateId(id));
      }
      if !EntriesRenderable(args) {
        return Err(MissingKey);
      }
      var _ := AddStep(id, Task(target, RenderEntries(args)));
      GrewCall(old(Now()), LCall(id, target, args), Now());
      r := Ok(Segment(id, [Exit(id, None)]));
    }

    method CompileWhen(c: Condition, body: seq<Step>) returns (r: Result<Segment>)
      requires Sound(Now())
      modifies this
      ensures StepCompiled(old(Now()), LabelStep(When(c, body), old(steps.Keys), old(counter)), r, Now())
      decreases body, 1
    {
      hide Sound, RenderEntries, Decls, Edges, Ids, Bare, WithEdges, Link;
      var switchId := UniqueStepId("when");
      SoundCounter(old(Now()), counter);
      WithStepKeeps(Now(), switchId, Switch(c.key, map[]));
      ghost var reserved := Now();
      var _ := AddStep(switchId, Switch(c.key, map[]));
      assert steps.Keys == old(steps.Keys) + {switchId};
      ghost var added := Now();
      ghost var inner := Label(body, added.steps.Keys, counter);
      var nested := CompileSequence(body);
      if nested.Err? {
        if body != [] && inner.Ok? { LabelNonEmpty(body, added.steps.Keys, added.counter); }
        return Err(nested.error);
      }
      LabelGood(body, added.steps.Keys, added.counter);
      ghost var l := LWhen(switchId, c, inner.value.tree);
      BranchReady(reserved, l, Now());
      ghost var ready := Now();
      FillCases(switchId, c.cases, nested.value.entry);
      GrewWhen(reserved, l, inner.value.next, ready, Now());
      r := Ok(Segment(switchId, nested.value.exits + [Exit(switchId, Some(DEFAULT_CASE))]));
    }

    /** Point every case of a switch at its branch, in the table and by an edge. */
    method FillCases(switchId: string, cases: seq<string>, dst: string)
      requires switchId in steps && steps[switchId].Switch?
      requires steps[switchId].cases == map[]
      modifies this
      ensures Now() == WithEdges(old(Now()), CaseEdges(switchId, cases, dst))
    {
      var i := 0;
      while i < |cases|
        invariant 0 <= i <= |cases|
        invariant switchId in steps && steps[switchId].Switch?
        invariant forall k :: k in steps[switchId].cases ==> steps[switchId].cases[k] == dst
        invariant WithEdges(Now(), CaseEdges(switchId, cases[i..], dst)) ==
                  WithEdges(old(Now()), CaseEdges(switchId, cases, dst))
      {
        ghost var e := Edge(switchId, dst, Some(cases[i]));
        ghost var wanted := WithEdge(Now(), e);
        steps := steps[switchId := Switch(steps[switchId].key, steps[switchId].cases[cases[i] := dst])];
        AddEdge(switchId, dst, Some(cases[i]));
        assert steps[switchId].cases == wanted.steps[switchId].cases;
        assert steps == wanted.steps;
        i := i + 1;
      }
    }

    method AddOutputsStep(outputs: seq<Entry>) returns (r: Result<Segment>)
      modifies this
      ensures var k := FreshCounter("emit", old(steps.Keys), old(counter));
              var id := Name("emit", k);
              && id !in old(steps)
              && if EntriesRenderable(outputs) then
                   && r == Ok(Segment(id, [Exit(id, None)]))
                   && Now() == WithStep(old(Now()).(counter := k + 1), id, Emit(RenderEntries(outputs)))
                 else r == Err(MissingKey)
    {
      var id := UniqueStepId("emit");
      if !EntriesRenderable(outputs) {
        return Err(MissingKey);
      }
      var _ := AddStep(id, Emit(RenderEntries(outputs)));
      r := Ok(Segment(id, [Exit(id, None)]));
    }

    method AddFinishStep() returns (r: Segment)
      modifies this
      ensures var k := FreshCounter("finish", old(steps.Keys), old(counter));
              var id := Name("finish", k);
              && id !in old(steps)
              && r == Segment(id, [])
              && Now() == WithStep(old(Now()).(counter := k + 1), id, Finish)
    {
      var id := UniqueStepId("finish");
      var _ := AddStep(id, Finish);
      r := Segment(id, []);
    }

    /** Compile a whole workflow with a new builder. */
    method CompileWorkflow(w: Workflow) returns (r: Result<Flow>)
      requires Now() == State(map[], [], [], None, 0)
      modifies this
      ensures r == Compile(w)
    {
      hide Tabled, RenderEntries, EntriesRenderable, Label, Dress, Full, Edges, Exits, Ids, Decls, GoodLabels, Link;
      hide WithEdges, FreshCounter, Name, Bare;
      if w.steps == [] {
        return Err(EmptySequence);
      }
      EmptySound();
      assert steps.Keys == {};
      ghost var labelled := Label(w.steps, {}, 0);
      if labelled.Ok? { LabelNonEmpty(w.steps, {}, 0); }
      var main := CompileSequence(w.steps);
      if main.Err? {
        return Err(main.error);
      }
      ghost var out := labelled.value;
      LabelGood(w.steps, {}, 0);
      ghost var s0 := Now();
      MainKeys(s0, out);
      var emitted := AddOutputsStep(w.outputs);
      if emitted.Err? {
        return Err(emitted.error);
      }
      LinkSegments(main.value.exits, emitted.value.entry);
      ghost var s2 := Now();
      MainKeys(s0, out);
      EmitLinked(out, w.outputs, s0, EmitCounter(out) + 1, s2);
      var finished := AddFinishStep();
      LinkSegments(emitted.value.exits, finished.entry);
      var start := if entry.Some? && entry.value != "" then entry.value else emitted.value.entry;
      WholeFlow(out, w.outputs, s2, FreshCounter("finish", s2.steps.Keys, s2.counter) + 1, Now());
      r := Ok(Flow(steps, order, edges, start));
    }
  }

  // ---------------------------------------------------------------- labelling, step by step

  /** Put already labelled steps before the labelling of what follows. */
  ghost function Prepend(done: seq<LStep>, r: Result<Labelled>): Result<Labelled> {
    match r
    case Err(e) => Err(e)
    case Ok(out) => Ok(Labelled(done + out.tree, out.used, out.next))
  }

  lemma PrependStep(done: seq<LStep>, block: seq<Step>, used: set<string>, n: nat)
    requires block != [] && LabelStep(block[0], used, n).Ok?
    ensures var first := LabelStep(block[0], used, n).value;
      Prepend(done, Label(block, used, n)) == Prepend(done + first.tree, Label(block[1..], first.used, first.next))
  {
    var first := LabelStep(block[0], used, n).value;
    var rest := Label(block[1..], first.used, first.next);
    if rest.Ok? {
      assert done + (first.tree + rest.value.tree) == (done + first.tree) + rest.value.tree;
    }
  }

  lemma PrependNothing(block: seq<Step>, used: set<string>, n: nat)
    ensures Prepend([], Label(block[0..], used, n)) == Label(block, used, n)
  {
    assert block[0..] == block;
    var r := Label(block, used, n);
    if r.Ok? { assert [] + r.value.tree == r.value.tree; }
  }

  lemma PrependAll(done: seq<LStep>, block: seq<Step>, used: set<string>, n: nat)
    ensures Prepend(done, Label(block[|block|..], used, n)) == Ok(Labelled(done, used, n))
  {
    assert block[|block|..] == [];
    assert done + [] == done;
  }

  ghost function First(ls: seq<LStep>): Option<string> {
    if ls == [] then None else Some(EntryId(ls[0]))
  }

  lemma LabelNonEmpty(steps: seq<Step>, used: set<string>, n: nat)
    requires steps != [] && Label(steps, used, n).Ok?
    ensures Label(steps, used, n).value.tree != []
  {
    LabelGood(steps, used, n);
  }

  lemma GrewKeys(s: State, tree: seq<LStep>, t: State)
    requires Full(tree) && Bare(t.steps) == Bare(s.steps) + Decls(tree)
    ensures t.steps.Keys == s.steps.Keys + ToSet(Ids(tree))
  {
    EdgesInside(tree);
    assert Bare(t.steps).Keys == t.steps.Keys && Bare(s.steps).Keys == s.steps.Keys;
  }

  lemma LabelledKeys(step: Step, s: State, labelled: Result<Labelled>, t: State)
    requires labelled == LabelStep(step, s.steps.Keys, s.counter) && labelled.Ok?
    requires Full(labelled.value.tree) && Bare(t.steps) == Bare(s.steps) + Decls(labelled.value.tree)
    ensures t.steps.Keys == labelled.value.used
  {
    LabelStepGood(step, s.steps.Keys, s.counter);
    GrewKeys(s, labelled.value.tree, t);
  }

  // ---------------------------------------------------------------- growth, step by step

  lemma GrewNothing(s: State)
    requires Sound(s)
    ensures Grew(s, [], s.counter, s)
  {
    assert Bare(s.steps) + map[] == Bare(s.steps);
  }

  lemma DeclsOne(l: LStep)
    ensures Decls([l]) == StepDecls(l)
  {
    hide StepDecls;
    assert [l][1..] == [];
    MapEmpty(StepDecls(l));
  }

  /** Two growths in a row, before the exits of the first are linked to the second. */
  lemma GrewTwice(s: State, done: seq<LStep>, before: State, l: LStep, after: State)
    requires Full(done) && StepFull(l) && Full([l])
    requires Grew(s, done, before.counter, before)
    requires Grew(before, [l], after.counter, after)
    ensures after.order == s.order + Ids(done + [l])
    ensures Bare(after.steps) == Bare(s.steps) + Decls(done + [l])
    ensures after.edges == s.edges + (Edges(done) + StepEdges(l))
  {
    hide Sound, Bare, Ids, Edges, Decls, StepIds, StepEdges, StepDecls;
    Singleton(l);
    SnocIds(done, l);
    SnocDecls(done, l);
    DeclsOne(l);
    MapPlus(Bare(s.steps), Decls(done), StepDecls(l));
    SeqPlus(s.edges, Edges(done), StepEdges(l));
    SeqPlus(s.order, Ids(done), StepIds(l));
  }

  /** Compiling one more step (`before` to `after`) and linking the exits (`after` to `t`). */
  lemma GrewStep(s: State, done: seq<LStep>, before: State, l: LStep, after: State, t: State)
    requires Full(done) && StepFull(l) && Full([l])
    requires Grew(s, done, before.counter, before)
    requires Grew(before, [l], after.counter, after)
    requires t == if done == [] then after else WithEdges(after, Link(Exits(done), EntryId(l)))
    ensures Full(done + [l]) && Grew(s, done + [l], t.counter, t)
    ensures Bare(t.steps) == Bare(before.steps) + Decls([l])
    ensures t.counter == after.counter
  {
    GrewTwice(s, done, before, l, after);
    SnocIds(done, l);
    SnocEdges(done, l);
    if done != [] {
      EdgesInside(done);
      GrewKeys(s, done, before);
      GrewKeys(before, [l], after);
      LinkIs(Exits(done), EntryId(l));
      WithEdgesKeeps(after, Link(Exits(done), EntryId(l)));
      SeqPlus(s.edges, Edges(done) + StepEdges(l), Link(Exits(done), EntryId(l)));
    }
  }

  /** One round of the loop over a block, with everything the loop keeps. */
  lemma SequenceStep(s: State, done: seq<LStep>, rest: seq<Step>, before: State, out: Labelled, after: State, t: State)
    requires Full(done) && rest != [] && |out.tree| == 1 && Full(out.tree)
    requires LabelStep(rest[0], before.steps.Keys, before.counter) == Ok(out)
    requires Grew(s, done, before.counter, before)
    requires Grew(before, out.tree, out.next, after)
    requires t == if done == [] then after else WithEdges(after, Link(Exits(done), EntryId(out.tree[0])))
    ensures Full(done + out.tree) && Grew(s, done + out.tree, t.counter, t)
    ensures Exits(done + out.tree) == StepExits(out.tree[0])
    ensures First(done + out.tree) == if done == [] then Some(EntryId(out.tree[0])) else First(done)
    ensures Prepend(done, Label(rest, before.steps.Keys, before.counter)) ==
            Prepend(done + out.tree, Label(rest[1..], t.steps.Keys, t.counter))
  {
    var l := out.tree[0];
    assert out.tree == [l];
    GrewStep(s, done, before, l, after, t);
    SnocExits(done, l);
    LabelledKeys(rest[0], before, Ok(out), t);
    PrependStep(done, rest, before.steps.Keys, before.counter);
  }

  lemma {:induction false} ExitsNonEmpty(ls: seq<LStep>)
    requires ls != []
    ensures Exits(ls) != []
  {
    if |ls| > 1 { ExitsNonEmpty(ls[1..]); }
  }

  lemma GrewCall(s: State, l: LStep, t: State)
    requires Sound(s) && l.LCall? && l.id !in s.steps
    requires t == WithStep(s, l.id, Task(l.target, RenderEntries(l.args)))
    ensures Full([l]) && Grew(s, [l], s.counter, t)
  {
    Singleton(l);
    SnocDecls([], l);
    assert [] + [l] == [l];
    WithStepKeeps(s, l.id, Task(l.target, RenderEntries(l.args)));
  }

  /** Once the body is compiled, the switch still has no edge and an empty table. */
  lemma BranchReady(s: State, l: LStep, t: State)
    requires Sound(s) && l.LWhen? && l.sid !in s.steps && Full(l.body)
    requires l.sid !in Ids(l.body)
    requires Grew(WithStep(s, l.sid, Switch(l.cond.key, map[])), l.body, t.counter, t)
    ensures l.sid in t.steps && t.steps[l.sid] == Switch(l.cond.key, map[])
  {
    var s1 := WithStep(s, l.sid, Switch(l.cond.key, map[]));
    assert l.sid in Bare(t.steps) && Bare(t.steps)[l.sid] == Switch(l.cond.key, map[]) by {
      hide Sound;
      EdgesInside(l.body);
      assert l.sid !in Decls(l.body) && Bare(s1.steps)[l.sid] == Switch(l.cond.key, map[]);
    }
    forall e | e in t.edges ensures e.src != l.sid {
      hide Tabled;
      EdgesInside(l.body);
    }
    NoEdgesNoTable(t.steps, t.edges, l.sid);
  }

  lemma NoEdgesNoTable(steps: map<string, FlowStep>, edges: seq<Edge>, id: string)
    requires Tabled(steps, edges) && id in steps && steps[id].Switch?
    requires forall e :: e in edges ==> e.src != id
    ensures steps[id].cases == map[]
  {
    forall c ensures c !in steps[id].cases {
      FindIs(edges, id, Some(c));
      assert Lookup(steps[id].cases, c) == Find(edges, id, Some(c));
    }
  }

  lemma GrewWhen(s: State, l: LStep, next: nat, ready: State, t: State)
    requires Sound(s) && l.LWhen? && l.sid !in s.steps && StepFull(l)
    requires Grew(WithStep(s, l.sid, Switch(l.cond.key, map[])), l.body, next, ready)
    requires l.sid in ready.steps
    requires t == WithEdges(ready, CaseEdges(l.sid, l.cond.cases, EntryId(l.body[0])))
    ensures Full([l]) && Grew(s, [l], next, t)
  {
    hide Sound, Bare, RenderEntries, Tabled, CaseEdges, Edges, Ids, Decls, WithEdges, Full;
    Singleton(l);
    WithStepKeeps(s, l.sid, Switch(l.cond.key, map[]));
    CaseEdgesAre(l.sid, l.cond.cases, EntryId(l.body[0]));
    WithEdgesKeeps(ready, CaseEdges(l.sid, l.cond.cases, EntryId(l.body[0])));
    DeclsOne(l);
    MapPut(Bare(s.steps), l.sid, Switch(l.cond.key, map[]));
    MapPlus(Bare(s.steps), map[l.sid := Switch(l.cond.key, map[])], Decls(l.body));
    SeqPlus(s.edges, Edges(l.body), CaseEdges(l.sid, l.cond.cases, EntryId(l.body[0])));
    SeqPlus(s.order, [l.sid], Ids(l.body));
  }

  // ---------------------------------------------------------------- the whole flow

  lemma SoundCounter(s: State, n: nat)
    requires Sound(s)
    ensures Sound(s.(counter := n))
  {
  }

  lemma EmptySound()
    ensures Sound(State(map[], [], [], None, 0))
  {
  }

  lemma MainKeys(s0: State, out: Labelled)
    requires Full(out.tree) && Grew(State(map[], [], [], None, 0), out.tree, out.next, s0)
    requires out.used == {} + ToSet(Ids(out.tree))
    ensures s0.steps.Keys == out.used && Bare(s0.steps) == Decls(out.tree)
    ensures s0.order == Ids(out.tree) && s0.edges == Edges(out.tree)
  {
    GrewKeys(State(map[], [], [], None, 0), out.tree, s0);
    assert Bare(map[]) + Decls(out.tree) == Decls(out.tree);
    assert [] + Ids(out.tree) == Ids(out.tree) && [] + Edges(out.tree) == Edges(out.tree);
  }

  lemma FirstId(ls: seq<LStep>)
    requires ls != []
    ensures Ids(ls) != [] && Ids(ls)[0] == EntryId(ls[0])
  {
  }

  /** Emit is added and the main exits are linked to it. */
  lemma EmitLinked(out: Labelled, outputs: seq<Entry>, s0: State, k: nat, s2: State)
    requires Full(out.tree) && out.tree != []
    requires Sound(s0) && s0.steps.Keys == out.used && Bare(s0.steps) == Decls(out.tree)
    requires s0.order == Ids(out.tree) && s0.edges == Edges(out.tree)
    requires EmitId(out) !in s0.steps
    requires s2 == WithEdges(WithStep(s0.(counter := k), EmitId(out), Emit(RenderEntries(outputs))),
                             Link(Exits(out.tree), EmitId(out)))
    ensures Sound(s2) && s2.steps.Keys == out.used + {EmitId(out)} && s2.counter == k
    ensures s2.order == Ids(out.tree) + [EmitId(out)]
    ensures s2.edges == Edges(out.tree) + Link(Exits(out.tree), EmitId(out))
    ensures Bare(s2.steps) == Decls(out.tree)[EmitId(out) := Emit(RenderEntries(outputs))]
  {
    hide Tabled, RenderEntries, Link, FreshCounter, Name, Edges, Exits, Ids, Decls;
    var s0' := s0.(counter := k);
    var s1 := WithStep(s0', EmitId(out), Emit(RenderEntries(outputs)));
    EdgesInside(out.tree);
    WithStepKeeps(s0', EmitId(out), Emit(RenderEntries(outputs)));
    assert Bare(s0.steps).Keys == s0.steps.Keys;
    LinkIs(Exits(out.tree), EmitId(out));
    WithEdgesKeeps(s1, Link(Exits(out.tree), EmitId(out)));
  }

  /** Finish is added and linked: the fields are those of the specified flow. */
  lemma WholeFlow(out: Labelled, outputs: seq<Entry>, s2: State, k: nat, s4: State)
    requires out.tree != [] && Full(out.tree)
    requires Sound(s2) && EmitId(out) in s2.steps && FinishId(out) !in s2.steps
    requires s2.order == Ids(out.tree) + [EmitId(out)]
    requires s2.edges == Edges(out.tree) + Link(Exits(out.tree), EmitId(out))
    requires Bare(s2.steps) == Decls(out.tree)[EmitId(out) := Emit(RenderEntries(outputs))]
    requires s4 == WithEdges(WithStep(s2.(counter := k), FinishId(out), Finish),
                             Link([Exit(EmitId(out), None)], FinishId(out)))
    ensures FlowOf(out.tree, EmitId(out), FinishId(out), outputs) ==
            Flow(s4.steps, s4.order, s4.edges, EntryId(out.tree[0]))
    ensures s4.entry == Some(EntryId(out.tree[0]))
  {
    var link := Link([Exit(EmitId(out), None)], FinishId(out));
    assert link == [Edge(EmitId(out), FinishId(out), None)];
    WithStepKeeps(s2.(counter := k), FinishId(out), Finish);
    WithEdgesKeeps(WithStep(s2.(counter := k), FinishId(out), Finish), link);
    DressIsUnique(s4.steps, s4.edges);
    FirstId(out.tree);
  }

  /** Steps are determined by their bare form and the edges. */
  lemma DressIsUnique(steps: map<string, FlowStep>, edges: seq<Edge>)
    requires Tabled(steps, edges)
    ensures steps == Dress(Bare(steps), edges)
  {
    forall id | id in steps && steps[id].Switch? ensures steps[id].cases == Table(edges, id) {
      TabledIsTable(steps, edges, id);
    }
  }
}
