/** Running a compiled flow, and what of its source's meaning each dispatcher keeps. */
module FlowMeaning {
  import opened Collections
  import opened Wdl
  import opened Runs
  import opened Names
  import opened Labels
  import opened Flows
  import opened FlowEngine

  // ---------------------------------------------------------------- the run loop

  datatype Outcome = Finished(trace: seq<Event>) | Stuck(at: string) | OutOfFuel

  /** Walk the flow from step `at` with history `h`, visiting at most `fuel` steps (the loop of tm/flow/engine.py
      when the engine dispatches). */
  function Walk(flow: Flow, via: Dispatcher, at: string, h: seq<Event>, world: World, fuel: nat): Outcome
    decreases fuel, 0
  {
    if fuel == 0 then OutOfFuel
    else if at !in flow.steps then Stuck(at)
    else
      match flow.steps[at]
      case Finish => Finished(h)
      case Task(target, args) =>
        Continue(flow, via, at, NextOf(flow.edges, at, via), h + [Called(at, target, args)], world, fuel - 1)
      case Emit(outputs) =>
        Continue(flow, via, at, NextOf(flow.edges, at, via), h + [Emitted(outputs)], world, fuel - 1)
      case Switch(key, _) =>
        var v := world(h, key);
        Continue(flow, via, at, ChoiceOf(flow.edges, at, v, via), h + [Tested(key, v)], world, fuel - 1)
  }

  function Continue(
    flow: Flow, via: Dispatcher, at: string, next: Option<string>, h: seq<Event>, world: World, fuel: nat): Outcome
    decreases fuel, 1
  {
    if next.None? then Stuck(at) else Walk(flow, via, next.value, h, world, fuel)
  }

  // ---------------------------------------------------------------- a flow implements a block

  /** The flow wires the block's steps as its source says and goes on at `k`. */
  ghost predicate Implements(flow: Flow, ls: seq<LStep>, k: string)
    decreases ls, 0
  {
    ls == [] ||
    (StepImplements(flow, ls[0], if |ls| == 1 then k else EntryId(ls[1])) && Implements(flow, ls[1..], k))
  }

  ghost predicate StepImplements(flow: Flow, l: LStep, k: string)
    decreases l, 1
  {
    match l
    case LCall(id, target, args) =>
      && id in flow.steps && flow.steps[id] == Task(target, RenderEntries(args))
      && From(flow.edges, id) == [Edge(id, k, None)]
    case LWhen(sid, c, body) =>
      && body != [] && EntryId(body[0]) != k && sid != DEFAULT_CASE
      && sid in flow.steps && flow.steps[sid].Switch? && flow.steps[sid].key == c.key
      && From(flow.edges, sid) == SwitchEdges(sid, c, EntryId(body[0]), k)
      && Implements(flow, body, k)
  }

  /** What follows a step, by name. */
  lemma FollowingName(flow: Flow, ls: seq<LStep>, k: string)
    requires Implements(flow, ls, k)
    ensures Following(Erase(ls), k == DEFAULT_CASE) <==> (if ls == [] then k else EntryId(ls[0])) == DEFAULT_CASE
  {
    if ls != [] { assert Erase(ls)[0] == EraseStep(ls[0]); }
  }

  /** Walking an implemented block yields the block's structured execution. */
  lemma {:induction false} WalkBlock(
    flow: Flow, via: Dispatcher, ls: seq<LStep>, k: string, h: seq<Event>, world: World, fuel: nat)
      returns (left: nat)
    requires ls != [] && Implements(flow, ls, k) && fuel >= |Ids(ls)|
    ensures left >= fuel - |Ids(ls)|
    ensures Walk(flow, via, EntryId(ls[0]), h, world, fuel) ==
            Walk(flow, via, k, Exec(Erase(ls), h, world, ReadingOf(via), k == DEFAULT_CASE), world, left)
    decreases ls, 0
  {
    var how, named := ReadingOf(via), k == DEFAULT_CASE;
    FollowingName(flow, ls[1..], k);
    if |ls| == 1 {
      left := WalkStep(flow, via, ls[0], k, h, world, fuel);
      Singleton(ls[0]);
      assert ls == [ls[0]];
      ExecOne(EraseStep(ls[0]), h, world, how, named);
    } else {
      var next := EntryId(ls[1]);
      var mid := WalkStep(flow, via, ls[0], next, h, world, fuel);
      var h1 := ExecStep(EraseStep(ls[0]), h, world, how, next == DEFAULT_CASE);
      left := WalkBlock(flow, via, ls[1..], k, h1, world, mid);
      assert Erase(ls)[1..] == Erase(ls[1..]);
    }
  }

  lemma {:induction false} WalkStep(
    flow: Flow, via: Dispatcher, l: LStep, k: string, h: seq<Event>, world: World, fuel: nat)
      returns (left: nat)
    requires StepImplements(flow, l, k) && fuel >= |StepIds(l)|
    ensures left >= fuel - |StepIds(l)|
    ensures Walk(flow, via, EntryId(l), h, world, fuel) ==
            Walk(flow, via, k, ExecStep(EraseStep(l), h, world, ReadingOf(via), k == DEFAULT_CASE), world, left)
    decreases l, 1
  {
    hide NextOf, ChoiceOf, Enters, From;
    match l
    case LCall(id, target, args) =>
      NextIs(flow.edges, id, k, via);
      left := fuel - 1;
    case LWhen(sid, c, body) =>
      var v := world(h, c.key);
      var h' := h + [Tested(c.key, v)];
      ChoiceIs(flow.edges, sid, c, EntryId(body[0]), k, v, via);
      if Enters(c, v, ReadingOf(via), k == DEFAULT_CASE) {
        left := WalkBlock(flow, via, body, k, h', world, fuel - 1);
      } else {
        left := fuel - 1;
      }
  }

  // ---------------------------------------------------------------- compiled flows implement their source

  lemma {:induction false} LinkAppend(a: seq<Exit>, b: seq<Exit>, dst: string)
    ensures Link(a + b, dst) == Link(a, dst) + Link(b, dst)
  {
    if a == [] {
      assert a + b == b;
    } else {
      assert (a + b)[1..] == a[1..] + b;
      LinkAppend(a[1..], b, dst);
    }
  }

  lemma LinkOne(x: Exit, dst: string)
    ensures Link([x], dst) == [Edge(x.src, dst, x.tag)]
  {
    assert [x][1..] == [];
  }

  /** Edges of a block whose exits are linked to `k`. */
  ghost function Closed(ls: seq<LStep>, k: string): seq<Edge>
    requires Full(ls)
  {
    Edges(ls) + Link(Exits(ls), k)
  }

  ghost function StepClosed(l: LStep, k: string): seq<Edge>
    requires StepFull(l)
  {
    StepEdges(l) + Link(StepExits(l), k)
  }

  /** On the given sources two edge lists are alike. */
  ghost predicate SameFrom(a: seq<Edge>, b: seq<Edge>, srcs: seq<string>) {
    forall src :: src in srcs ==> From(a, src) == From(b, src)
  }

  /** A block that continues `exits` owns the edges from its own steps. */
  lemma {:induction false} AfterSameFrom(exits: seq<Exit>, ls: seq<LStep>, src: string)
    requires Full(ls) && ls != []
    requires forall x :: x in exits ==> x.src != src
    ensures From(EdgesAfter(exits, ls), src) == From(Edges(ls), src)
  {
    var head, link, tail := StepEdges(ls[0]), Link(exits, EntryId(ls[0])), EdgesAfter(StepExits(ls[0]), ls[1..]);
    LinkIs(exits, EntryId(ls[0]));
    FromElsewhere(link, src);
    FromAppend(head + link, tail, src);
    FromAppend(head, link, src);
    FromAppend(head, tail, src);
  }

  /** A step inside a block keeps its own edges and continues at the next step. */
  lemma HeadSameFrom(ls: seq<LStep>, k: string)
    requires Full(ls) && ls != [] && NoDup(Ids(ls))
    ensures SameFrom(Closed(ls, k), StepClosed(ls[0], if |ls| == 1 then k else EntryId(ls[1])), StepIds(ls[0]))
  {
    hide From, Closed, StepClosed;
    var l := ls[0];
    forall src | src in StepIds(l)
      ensures From(Closed(ls, k), src) == From(StepClosed(l, if |ls| == 1 then k else EntryId(ls[1])), src)
    {
      if |ls| == 1 {
        ClosedOne(l, k);
        assert ls == [l];
      } else {
        HeadFrom(ls, k, src);
      }
    }
  }

  lemma ClosedOne(l: LStep, k: string)
    requires StepFull(l)
    ensures Full([l]) && Closed([l], k) == StepClosed(l, k)
  {
    Singleton(l);
  }

  lemma HeadFrom(ls: seq<LStep>, k: string, src: string)
    requires Full(ls) && |ls| > 1 && NoDup(Ids(ls)) && src in StepIds(ls[0])
    ensures From(Closed(ls, k), src) == From(StepClosed(ls[0], EntryId(ls[1])), src)
  {
    hide From, StepEdges;
    var l, rest := ls[0], ls[1..];
    EdgesInside(rest);
    StepEdgesInside(rest[0]);
    NotInTail(ls, src);
    var exits := StepExits(l);
    var e0, link := StepEdges(rest[0]), Link(exits, EntryId(rest[0]));
    var tail := EdgesAfter(StepExits(rest[0]), rest[1..]);
    EdgesAfterInside(StepExits(rest[0]), rest[1..]);
    FromElsewhere(e0, src);
    FromElsewhere(tail, src);
    LinkIs(Exits(rest), k);
    assert Exits(ls) == Exits(rest);
    FromElsewhere(Link(Exits(ls), k), src);
    FromAppend(Edges(ls), Link(Exits(ls), k), src);
    FromAppend(StepEdges(l), EdgesAfter(exits, rest), src);
    FromAppend(e0 + link, tail, src);
    FromAppend(e0, link, src);
    FromAppend(StepEdges(l), link, src);
  }

  lemma NotInTail(ls: seq<LStep>, src: string)
    requires ls != [] && NoDup(Ids(ls)) && src in StepIds(ls[0])
    ensures src !in Ids(ls[1..])
  {
    var i :| 0 <= i < |StepIds(ls[0])| && StepIds(ls[0])[i] == src;
    assert Ids(ls)[i] == src;
    forall j | 0 <= j < |Ids(ls[1..])| ensures Ids(ls[1..])[j] != src {
      assert Ids(ls)[|StepIds(ls[0])| + j] == Ids(ls[1..])[j];
    }
  }

  lemma NoDupParts(ls: seq<LStep>)
    requires ls != [] && NoDup(Ids(ls))
    ensures NoDup(StepIds(ls[0])) && NoDup(Ids(ls[1..]))
  {
    var all, n := Ids(ls), |StepIds(ls[0])|;
    assert forall i :: 0 <= i < n ==> all[i] == StepIds(ls[0])[i];
    assert forall j :: 0 <= j < |Ids(ls[1..])| ==> all[n + j] == Ids(ls[1..])[j];
  }

  /** The rest of a block keeps its own edges. */
  lemma TailSameFrom(ls: seq<LStep>, k: string)
    requires Full(ls) && |ls| > 1 && NoDup(Ids(ls))
    ensures SameFrom(Closed(ls, k), Closed(ls[1..], k), Ids(ls[1..]))
  {
    hide From, Closed;
    forall src | src in Ids(ls[1..]) ensures From(Closed(ls, k), src) == From(Closed(ls[1..], k), src) {
      if src in StepIds(ls[0]) { NotInTail(ls, src); }
      TailFrom(ls, k, src);
    }
  }

  lemma TailFrom(ls: seq<LStep>, k: string, src: string)
    requires Full(ls) && |ls| > 1 && src !in StepIds(ls[0])
    ensures From(Closed(ls, k), src) == From(Closed(ls[1..], k), src)
  {
    hide From, StepEdges, Link, Ids, StepIds;
    var l, rest := ls[0], ls[1..];
    StepEdgesInside(l);
    FromElsewhere(StepEdges(l), src);
    AfterSameFrom(StepExits(l), rest, src);
    FromAppend(Edges(ls), Link(Exits(ls), k), src);
    FromAppend(StepEdges(l), EdgesAfter(StepExits(l), rest), src);
    FromAppend(Edges(rest), Link(Exits(rest), k), src);
    assert Exits(ls) == Exits(rest);
    assert [] + From(Edges(rest), src) == From(Edges(rest), src);
  }

  lemma FromParts(a: seq<Edge>, b: seq<Edge>, c: seq<Edge>, d: seq<Edge>, src: string)
    ensures From(a + b + (c + d), src) == (From(a, src) + From(b, src)) + (From(c, src) + From(d, src))
    ensures From(a + c, src) == From(a, src) + From(c, src)
  {
    hide From;
    FromAppend(a + b, c + d, src);
    FromAppend(a, b, src);
    FromAppend(c, d, src);
    FromAppend(a, c, src);
  }

  /** What leaves a switch, and what leaves the steps of its body. */
  lemma BranchFrom(sid: StepId, c: Condition, body: seq<LStep>, k: string, src: string)
    requires body != [] && Full(body) && sid !in Ids(body)
    requires src == sid || src in Ids(body)
    ensures From(StepClosed(LWhen(sid, c, body), k), src) ==
      if src == sid then SwitchEdges(sid, c, EntryId(body[0]), k) else From(Closed(body, k), src)
  {
    hide From, Edges, Exits, Link, CaseEdges;
    var cases := CaseEdges(sid, c.cases, EntryId(body[0]));
    var last := [Exit(sid, Some(DEFAULT_CASE))];
    var link, lastLink := Link(Exits(body), k), Link(last, k);
    LinkOne(last[0], k);
    EdgesInside(body);
    LinkAppend(Exits(body), last, k);
    FromParts(Edges(body), cases, link, lastLink, src);
    CaseEdgesAre(sid, c.cases, EntryId(body[0]));
    LinkIs(Exits(body), k);
    if src == sid {
      assert From(Edges(body), src) == [] by { FromElsewhere(Edges(body), src); }
      assert From(link, src) == [] by { FromElsewhere(link, src); }
      assert From(cases, src) == cases by { FromAll(cases, src); }
      assert From(lastLink, src) == lastLink by { FromAll(lastLink, src); }
      assert ([] + cases) + ([] + lastLink) == cases + lastLink;
    } else {
      assert From(cases, src) == [] by { FromElsewhere(cases, src); }
      assert From(lastLink, src) == [] by { FromElsewhere(lastLink, src); }
      assert (From(Edges(body), src) + []) + (From(link, src) + []) == From(Edges(body), src) + From(link, src);
    }
  }

  /** The declarations of a block are the flow's, up to the switch tables. */
  ghost predicate Declares(flow: Flow, decls: map<string, FlowStep>) {
    forall id :: id in decls ==>
      && id in flow.steps
      && (decls[id].Task? ==> flow.steps[id] == decls[id])
      && (decls[id].Switch? ==> flow.steps[id].Switch? && flow.steps[id].key == decls[id].key)
  }

  lemma {:induction false} BlockImplements(flow: Flow, ls: seq<LStep>, k: string)
    requires Full(ls) && Generated(ls) && NoDup(Ids(ls)) && k !in Ids(ls)
    requires SameFrom(flow.edges, Closed(ls, k), Ids(ls))
    requires Declares(flow, Decls(ls))
    ensures Implements(flow, ls, k)
    decreases ls, 0
  {
    if ls != [] {
      NoDupParts(ls);
      HeadSameFrom(ls, k);
      DeclsParts(ls);
      if |ls| > 1 {
        StepEntryInside(ls[1..]);
        if EntryId(ls[1]) in StepIds(ls[0]) { NotInTail(ls, EntryId(ls[1])); }
        TailSameFrom(ls, k);
        BlockImplements(flow, ls[1..], k);
      }
      StepBlockImplements(flow, ls[0], if |ls| == 1 then k else EntryId(ls[1]));
    }
  }

  /** Declarations of the parts are declarations of the whole. */
  lemma DeclsParts(ls: seq<LStep>)
    requires Full(ls) && ls != [] && NoDup(Ids(ls))
    ensures forall id :: id in StepDecls(ls[0]) ==> id in Decls(ls) && Decls(ls)[id] == StepDecls(ls[0])[id]
    ensures forall id :: id in Decls(ls[1..]) ==> id in Decls(ls) && Decls(ls)[id] == Decls(ls[1..])[id]
  {
    StepEdgesInside(ls[0]);
    EdgesInside(ls[1..]);
    forall id | id in StepDecls(ls[0]) ensures id !in Decls(ls[1..]) {
      assert id in ToSet(StepIds(ls[0]));
      NotInTail(ls, id);
    }
  }

  lemma {:induction false} StepBlockImplements(flow: Flow, l: LStep, k: string)
    requires StepFull(l) && StepGenerated(l) && NoDup(StepIds(l)) && k !in StepIds(l)
    requires SameFrom(flow.edges, StepClosed(l, k), StepIds(l))
    requires Declares(flow, StepDecls(l))
    ensures StepImplements(flow, l, k)
    decreases l, 1
  {
    match l
    case LCall(id, target, args) =>
      LinkOne(Exit(id, None), k);
      assert [] + Link([Exit(id, None)], k) == [Edge(id, k, None)];
      FromAll([Edge(id, k, None)], id);
      assert From(flow.edges, id) == From(StepClosed(l, k), id);
    case LWhen(sid, c, body) =>
      assert sid !in Ids(body) by {
        assert StepIds(l)[0] == sid;
        forall j | 0 <= j < |Ids(body)| ensures Ids(body)[j] != sid { assert StepIds(l)[j + 1] == Ids(body)[j]; }
      }
      assert NoDup(Ids(body)) by { assert forall j :: 0 <= j < |Ids(body)| ==> StepIds(l)[j + 1] == Ids(body)[j]; }
      assert From(flow.edges, sid) == From(StepClosed(l, k), sid) by { assert StepIds(l)[0] == sid; }
      BranchFrom(sid, c, body, k, sid);
      forall src | src in Ids(body) ensures From(flow.edges, src) == From(Closed(body, k), src) {
        BranchFrom(sid, c, body, k, src);
      }
      EdgesInside(body);
      StepEntryInside(body);
      BlockImplements(flow, body, k);
  }

  // ---------------------------------------------------------------- meaning is preserved

  /** The labelled tree behind a compiled flow. */
  lemma CompiledTree(w: Workflow, flow: Flow) returns (tree: seq<LStep>, emit: string, finish: string)
    requires Compile(w) == Ok(flow)
    ensures tree != [] && Full(tree) && Generated(tree) && Erase(tree) == w.steps && emit != DEFAULT_CASE
    ensures flow == FlowOf(tree, emit, finish, w.outputs)
    ensures NoDup(Ids(tree)) && emit !in Ids(tree) && finish !in Ids(tree) && emit != finish
    ensures Label(w.steps, {}, 0).Ok? && tree == Label(w.steps, {}, 0).value.tree
  {
    hide Label, RenderEntries, Ids, FreshCounter, FlowOf;
    var out := Label(w.steps, {}, 0).value;
    LabelGood(w.steps, {}, 0);
    tree, emit, finish := out.tree, EmitId(out), FinishId(out);
    FreshCounterIsLeast("emit", out.used, out.next);
    GeneratedName("emit", EmitCounter(out));
    FreshCounterIsLeast("finish", out.used + {emit}, EmitCounter(out) + 1);
    assert forall id :: id in Ids(tree) ==> id in ToSet(Ids(tree));
  }

  lemma CompiledImplements(flow: Flow, tree: seq<LStep>, emit: string, finish: string, outputs: seq<Entry>)
    requires tree != [] && Full(tree) && Generated(tree) && NoDup(Ids(tree))
    requires flow == FlowOf(tree, emit, finish, outputs)
    requires emit !in Ids(tree) && finish !in Ids(tree) && emit != finish
    ensures Implements(flow, tree, emit)
    ensures From(flow.edges, emit) == [Edge(emit, finish, None)]
    ensures emit in flow.steps && flow.steps[emit] == Emit(RenderEntries(outputs))
    ensures finish in flow.steps && flow.steps[finish] == Finish
  {
    hide Implements, RenderEntries, Exits, Edges, Ids, Decls, Full, Generated, Table;
    var last := [Edge(emit, finish, None)];
    EdgesInside(tree);
    LinkIs(Exits(tree), emit);
    forall src | src in Ids(tree) ensures From(flow.edges, src) == From(Closed(tree, emit), src) {
      FromAppend(Closed(tree, emit), last, src);
      FromElsewhere(last, src);
    }
    FromAppend(Closed(tree, emit), last, emit);
    FromElsewhere(Closed(tree, emit), emit);
    FromAll(last, emit);
    DressDeclares(Decls(tree)[emit := Emit(RenderEntries(outputs))][finish := Finish], Decls(tree), flow);
    BlockImplements(flow, tree, emit);
  }

  lemma DressDeclares(all: map<string, FlowStep>, decls: map<string, FlowStep>, flow: Flow)
    requires flow.steps == Dress(all, flow.edges)
    requires forall id :: id in decls ==> id in all && all[id] == decls[id]
    ensures Declares(flow, decls)
  {
  }

  /** Walking a compiled flow from its entry visits exactly the calls and branch tests that
      structured execution performs, in that order, then emits the outputs and finishes; it never
      needs more visits than the flow has steps. No assumption on the case literals: the dispatcher
      decides how they are read. */
  lemma WalkIsMeaning(w: Workflow, flow: Flow, via: Dispatcher, world: World, fuel: nat)
    requires Compile(w) == Ok(flow) && fuel >= |flow.order|
    ensures Walk(flow, via, flow.entry, [], world, fuel) == Finished(Meaning(w, world, ReadingOf(via)))
  {
    hide Exec, NextOf, Implements, Compile;
    var tree, emit, finish := CompiledTree(w, flow);
    CompiledImplements(flow, tree, emit, finish, w.outputs);
    var left := WalkBlock(flow, via, tree, emit, [], world, fuel);
    NextIs(flow.edges, emit, finish, via);
    var h := Exec(w.steps, [], world, ReadingOf(via), false);
    var h' := h + [Emitted(RenderEntries(w.outputs))];
    assert Walk(flow, via, emit, h, world, left) == Walk(flow, via, finish, h', world, left - 1);
  }

  // ---------------------------------------------------------------- when it is the literal meaning

  /** Some run of a non-empty block calls a step, unless the reading passes over its end. */
  lemma {:induction false} SomeCall(steps: seq<Step>, h: seq<Event>, how: Reading, named: bool)
      returns (t: seq<Event>, id: string)
    requires steps != [] && AllFull(steps) && !(how.UnlessNamed? && named)
    ensures h <= t && t == Exec(steps, h, Follow(t), how, named)
    ensures id in CallIds(steps) && Calls(t[|h|..], id)
    decreases steps, 0
  {
    hide Calls, Enters;
    var step, rest := steps[0], steps[1..];
    var next := Following(rest, named);
    if step.When? && how.UnlessNamed? && next {
      var h1 := ExecStep(step, h, Follow([]), how, next);
      ExecStepExtends(step, h, Follow([]), how, next);
      t, id := SomeCall(rest, h1, how, named);
      FollowReproducesStep(step, h, Follow([]), how, t, next);
      CallsEarlier(h, h1, t, id);
    } else {
      var t0;
      t0, id := SomeStepCall(step, h, how, next);
      t := Exec(rest, t0, Follow(t0), how, named);
      ExecExtends(rest, t0, Follow(t0), how, named);
      FollowReproducesStep(step, h, Follow(t0), how, t, next);
      FollowReproduces(rest, t0, Follow(t0), how, t, named);
      CallsLonger(h, t0, t, id);
    }
  }

  lemma {:induction false} SomeStepCall(step: Step, h: seq<Event>, how: Reading, named: bool)
      returns (t: seq<Event>, id: string)
    requires StepAllFull(step) && !(step.When? && how.UnlessNamed? && named)
    ensures h <= t && t == ExecStep(step, h, Follow(t), how, named)
    ensures id in StepCallIds(step) && Calls(t[|h|..], id)
    decreases step, 1
  {
    match step
    case Call(i, target, args) =>
      id := i;
      t := h + [Called(i, target, RenderEntries(args))];
      assert t[|h|] == t[|h|..][0];
    case When(c, body) =>
      hide Calls, Enters;
      var v := Some(LastLiteral(c));
      LastLiteralEnters(c, how, named);
      t, id := SomeCall(body, h + [Tested(c.key, v)], how, named);
      assert t[|h|] == (h + [Tested(c.key, v)])[|h|];
      CallsAfterTest(c.key, v, h, t, id);
  }

  lemma CallsEarlier(h: seq<Event>, h1: seq<Event>, t: seq<Event>, id: string)
    requires h <= h1 <= t && Calls(t[|h1|..], id)
    ensures Calls(t[|h|..], id)
  {
    assert t[|h|..] == t[|h|..|h1|] + t[|h1|..];
  }

  lemma CallsLonger(h: seq<Event>, t0: seq<Event>, t: seq<Event>, id: string)
    requires h <= t0 <= t && Calls(t0[|h|..], id)
    ensures Calls(t[|h|..], id)
  {
    assert t[|h|..] == t0[|h|..] + t[|t0|..];
  }

  /** After the run `t` the reading has not called `id`, however the trace goes on. */
  ghost predicate NeverCalls(steps: seq<Step>, h: seq<Event>, t: seq<Event>, id: string, how: Reading, named: bool) {
    forall t' :: t <= t' ==>
      h <= Exec(steps, h, Follow(t'), how, named) && !Calls(Exec(steps, h, Follow(t'), how, named)[|h|..], id)
  }

  ghost predicate StepNeverCalls(step: Step, h: seq<Event>, t: seq<Event>, id: string, how: Reading, named: bool) {
    forall t' :: t <= t' ==>
      h <= ExecStep(step, h, Follow(t'), how, named) && !Calls(ExecStep(step, h, Follow(t'), how, named)[|h|..], id)
  }

  /** `a` and `b` are the given reading and the literal one, in either order. */
  predicate Pair(how: Reading, a: Reading, b: Reading) {
    (a == how && b == AsWritten) || (a == AsWritten && b == how)
  }

  /** Where a reading departs from the literal one, there is a run in which one of them calls a step
      that the other never calls. */
  lemma {:induction false} DepartureShows(steps: seq<Step>, h: seq<Event>, how: Reading, named: bool)
      returns (t: seq<Event>, id: string, a: Reading, b: Reading)
    requires !Agree(steps, how, named) && AllFull(steps) && NoDup(CallIds(steps))
    ensures Pair(how, a, b)
    ensures h <= t && t == Exec(steps, h, Follow(t), a, named)
    ensures id in CallIds(steps) && Calls(t[|h|..], id)
    ensures NeverCalls(steps, h, t, id, b, named)
    decreases steps, 0
  {
    hide Calls, NeverCalls, StepNeverCalls;
    var step, rest := steps[0], steps[1..];
    var next := Following(rest, named);
    CallIdsParts(steps);
    if StepAgrees(step, how, next) {
      var h1 := ExecStep(step, h, Follow([]), AsWritten, next);
      ExecStepExtends(step, h, Follow([]), AsWritten, next);
      t, id, a, b := DepartureShows(rest, h1, how, named);
      ShowsInTail(steps, h, t, id, how, a, b, named);
    } else {
      var t1;
      t1, id, a, b := StepDepartureShows(step, h, how, next);
      t := Exec(rest, t1, Follow(t1), a, named);
      ExecExtends(rest, t1, Follow(t1), a, named);
      FollowReproducesStep(step, h, Follow(t1), a, t, next);
      FollowReproduces(rest, t1, Follow(t1), a, t, named);
      CallsLonger(h, t1, t, id);
      ShowsInHead(steps, h, t1, t, id, b, named);
    }
  }

  /** A step whose branches are read alike runs alike in every continuation of its trace. */
  lemma StepAlike(step: Step, h: seq<Event>, t: seq<Event>, how: Reading, a: Reading, named: bool)
    requires StepAgrees(step, how, named) && (a == how || a == AsWritten)
    requires ExecStep(step, h, Follow([]), AsWritten, named) <= t
    ensures ExecStep(step, h, Follow(t), a, named) == ExecStep(step, h, Follow([]), AsWritten, named)
  {
    hide ExecStep, StepAgrees;
    FollowReproducesStep(step, h, Follow([]), AsWritten, t, named);
    AgreeingStep(step, h, Follow(t), how, named);
  }

  /** The first step reads its branches alike, the rest shows the difference. */
  lemma ShowsInTail(
    steps: seq<Step>, h: seq<Event>, t: seq<Event>, id: string, how: Reading, a: Reading, b: Reading, named: bool)
    requires steps != [] && StepAgrees(steps[0], how, Following(steps[1..], named))
    requires id !in StepCallIds(steps[0]) && Pair(how, a, b)
    requires var h1 := ExecStep(steps[0], h, Follow([]), AsWritten, Following(steps[1..], named));
      && h1 <= t && NeverCalls(steps[1..], h1, t, id, b, named)
      && t == Exec(steps[1..], h1, Follow(t), a, named) && Calls(t[|h1|..], id)
    ensures h <= t && t == Exec(steps, h, Follow(t), a, named) && Calls(t[|h|..], id)
    ensures NeverCalls(steps, h, t, id, b, named)
  {
    hide ExecStep, StepAgrees, NeverCalls, Calls;
    var step, next := steps[0], Following(steps[1..], named);
    var h1 := ExecStep(step, h, Follow([]), AsWritten, next);
    ExecStepExtends(step, h, Follow([]), AsWritten, next);
    StepAlike(step, h, t, how, a, next);
    CallsEarlier(h, h1, t, id);
    NeverInTail(steps, h, h1, t, id, how, b, named);
  }

  lemma NeverInTail(
    steps: seq<Step>, h: seq<Event>, h1: seq<Event>, t: seq<Event>, id: string, how: Reading, b: Reading, named: bool)
    requires steps != [] && StepAgrees(steps[0], how, Following(steps[1..], named))
    requires id !in StepCallIds(steps[0]) && (b == how || b == AsWritten)
    requires h1 == ExecStep(steps[0], h, Follow([]), AsWritten, Following(steps[1..], named))
    requires h1 <= t && NeverCalls(steps[1..], h1, t, id, b, named)
    ensures NeverCalls(steps, h, t, id, b, named)
  {
    hide ExecStep, StepAgrees;
    var step, next := steps[0], Following(steps[1..], named);
    ExecStepExtends(step, h, Follow([]), AsWritten, next);
    forall t' | t <= t'
      ensures h <= Exec(steps, h, Follow(t'), b, named) && !Calls(Exec(steps, h, Follow(t'), b, named)[|h|..], id)
    {
      StepAlike(step, h, t', how, b, next);
      var r := Exec(steps[1..], h1, Follow(t'), b, named);
      assert r == Exec(steps, h, Follow(t'), b, named);
      assert r[|h|..] == h1[|h|..] + r[|h1|..];
    }
  }

  /** The first step shows the difference, the rest cannot call the same id. */
  lemma ShowsInHead(steps: seq<Step>, h: seq<Event>, t1: seq<Event>, t: seq<Event>, id: string, b: Reading, named: bool)
    requires steps != [] && id !in CallIds(steps[1..]) && t1 <= t
    requires StepNeverCalls(steps[0], h, t1, id, b, Following(steps[1..], named))
    ensures NeverCalls(steps, h, t, id, b, named)
  {
    forall t' | t <= t'
      ensures h <= Exec(steps, h, Follow(t'), b, named) && !Calls(Exec(steps, h, Follow(t'), b, named)[|h|..], id)
    {
      var h1 := ExecStep(steps[0], h, Follow(t'), b, Following(steps[1..], named));
      var r := Exec(steps[1..], h1, Follow(t'), b, named);
      ExecExtends(steps[1..], h1, Follow(t'), b, named);
      assert r[|h|..] == h1[|h|..] + r[|h1|..];
    }
  }

  lemma CallIdsParts(steps: seq<Step>)
    requires steps != [] && NoDup(CallIds(steps))
    ensures NoDup(StepCallIds(steps[0])) && NoDup(CallIds(steps[1..]))
    ensures forall id :: id in StepCallIds(steps[0]) ==> id !in CallIds(steps[1..])
  {
    var all, n := CallIds(steps), |StepCallIds(steps[0])|;
    assert forall i :: 0 <= i < n ==> all[i] == StepCallIds(steps[0])[i];
    assert forall j :: 0 <= j < |CallIds(steps[1..])| ==> all[n + j] == CallIds(steps[1..])[j];
  }

  lemma {:induction false} StepDepartureShows(step: Step, h: seq<Event>, how: Reading, named: bool)
      returns (t: seq<Event>, id: string, a: Reading, b: Reading)
    requires !StepAgrees(step, how, named) && StepAllFull(step) && NoDup(StepCallIds(step))
    ensures Pair(how, a, b)
    ensures h <= t && t == ExecStep(step, h, Follow(t), a, named)
    ensures id in StepCallIds(step) && Calls(t[|h|..], id)
    ensures StepNeverCalls(step, h, t, id, b, named)
    decreases step, 1
  {
    hide Calls, Enters, NeverCalls;
    var c, body := step.cond, step.body;
    var v;
    if BranchAgrees(c, how, named) {
      v := Some(LastLiteral(c));
      if how.UnlessNamed? { FixedDisagrees(c, how, named); }
      LastLiteralEnters(c, how, named);
      LastLiteralEnters(c, AsWritten, named);
      t, id, a, b := DepartureShows(body, h + [Tested(c.key, v)], how, named);
      EnteredNeverCalls(c, body, h, v, t, id, b, named);
    } else {
      v :| Enters(c, v, how, named) != Enters(c, v, AsWritten, named);
      if Enters(c, v, how, named) { a, b := how, AsWritten; } else { a, b := AsWritten, how; }
      PassedOver(c, v, a, named);
      t, id := SomeCall(body, h + [Tested(c.key, v)], a, named);
      SkippedNeverCalls(c, body, h, v, t, id, b, named);
    }
    assert t[|h|] == (h + [Tested(c.key, v)])[|h|];
    CallsAfterTest(c.key, v, h, t, id);
  }

  lemma PassedOver(c: Condition, v: Option<string>, how: Reading, named: bool)
    requires Enters(c, v, how, named)
    ensures !(how.UnlessNamed? && named)
  {
  }

  lemma EnteredNeverCalls(
    c: Condition, body: seq<Step>, h: seq<Event>, v: Option<string>, t: seq<Event>, id: string, b: Reading, named: bool)
    requires h + [Tested(c.key, v)] <= t && Enters(c, v, b, named)
    requires NeverCalls(body, h + [Tested(c.key, v)], t, id, b, named)
    ensures StepNeverCalls(When(c, body), h, t, id, b, named)
  {
    hide Calls, Enters;
    var h' := h + [Tested(c.key, v)];
    assert t[|h|] == h'[|h|];
    forall t' | t <= t'
      ensures var r := ExecStep(When(c, body), h, Follow(t'), b, named); h <= r && !Calls(r[|h|..], id)
    {
      assert t'[|h|] == t[|h|];
      CallsAfterTest(c.key, v, h, Exec(body, h', Follow(t'), b, named), id);
    }
  }

  lemma SkippedNeverCalls(
    c: Condition, body: seq<Step>, h: seq<Event>, v: Option<string>, t: seq<Event>, id: string, b: Reading, named: bool)
    requires h + [Tested(c.key, v)] <= t && !Enters(c, v, b, named)
    ensures StepNeverCalls(When(c, body), h, t, id, b, named)
  {
    hide Calls, Enters;
    var h' := h + [Tested(c.key, v)];
    assert t[|h|] == h'[|h|];
    forall t' | t <= t'
      ensures var r := ExecStep(When(c, body), h, Follow(t'), b, named); h <= r && !Calls(r[|h|..], id)
    {
      assert t'[|h|] == t[|h|];
      assert h'[|h| + 1..] == [];
      NoCallsInNothing(id);
      CallsAfterTest(c.key, v, h, h', id);
    }
  }

  lemma NoCallsInNothing(id: string)
    ensures !Calls([], id)
  {
  }

  /** Compiled workflows have full branches and distinct call ids. */
  lemma {:induction false} ErasedSource(ls: seq<LStep>)
    requires Full(ls) && NoDup(Ids(ls))
    ensures AllFull(Erase(ls)) && NoDup(CallIds(Erase(ls)))
    ensures forall id :: id in CallIds(Erase(ls)) ==> id in Ids(ls)
    decreases ls, 0
  {
    if ls != [] {
      NoDupParts(ls);
      ErasedStep(ls[0]);
      ErasedSource(ls[1..]);
      var a, b := StepCallIds(EraseStep(ls[0])), CallIds(Erase(ls[1..]));
      assert Erase(ls)[0] == EraseStep(ls[0]) && Erase(ls)[1..] == Erase(ls[1..]);
      forall id | id in a ensures id !in b { NotInTail(ls, id); }
      NoDupAppend(a, b);
    }
  }

  lemma {:induction false} ErasedStep(l: LStep)
    requires StepFull(l) && NoDup(StepIds(l))
    ensures StepAllFull(EraseStep(l)) && NoDup(StepCallIds(EraseStep(l)))
    ensures forall id :: id in StepCallIds(EraseStep(l)) ==> id in StepIds(l)
    decreases l, 1
  {
    match l
    case LCall(_, _, _) =>
    case LWhen(sid, c, body) =>
      assert forall j :: 0 <= j < |Ids(body)| ==> StepIds(l)[j + 1] == Ids(body)[j];
      ErasedSource(body);
  }

  /** The literal meaning is kept in every world. */
  ghost predicate KeepsMeaning(w: Workflow, flow: Flow, via: Dispatcher) {
    forall world: World ::
      Walk(flow, via, flow.entry, [], world, |flow.order|) == Finished(Meaning(w, world, AsWritten))
  }

  /** A dispatcher keeps the literal meaning in every world if and only if its reading of every branch is
      the literal one. */
  lemma KeptExactly(w: Workflow, flow: Flow, via: Dispatcher)
    requires Compile(w) == Ok(flow)
    ensures KeepsMeaning(w, flow, via) <==> Agree(w.steps, ReadingOf(via), false)
  {
    hide Calls, Exec, Walk, Compile, NeverCalls;
    var how := ReadingOf(via);
    forall world: World { WalkIsMeaning(w, flow, via, world, |flow.order|); }
    if Agree(w.steps, how, false) {
      forall world: World { AgreeingRuns(w.steps, [], world, how, false); }
    } else {
      var tree, _, _ := CompiledTree(w, flow);
      ErasedSource(tree);
      var t, id, a, b := DepartureShows(w.steps, [], how, false);
      RunsDiffer(w, t, id, a, b);
      assert Walk(flow, via, flow.entry, [], Follow(t), |flow.order|) != Finished(Meaning(w, Follow(t), AsWritten));
    }
  }

  lemma RunsDiffer(w: Workflow, t: seq<Event>, id: string, a: Reading, b: Reading)
    requires t == Exec(w.steps, [], Follow(t), a, false) && Calls(t[0..], id)
    requires NeverCalls(w.steps, [], t, id, b, false)
    ensures Meaning(w, Follow(t), a) != Meaning(w, Follow(t), b)
  {
    hide Calls, Exec;
    var x, y := Exec(w.steps, [], Follow(t), a, false), Exec(w.steps, [], Follow(t), b, false);
    assert x[0..] == x && y[0..] == y && x != y;
    var mx, my := Meaning(w, Follow(t), a), Meaning(w, Follow(t), b);
    assert mx[..|x|] == x && my[..|y|] == y && |mx| == |x| + 1 && |my| == |y| + 1;
  }

  /** With labels kept apart, the literal meaning is kept exactly without default literals. */
  lemma PreservedExactly(w: Workflow, flow: Flow)
    requires Compile(w) == Ok(flow)
    ensures KeepsMeaning(w, flow, ByEdges) <==> NoDefaultCase(w.steps)
  {
    KeptExactly(w, flow, ByEdges);
    AgreeEveryCase(w.steps, false);
  }

  /** The runners of compiled flows do not look at a branch's value: they keep the literal meaning in every world
      if and only if the workflow has no branch. */
  lemma RunnersPreserveExactly(w: Workflow, flow: Flow, via: Dispatcher)
    requires Compile(w) == Ok(flow) && (via.ByRuntime? || via.ByIr?)
    ensures KeepsMeaning(w, flow, via) <==> Whens(w.steps) == 0
  {
    KeptExactly(w, flow, via);
    AgreeFixed(w.steps, ReadingOf(via), false);
  }

  /** Given the compiled edges, the engine keeps the literal meaning in every world if and only if every branch
      lists one and the same literal, and not the default label. */
  lemma EnginePreservesExactly(w: Workflow, flow: Flow)
    requires Compile(w) == Ok(flow)
    ensures KeepsMeaning(w, flow, ByEngine) <==> SoleCases(w.steps)
  {
    KeptExactly(w, flow, ByEngine);
    AgreeLastCase(w.steps, false);
  }
}
