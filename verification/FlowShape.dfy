/** The shape of compiled flows: dangling exits while compiling, and afterwards a
    single-entry, single-exit acyclic graph with complete switch tables. */
module FlowShape {
  import opened Collections
  import opened Wdl
  import opened Labels
  import opened Flows
  import opened FlowMeaning
  import opened FlowEngine
  import opened Graphs

  // ---------------------------------------------------------------- dangling exits

  /** The places of a block that need a successor: a call, and the default of a switch. */
  function Slots(ls: seq<LStep>): seq<Exit>
    decreases ls, 0
  {
    if ls == [] then [] else StepSlots(ls[0]) + Slots(ls[1..])
  }

  function StepSlots(l: LStep): seq<Exit>
    decreases l, 1
  {
    match l
    case LCall(id, _, _) => [Exit(id, None)]
    case LWhen(sid, _, body) => [Exit(sid, Some(DEFAULT_CASE))] + Slots(body)
  }

  lemma {:induction false} SlotsInside(ls: seq<LStep>)
    ensures forall x :: x in Slots(ls) ==> x.src in Ids(ls)
    ensures forall x :: x in Exits(ls) ==> x in Slots(ls)
    decreases ls, 0
  {
    if ls != [] {
      StepSlotsInside(ls[0]);
      SlotsInside(ls[1..]);
    }
  }

  lemma {:induction false} StepSlotsInside(l: LStep)
    ensures forall x :: x in StepSlots(l) ==> x.src in StepIds(l)
    ensures forall x :: x in StepExits(l) ==> x in StepSlots(l)
    decreases l, 1
  {
    match l
    case LCall(_, _, _) =>
    case LWhen(_, _, body) => SlotsInside(body);
  }

  lemma FindLink(exits: seq<Exit>, dst: string, x: Exit)
    ensures Find(Link(exits, dst), x.src, x.tag) == if x in exits then Some(dst) else None
  {
    LinkIs(exits, dst);
    FindIs(Link(exits, dst), x.src, x.tag);
    if x in exits { assert Edge(x.src, dst, x.tag) in Link(exits, dst); }
  }

  /** Defaults that have a successor from the start, because the default label is also a case literal. */
  function Preset(ls: seq<LStep>): seq<Exit>
    decreases ls, 0
  {
    if ls == [] then [] else StepPreset(ls[0]) + Preset(ls[1..])
  }

  function StepPreset(l: LStep): seq<Exit>
    decreases l, 1
  {
    match l
    case LCall(_, _, _) => []
    case LWhen(sid, c, body) =>
      (if DEFAULT_CASE in c.cases then [Exit(sid, Some(DEFAULT_CASE))] else []) + Preset(body)
  }

  lemma {:induction false} PresetInside(ls: seq<LStep>)
    ensures forall x :: x in Preset(ls) ==> x.src in Ids(ls)
    ensures NoDefaultCase(Erase(ls)) ==> Preset(ls) == []
    decreases ls, 0
  {
    if ls != [] {
      StepPresetInside(ls[0]);
      PresetInside(ls[1..]);
      assert Erase(ls)[0] == EraseStep(ls[0]) && Erase(ls)[1..] == Erase(ls[1..]);
    }
  }

  lemma {:induction false} StepPresetInside(l: LStep)
    ensures forall x :: x in StepPreset(l) ==> x.src in StepIds(l)
    ensures StepNoDefaultCase(EraseStep(l)) ==> StepPreset(l) == []
    decreases l, 1
  {
    match l
    case LCall(_, _, _) =>
    case LWhen(_, _, body) => PresetInside(body);
  }

  /** Once a block is compiled, what lacks a successor inside it is exactly its exits, but for the preset defaults. */
  lemma {:induction false} DanglingExits(ls: seq<LStep>, x: Exit)
    requires Full(ls) && NoDup(Ids(ls)) && x in Slots(ls)
    ensures Find(Edges(ls), x.src, x.tag) == None <==> x in Exits(ls) && x !in Preset(ls)
    decreases ls, 0
  {
    var l, rest := ls[0], ls[1..];
    NoDupParts(ls);
    StepSlotsInside(l);
    SlotsInside(rest);
    StepPresetInside(l);
    PresetInside(rest);
    if x in StepSlots(l) {
      StepDanglingExits(l, x);
      NotInTail(ls, x.src);
      if rest == [] {
        Singleton(l);
        assert ls == [l];
      } else {
        HeadFind(l, rest, x);
      }
    } else {
      if x.src in StepIds(l) { NotInTail(ls, x.src); }
      DanglingExits(rest, x);
      TailFind(l, rest, x);
    }
  }

  lemma TailFind(l: LStep, rest: seq<LStep>, x: Exit)
    requires StepFull(l) && Full(rest) && rest != [] && x.src !in StepIds(l)
    ensures Find(StepEdges(l) + EdgesAfter(StepExits(l), rest), x.src, x.tag) == Find(Edges(rest), x.src, x.tag)
  {
    StepEdgesInside(l);
    FindElsewhere(StepEdges(l), x.src, x.tag);
    AfterSameFrom(StepExits(l), rest, x.src);
    FindFrom(EdgesAfter(StepExits(l), rest), x.src, x.tag);
    FindFrom(Edges(rest), x.src, x.tag);
    FindAppend(StepEdges(l), EdgesAfter(StepExits(l), rest), x.src, x.tag);
  }

  /** In a longer block every slot of the first step gets a successor. */
  lemma HeadFind(l: LStep, rest: seq<LStep>, x: Exit)
    requires StepFull(l) && Full(rest) && rest != [] && x.src !in Ids(rest)
    requires Find(StepEdges(l), x.src, x.tag) == None ==> x in StepExits(l)
    ensures Find(StepEdges(l) + EdgesAfter(StepExits(l), rest), x.src, x.tag).Some?
    ensures x !in Exits(rest)
  {
    EdgesInside(rest);
    StepEdgesInside(rest[0]);
    var e0, link := StepEdges(rest[0]), Link(StepExits(l), EntryId(rest[0]));
    var tail := EdgesAfter(StepExits(rest[0]), rest[1..]);
    FindAppend(StepEdges(l), e0 + link + tail, x.src, x.tag);
    FindAppend(e0 + link, tail, x.src, x.tag);
    FindAppend(e0, link, x.src, x.tag);
    FindElsewhere(e0, x.src, x.tag);
    FindLink(StepExits(l), EntryId(rest[0]), x);
  }

  lemma {:induction false} StepDanglingExits(l: LStep, x: Exit)
    requires StepFull(l) && NoDup(StepIds(l)) && x in StepSlots(l)
    ensures Find(StepEdges(l), x.src, x.tag) == None <==> x in StepExits(l) && x !in StepPreset(l)
    decreases l, 1
  {
    match l
    case LCall(_, _, _) =>
    case LWhen(sid, c, body) =>
      BodyIds(l);
      EdgesInside(body);
      SlotsInside(body);
      PresetInside(body);
      var cases := CaseEdges(sid, c.cases, EntryId(body[0]));
      FindAppend(Edges(body), cases, x.src, x.tag);
      CaseEdgesAre(sid, c.cases, EntryId(body[0]));
      if x.src == sid {
        FindElsewhere(Edges(body), sid, x.tag);
        FindCase(sid, c.cases, EntryId(body[0]), x.tag);
      } else {
        DanglingExits(body, x);
        FindElsewhere(cases, x.src, x.tag);
      }
  }

  lemma BodyIds(l: LStep)
    requires l.LWhen? && NoDup(StepIds(l))
    ensures l.sid !in Ids(l.body) && NoDup(Ids(l.body))
  {
    assert StepIds(l)[0] == l.sid;
    assert forall j :: 0 <= j < |Ids(l.body)| ==> StepIds(l)[j + 1] == Ids(l.body)[j];
  }

  // ---------------------------------------------------------------- order of insertion

  /** Edges lead from earlier to later inserted steps. */
  lemma {:induction false} EdgesForward(ls: seq<LStep>)
    requires Full(ls)
    ensures forall e :: e in Edges(ls) ==> Before(Ids(ls), e.src, e.dst)
    decreases ls, 0
  {
    if ls != [] {
      hide Before;
      var l, rest := ls[0], ls[1..];
      StepEdgesForward(l);
      StepEdgesInside(l);
      AfterForward(StepExits(l), StepIds(l), rest);
      forall e | e in StepEdges(l) ensures Before(Ids(ls), e.src, e.dst) {
        BeforeLeft(StepIds(l), Ids(rest), e.src, e.dst);
      }
    }
  }

  lemma {:induction false} AfterForward(exits: seq<Exit>, before: seq<string>, ls: seq<LStep>)
    requires Full(ls) && forall x :: x in exits ==> x.src in before
    ensures forall e :: e in EdgesAfter(exits, ls) ==> Before(before + Ids(ls), e.src, e.dst)
    decreases ls, 0
  {
    if ls != [] {
      var l, rest := ls[0], ls[1..];
      StepEdgesForward(l);
      StepEdgesInside(l);
      StepEntryInside(ls);
      LinkIs(exits, EntryId(l));
      AfterForward(StepExits(l), before + StepIds(l), rest);
      SeqPlus(before, StepIds(l), Ids(rest));
      forall e | e in StepEdges(l) ensures Before(before + Ids(ls), e.src, e.dst) {
        BeforeLeft(StepIds(l), Ids(rest), e.src, e.dst);
        BeforeRight(before, Ids(ls), e.src, e.dst);
      }
      forall e | e in Link(exits, EntryId(l)) ensures Before(before + Ids(ls), e.src, e.dst) {
        BeforeAcross(before, Ids(ls), e.src, e.dst);
      }
    }
  }

  lemma {:induction false} StepEdgesForward(l: LStep)
    requires StepFull(l)
    ensures forall e :: e in StepEdges(l) ==> Before(StepIds(l), e.src, e.dst)
    decreases l, 1
  {
    match l
    case LCall(_, _, _) =>
    case LWhen(sid, c, body) =>
      EdgesForward(body);
      StepEntryInside(body);
      CaseEdgesAre(sid, c.cases, EntryId(body[0]));
      forall e | e in Edges(body) ensures Before(StepIds(l), e.src, e.dst) {
        BeforeRight([sid], Ids(body), e.src, e.dst);
      }
      forall e | e in CaseEdges(sid, c.cases, EntryId(body[0])) ensures Before(StepIds(l), e.src, e.dst) {
        BeforeAcross([sid], Ids(body), e.src, e.dst);
      }
  }

  // ---------------------------------------------------------------- reachability

  /** The edges without their tags. */
  ghost function Pairs(edges: seq<Edge>): Rel {
    set e | e in edges :: (e.src, e.dst)
  }

  /** From `a` some exit of the list is reachable. */
  ghost predicate Escapes(rel: Rel, a: string, exits: seq<Exit>) {
    exists x :: x in exits && Reach(rel, a, x.src)
  }

  ghost predicate Covers(rel: Rel, part: seq<Edge>) {
    forall e :: e in part ==> (e.src, e.dst) in rel
  }

  /** Inside a block every step is reachable from the entry and can reach an exit. */
  lemma {:induction false} BlockReach(rel: Rel, ls: seq<LStep>, id: string)
    requires Full(ls) && ls != [] && Covers(rel, Edges(ls)) && id in Ids(ls)
    ensures Reach(rel, EntryId(ls[0]), id)
    ensures Escapes(rel, id, Exits(ls))
    decreases ls, 0
  {
    var l, rest := ls[0], ls[1..];
    if rest == [] {
      Singleton(l);
      assert ls == [l];
      StepReach(rel, l, id);
    } else {
      StepEdgesInside(l);
      StepEntryInside(rest);
      AfterCovers(rel, StepExits(l), rest);
      var first := if id in StepIds(l) then id else EntryId(l);
      StepReach(rel, l, first);
      var x :| x in StepExits(l) && Reach(rel, first, x.src);
      LinkIs(StepExits(l), EntryId(rest[0]));
      assert Edge(x.src, EntryId(rest[0]), x.tag) in Link(StepExits(l), EntryId(rest[0]));
      ReachEdge(rel, x.src, EntryId(rest[0]));
      ReachTrans(rel, first, x.src, EntryId(rest[0]));
      if id in StepIds(l) {
        BlockReach(rel, rest, EntryId(rest[0]));
        var y :| y in Exits(rest) && Reach(rel, EntryId(rest[0]), y.src);
        ReachTrans(rel, id, EntryId(rest[0]), y.src);
        assert y in Exits(ls);
      } else {
        BlockReach(rel, rest, id);
        ReachTrans(rel, EntryId(l), EntryId(rest[0]), id);
      }
    }
  }

  lemma AfterCovers(rel: Rel, exits: seq<Exit>, ls: seq<LStep>)
    requires Full(ls) && ls != [] && Covers(rel, EdgesAfter(exits, ls))
    ensures Covers(rel, Edges(ls)) && Covers(rel, Link(exits, EntryId(ls[0])))
  {
    var link := Link(exits, EntryId(ls[0]));
    forall e | e in link || e in Edges(ls) ensures (e.src, e.dst) in rel { assert e in EdgesAfter(exits, ls); }
  }

  lemma {:induction false} StepReach(rel: Rel, l: LStep, id: string)
    requires StepFull(l) && Covers(rel, StepEdges(l)) && id in StepIds(l)
    ensures Reach(rel, EntryId(l), id)
    ensures Escapes(rel, id, StepExits(l))
    decreases l, 1
  {
    match l
    case LCall(_, _, _) =>
      ReachSelf(rel, id);
      assert Exit(id, None) in StepExits(l);
    case LWhen(sid, c, body) =>
      if id == sid {
        ReachSelf(rel, sid);
        assert Exit(sid, Some(DEFAULT_CASE)) in StepExits(l);
      } else {
        BlockReach(rel, body, id);
        CaseEdgesAre(sid, c.cases, EntryId(body[0]));
        var e := Edge(sid, EntryId(body[0]), Some(c.cases[0]));
        assert e in StepEdges(l);
        ReachEdge(rel, e.src, e.dst);
        ReachTrans(rel, sid, EntryId(body[0]), id);
        var x :| x in Exits(body) && Reach(rel, id, x.src);
        assert x in StepExits(l);
      }
  }

  // ---------------------------------------------------------------- the compiled flow

  /** Single entry, single exit, acyclic. */
  ghost predicate SingleEntryExitDag(flow: Flow) {
    var rel := Pairs(flow.edges);
    && NoDup(flow.order)
    && ToSet(flow.order) == flow.steps.Keys
    && |flow.order| > 0 && flow.entry == flow.order[0]
    && Forward(rel, flow.order)
    && Acyclic(rel)
    && (forall id :: id in flow.steps ==> Reach(rel, flow.entry, id))
    && exists finish :: finish in flow.steps && flow.steps[finish].Finish? && IsOnlySink(flow, finish)
  }

  /** Every step reaches `finish`, which has no successor; every other step has one. */
  ghost predicate IsOnlySink(flow: Flow, finish: string) {
    && (forall id :: id in flow.steps ==> Reach(Pairs(flow.edges), id, finish))
    && (forall id :: id in flow.steps ==> (id == finish <==> forall e :: e in flow.edges ==> e.src != id))
  }

  lemma CompiledReach(flow: Flow, tree: seq<LStep>, emit: string, finish: string, outputs: seq<Entry>, id: string)
    requires tree != [] && Full(tree) && flow == FlowOf(tree, emit, finish, outputs)
    requires id in flow.order
    ensures Reach(Pairs(flow.edges), flow.entry, id) && Reach(Pairs(flow.edges), id, finish)
  {
    var rel := Pairs(flow.edges);
    LinkIs(Exits(tree), emit);
    StepEntryInside(tree);
    assert Edge(emit, finish, None) in flow.edges;
    ReachEdge(rel, emit, finish);
    var from := if id in Ids(tree) then id else flow.entry;
    assert Covers(rel, Edges(tree));
    BlockReach(rel, tree, from);
    var x :| x in Exits(tree) && Reach(rel, from, x.src);
    assert Edge(x.src, emit, x.tag) in Link(Exits(tree), emit);
    assert Edge(x.src, emit, x.tag) in flow.edges;
    ReachStep(rel, from, x.src, emit);
    ReachTrans(rel, from, emit, finish);
    ReachSelf(rel, finish);
  }

  lemma CompiledForward(flow: Flow, tree: seq<LStep>, emit: string, finish: string, outputs: seq<Entry>)
    requires tree != [] && Full(tree) && flow == FlowOf(tree, emit, finish, outputs)
    ensures Forward(Pairs(flow.edges), flow.order)
  {
    hide Edges, Exits, Link, Ids, RenderEntries, Decls, Dress, Full;
    EdgesForward(tree);
    EdgesInside(tree);
    LinkIs(Exits(tree), emit);
    var ids, last := Ids(tree), [emit, finish];
    forall e | e in flow.edges ensures Before(flow.order, e.src, e.dst) {
      if e in Edges(tree) {
        BeforeLeft(ids, last, e.src, e.dst);
      } else if e in Link(Exits(tree), emit) {
        BeforeAcross(ids, last, e.src, e.dst);
      } else {
        assert last[0] == emit && last[1] == finish;
        assert Before(last, emit, finish);
        BeforeRight(ids, last, emit, finish);
      }
    }
  }

  /** Every compiled flow is a single-entry, single-exit acyclic graph. */
  lemma CompiledIsDag(w: Workflow, flow: Flow)
    requires Compile(w) == Ok(flow)
    ensures SingleEntryExitDag(flow)
  {
    var tree, emit, finish := CompiledTree(w, flow);
    EdgesInside(tree);
    CompiledForward(flow, tree, emit, finish, w.outputs);
    CompiledOrder(flow, tree, emit, finish, w.outputs);
    forall id | id in flow.steps
      ensures Reach(Pairs(flow.edges), flow.entry, id) && Reach(Pairs(flow.edges), id, finish)
    {
      CompiledReach(flow, tree, emit, finish, w.outputs, id);
    }
    CompiledSink(flow, tree, emit, finish, w.outputs);
    ForwardIsAcyclic(Pairs(flow.edges), flow.order);
  }

  lemma CompiledOrder(flow: Flow, tree: seq<LStep>, emit: string, finish: string, outputs: seq<Entry>)
    requires tree != [] && Full(tree) && NoDup(Ids(tree)) && flow == FlowOf(tree, emit, finish, outputs)
    requires emit !in Ids(tree) && finish !in Ids(tree) && emit != finish
    ensures NoDup(flow.order) && ToSet(flow.order) == flow.steps.Keys
    ensures flow.entry == flow.order[0] && flow.steps[finish].Finish?
    ensures finish in flow.order
  {
    EdgesInside(tree);
    NoDupAppend(Ids(tree), [emit, finish]);
    ToSetAppend(Ids(tree), [emit, finish]);
    assert flow.order[|Ids(tree)| + 1] == finish;
  }

  lemma CompiledSink(flow: Flow, tree: seq<LStep>, emit: string, finish: string, outputs: seq<Entry>)
    requires tree != [] && Full(tree) && NoDup(Ids(tree)) && flow == FlowOf(tree, emit, finish, outputs)
    requires emit !in Ids(tree) && finish !in Ids(tree) && emit != finish
    requires forall id :: id in flow.steps ==> Reach(Pairs(flow.edges), id, finish)
    ensures IsOnlySink(flow, finish)
  {
    hide Edges, Exits, Link, Ids, RenderEntries, Decls, Dress, Full;
    EdgesInside(tree);
    LinkIs(Exits(tree), emit);
    forall id | id in flow.steps ensures id == finish <==> forall e :: e in flow.edges ==> e.src != id {
      if id != finish {
        var p :| PathBetween(Pairs(flow.edges), p, id, finish);
        assert (p[0], p[1]) in Pairs(flow.edges);
      }
    }
  }

  /** Nothing dangles in a compiled flow: a call or the emit step has a successor, and a switch's
      table is the label-to-target relation of its edges, default label included. */
  lemma CompiledTables(w: Workflow, flow: Flow, id: string)
    requires Compile(w) == Ok(flow) && id in flow.steps
    ensures flow.steps[id].Switch? ==>
      flow.steps[id].cases == Table(flow.edges, id) && DEFAULT_CASE in flow.steps[id].cases
    ensures flow.steps[id].Task? || flow.steps[id].Emit? ==> Find(flow.edges, id, None).Some?
  {
    hide Compile, Edges, Exits, Link, Ids, RenderEntries, Full, Implements;
    var tree, emit, finish := CompiledTree(w, flow);
    CompiledImplements(flow, tree, emit, finish, w.outputs);
    EdgesInside(tree);
    FindFrom(flow.edges, emit, None);
    if id in Ids(tree) {
      SwitchHasDefault(flow, tree, emit, id);
      LabelledIfFound(flow.edges, id, DEFAULT_CASE);
    }
  }

  lemma LabelledIfFound(edges: seq<Edge>, src: string, c: string)
    ensures Find(edges, src, Some(c)).Some? ==> c in CaseLabels(edges, src)
  {
    FindIs(edges, src, Some(c));
  }

  lemma {:induction false} SwitchHasDefault(flow: Flow, ls: seq<LStep>, k: string, id: string)
    requires Implements(flow, ls, k) && id in Ids(ls)
    ensures id in flow.steps
    ensures flow.steps[id].Switch? ==> Find(flow.edges, id, Some(DEFAULT_CASE)).Some?
    ensures flow.steps[id].Switch? || (flow.steps[id].Task? && Find(flow.edges, id, None).Some?)
    decreases ls, 0
  {
    if id in StepIds(ls[0]) {
      StepHasDefault(flow, ls[0], if |ls| == 1 then k else EntryId(ls[1]), id);
    } else {
      SwitchHasDefault(flow, ls[1..], k, id);
    }
  }

  lemma {:induction false} StepHasDefault(flow: Flow, l: LStep, k: string, id: string)
    requires StepImplements(flow, l, k) && id in StepIds(l)
    ensures id in flow.steps
    ensures flow.steps[id].Switch? ==> Find(flow.edges, id, Some(DEFAULT_CASE)).Some?
    ensures flow.steps[id].Switch? || (flow.steps[id].Task? && Find(flow.edges, id, None).Some?)
    decreases l, 1
  {
    match l
    case LCall(_, _, _) => FindFrom(flow.edges, id, None);
    case LWhen(sid, c, body) =>
      if id != sid {
        SwitchHasDefault(flow, body, k, id);
      } else {
        FindFrom(flow.edges, sid, Some(DEFAULT_CASE));
        FindInSwitch(sid, c, EntryId(body[0]), k, Some(DEFAULT_CASE));
      }
  }

  // ---------------------------------------------------------------- where the IR runner starts

  ghost predicate Hit(flow: Flow, srcs: seq<string>, id: string) {
    exists src :: src in srcs && FirstTarget(flow.edges, src) == Some(id)
  }

  lemma HitMore(flow: Flow, srcs: seq<string>, more: seq<string>, id: string)
    requires Hit(flow, srcs, id) && forall x :: x in srcs ==> x in more
    ensures Hit(flow, more, id)
  {
  }

  /** First edges lead to every step of a block but its entry, and on to the continuation. */
  lemma {:induction false} BlockHits(flow: Flow, ls: seq<LStep>, k: string, id: string)
    requires ls != [] && Implements(flow, ls, k)
    requires id == k || (id in Ids(ls) && id != EntryId(ls[0]))
    ensures Hit(flow, Ids(ls), id)
    decreases ls, 0
  {
    hide Hit;
    if |ls| == 1 {
      Singleton(ls[0]);
      assert ls == [ls[0]];
      StepHits(flow, ls[0], k, id);
      HitMore(flow, StepIds(ls[0]), Ids(ls), id);
    } else if id == EntryId(ls[1]) || (id in StepIds(ls[0]) && id != EntryId(ls[0])) {
      StepHits(flow, ls[0], EntryId(ls[1]), id);
      HitMore(flow, StepIds(ls[0]), Ids(ls), id);
    } else {
      BlockHits(flow, ls[1..], k, id);
      HitMore(flow, Ids(ls[1..]), Ids(ls), id);
    }
  }

  lemma {:induction false} StepHits(flow: Flow, l: LStep, k: string, id: string)
    requires StepImplements(flow, l, k)
    requires id == k || (id in StepIds(l) && id != EntryId(l))
    ensures Hit(flow, StepIds(l), id)
    decreases l, 1
  {
    match l
    case LCall(i, _, _) => assert FirstTarget(flow.edges, i) == Some(k);
    case LWhen(sid, c, body) =>
      SwitchTargets(sid, c, EntryId(body[0]), k);
      assert StepIds(l)[0] == sid;
      if id == EntryId(body[0]) {
        assert FirstTarget(flow.edges, sid) == Some(id);
      } else {
        BlockHits(flow, body, k, id);
        HitMore(flow, Ids(body), StepIds(l), id);
      }
  }

  /** The one step that no first edge leads to is the flow's entry, so the IR runner starts there. */
  lemma IrStartsAtEntry(w: Workflow, flow: Flow, id: string)
    requires Compile(w) == Ok(flow) && id in flow.steps
    ensures id == flow.entry <==> forall src :: FirstTarget(flow.edges, src) != Some(id)
  {
    hide Compile, Implements, Hit, Edges, Exits, Link, RenderEntries, Full, Generated;
    var tree, emit, finish := CompiledTree(w, flow);
    CompiledImplements(flow, tree, emit, finish, w.outputs);
    CompiledIsDag(w, flow);
    assert flow.order == Ids(tree) + [emit, finish];
    if id == flow.entry {
      forall src ensures FirstTarget(flow.edges, src) != Some(id) { NothingBefore(flow, src); }
    } else if id == finish {
      assert FirstTarget(flow.edges, emit) == Some(finish);
    } else {
      InOrder(flow, tree, emit, finish, id);
      BlockHits(flow, tree, emit, id);
      HitIs(flow, Ids(tree), id);
    }
  }

  lemma HitIs(flow: Flow, srcs: seq<string>, id: string)
    requires Hit(flow, srcs, id)
    ensures exists src :: FirstTarget(flow.edges, src) == Some(id)
  {
  }

  lemma InOrder(flow: Flow, tree: seq<LStep>, emit: string, finish: string, id: string)
    requires flow.order == Ids(tree) + [emit, finish] && ToSet(flow.order) == flow.steps.Keys && id in flow.steps
    ensures id in Ids(tree) || id == emit || id == finish
  {
    assert id in ToSet(flow.order);
  }

  /** No edge leads back to the first step. */
  lemma NothingBefore(flow: Flow, src: string)
    requires SingleEntryExitDag(flow)
    ensures FirstTarget(flow.edges, src) != Some(flow.entry)
  {
    var out := From(flow.edges, src);
    FromSubset(flow.edges, src);
    if out != [] {
      assert out[0] in flow.edges;
      assert (out[0].src, out[0].dst) in Pairs(flow.edges);
    }
  }

  lemma {:induction false} FromSubset(edges: seq<Edge>, src: string)
    ensures forall e :: e in From(edges, src) ==> e in edges
  {
    if edges != [] { FromSubset(edges[1..], src); }
  }
}
