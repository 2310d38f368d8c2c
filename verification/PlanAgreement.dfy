/** The plan of tm/dsl/plan.py and the flow of tm/dsl/compiler_flow.py are the same graph, exactly
    when no call step is named like a branch and no case literal is the default label. */
module PlanAgreement {
  import opened Collections
  import opened Wdl
  import opened Names
  import opened Labels
  import opened Flows
  import opened FlowMeaning
  import opened WorkflowPlan

  // ---------------------------------------------------------------- the planner's names

  /** The source with branches named `when_n`, `when_n+1`, ... in source order. */
  function Numbered(steps: seq<Step>, n: nat): seq<LStep>
    decreases steps, 0
  {
    if steps == [] then [] else [NumberedStep(steps[0], n)] + Numbered(steps[1..], n + StepWhens(steps[0]))
  }

  function NumberedStep(step: Step, n: nat): LStep
    decreases step, 1
  {
    match step
    case Call(id, target, args) => LCall(id, target, args)
    case When(c, body) => LWhen(Name("when", n), c, Numbered(body, n + 1))
  }

  /** No id in `taken` is one of the `count` branch names from `n` on. */
  ghost predicate Clear(taken: set<string>, n: nat, count: nat) {
    forall i :: n <= i < n + count ==> Name("when", i) !in taken
  }

  /** Only the calls and the names of the range were added. */
  ghost predicate Within<T(!new)>(after: set<T>, used: set<T>, calls: set<T>, range: set<T>) {
    after <= used + calls + range
  }

  /** Without collisions the compiler allocates the planner's names. */
  lemma {:induction false} SameNames(steps: seq<Step>, used: set<string>, n: nat)
    requires Label(steps, used, n).Ok?
    requires Clear(used + ToSet(CallIds(steps)), n, Whens(steps))
    ensures Label(steps, used, n).value.tree == Numbered(steps, n)
    ensures Label(steps, used, n).value.next == n + Whens(steps)
    ensures Within(Label(steps, used, n).value.used, used, ToSet(CallIds(steps)), NameRange(n, Whens(steps)))
    decreases steps, 0
  {
    hide Name, Clear, NameRange, FreshCounter, ToSet, Within, Label, LabelStep, Numbered, NumberedStep;
    hide StepCallIds, StepWhens, CallIds, Whens;
    if steps == [] {
      NoNames(used, n);
    } else {
      LabelParts(steps, used, n);
      var step, rest := steps[0], steps[1..];
      var calls1, calls2 := ToSet(StepCallIds(step)), ToSet(CallIds(rest));
      ToSetAppend(StepCallIds(step), CallIds(rest));
      ClearFirst(used, calls1, calls2, n, StepWhens(step), Whens(rest));
      StepSameNames(step, used, n);
      var first := LabelStep(step, used, n).value;
      ClearRest(used, calls1, calls2, first.used, n, StepWhens(step), Whens(rest));
      SameNames(rest, first.used, first.next);
      var last := Label(rest, first.used, first.next).value;
      RangeSplit(n, StepWhens(step), Whens(rest));
      var r1, r2 := NameRange(n, StepWhens(step)), NameRange(first.next, Whens(rest));
      UsedBound(used, calls1, calls2, first.used, last.used, r1, r2);
    }
  }

  lemma NoNames(used: set<string>, n: nat)
    ensures Label([], used, n) == Ok(Labelled([], used, n)) && Numbered([], n) == [] && Whens([]) == 0
    ensures Within(used, used, ToSet(CallIds([])), NameRange(n, 0))
  {
  }

  /** One step of naming a block, by the compiler and by the planner. */
  lemma LabelParts(steps: seq<Step>, used: set<string>, n: nat)
    requires steps != [] && Label(steps, used, n).Ok?
    ensures LabelStep(steps[0], used, n).Ok?
    ensures var first := LabelStep(steps[0], used, n).value;
      && Label(steps[1..], first.used, first.next).Ok?
      && var rest := Label(steps[1..], first.used, first.next).value;
         Label(steps, used, n).value == Labelled(first.tree + rest.tree, rest.used, rest.next)
    ensures Numbered(steps, n) == [NumberedStep(steps[0], n)] + Numbered(steps[1..], n + StepWhens(steps[0]))
    ensures Whens(steps) == StepWhens(steps[0]) + Whens(steps[1..])
    ensures CallIds(steps) == StepCallIds(steps[0]) + CallIds(steps[1..])
  {
    hide LabelStep, NumberedStep, StepWhens, StepCallIds;
  }

  lemma UsedBound<T(!new)>(
    used: set<T>, calls1: set<T>, calls2: set<T>, after: set<T>, last: set<T>, r1: set<T>, r2: set<T>)
    requires Within(after, used, calls1, r1) && Within(last, after, calls2, r2)
    ensures Within(last, used, calls1 + calls2, r1 + r2)
  {
  }

  lemma ClearFirst(used: set<string>, calls1: set<string>, calls2: set<string>, n: nat, c1: nat, c2: nat)
    requires Clear(used + (calls1 + calls2), n, c1 + c2)
    ensures Clear(used + calls1, n, c1)
  {
  }

  lemma ClearRest(
    used: set<string>, calls1: set<string>, calls2: set<string>, after: set<string>, n: nat, c1: nat, c2: nat)
    requires Clear(used + (calls1 + calls2), n, c1 + c2) && Within(after, used, calls1, NameRange(n, c1))
    ensures Clear(after + calls2, n + c1, c2)
  {
    hide Name;
    forall i | n + c1 <= i < n + c1 + c2 ensures Name("when", i) !in after + calls2 {
      if Name("when", i) in NameRange(n, c1) { NotInRange(n, c1, i); }
    }
  }

  ghost function NameRange(n: nat, count: nat): set<string> {
    set i | n <= i < n + count :: Name("when", i)
  }

  lemma NotInRange(n: nat, count: nat, i: nat)
    requires Name("when", i) in NameRange(n, count)
    ensures n <= i < n + count
  {
    var j :| n <= j < n + count && Name("when", j) == Name("when", i);
    NameInjective("when", i, j);
  }

  lemma RangeSplit(n: nat, a: nat, b: nat)
    ensures NameRange(n, a) + NameRange(n + a, b) == NameRange(n, a + b)
  {
  }

  lemma {:induction false} StepSameNames(step: Step, used: set<string>, n: nat)
    requires LabelStep(step, used, n).Ok?
    requires Clear(used + ToSet(StepCallIds(step)), n, StepWhens(step))
    ensures LabelStep(step, used, n).value.tree == [NumberedStep(step, n)]
    ensures LabelStep(step, used, n).value.next == n + StepWhens(step)
    ensures Within(LabelStep(step, used, n).value.used, used, ToSet(StepCallIds(step)), NameRange(n, StepWhens(step)))
    decreases step, 1
  {
    match step
    case Call(_, _, _) =>
    case When(c, body) =>
      hide Name;
      var sid := Name("when", n);
      FreshCounterIsUnique("when", used, n, n);
      assert Clear(used + {sid} + ToSet(CallIds(body)), n + 1, Whens(body)) by {
        forall i | n + 1 <= i < n + 1 + Whens(body)
          ensures Name("when", i) !in used + {sid} + ToSet(CallIds(body))
        {
          if Name("when", i) == sid { NameInjective("when", i, n); }
        }
      }
      SameNames(body, used + {sid}, n + 1);
      RangeSplit(n, 1, Whens(body));
      assert sid in NameRange(n, 1);
  }

  // ---------------------------------------------------------------- the plan graph of a labelled tree

  datatype PExit = PExit(src: string, text: Option<string>)

  function PExits(ls: seq<LStep>): set<PExit>
    decreases ls, 0
  {
    if ls == [] then {} else if |ls| == 1 then StepPExits(ls[0]) else PExits(ls[1..])
  }

  function StepPExits(l: LStep): set<PExit>
    decreases l, 1
  {
    match l
    case LCall(id, _, _) => {PExit(id, None)}
    case LWhen(sid, c, body) => PExits(body) + {PExit(sid, Some(ElseText(c.text)))}
  }

  function PLink(exits: set<PExit>, dst: string): set<PlanEdge> {
    set x | x in exits :: PlanEdge(x.src, dst, x.text)
  }

  function PEdges(ls: seq<LStep>): set<PlanEdge>
    requires Full(ls)
    decreases ls, 0
  {
    if ls == [] then {} else StepPEdges(ls[0]) + PEdgesAfter(StepPExits(ls[0]), ls[1..])
  }

  function PEdgesAfter(exits: set<PExit>, ls: seq<LStep>): set<PlanEdge>
    requires Full(ls)
    decreases ls, 1
  {
    if ls == [] then {} else PLink(exits, EntryId(ls[0])) + PEdges(ls)
  }

  function StepPEdges(l: LStep): set<PlanEdge>
    requires StepFull(l)
    decreases l, 1
  {
    match l
    case LCall(_, _, _) => {}
    case LWhen(sid, c, body) => PEdges(body) + {PlanEdge(sid, EntryId(body[0]), Some(IfText(c.text)))}
  }

  function PNodes(ls: seq<LStep>): map<string, PlanNode>
    decreases ls, 0
  {
    if ls == [] then map[] else StepPNodes(ls[0]) + PNodes(ls[1..])
  }

  function StepPNodes(l: LStep): map<string, PlanNode>
    decreases l, 1
  {
    match l
    case LCall(id, target, _) => map[id := CallNode(target)]
    case LWhen(sid, c, body) => map[sid := ConditionNode(c.text)] + PNodes(body)
  }

  // ---------------------------------------------------------------- the planner builds that graph

  /** The sources with the labels that their next edges take. */
  ghost function Texts(p: Plan, sources: seq<string>): set<PExit> {
    set s | s in sources :: PExit(s, NextText(p, s))
  }

  /** What the planner keeps: labels wait at known nodes, edges end at known nodes, no edge twice. */
  ghost predicate Tidy(p: Plan) {
    && p.truePending.Keys <= p.nodes.Keys
    && p.falsePending.Keys <= p.nodes.Keys
    && (forall e :: e in p.edges ==> e.dst in p.nodes)
    && NoDup(p.edges)
  }

  /** Each of the sources has used up one label; nothing else changed. */
  ghost predicate Consumed(p: Plan, q: Plan, sources: seq<string>, src: string) {
    if src in sources then
      && src !in q.truePending
      && Lookup(q.falsePending, src) == (if src in p.truePending then Lookup(p.falsePending, src) else None)
    else
      && Lookup(q.truePending, src) == Lookup(p.truePending, src)
      && Lookup(q.falsePending, src) == Lookup(p.falsePending, src)
  }

  lemma {:induction false} ConnectAllIs(p: Plan, sources: seq<string>, dst: string)
    requires NoDup(sources) && NoDup(p.edges)
    requires forall e :: e in p.edges ==> e.dst != dst || e.src !in sources
    ensures var q := ConnectAll(p, sources, dst);
            && q.nodes == p.nodes && q.counter == p.counter && q.entry == p.entry
            && ToSet(q.edges) == ToSet(p.edges) + PLink(Texts(p, sources), dst)
            && NoDup(q.edges)
            && q.truePending.Keys <= p.truePending.Keys && q.falsePending.Keys <= p.falsePending.Keys
    ensures forall src :: Consumed(p, ConnectAll(p, sources, dst), sources, src)
    decreases sources
  {
    if sources != [] {
      var s, rest := sources[0], sources[1..];
      var e := PlanEdge(s, dst, NextText(p, s));
      var p1 := ConnectOne(p, s, dst);
      assert s !in rest;
      NoDupAppend(p.edges, [e]);
      ToSetAppend(p.edges, [e]);
      ConnectAllIs(p1, rest, dst);
      var q := ConnectAll(p1, rest, dst);
      assert PLink(Texts(p, sources), dst) == {e} + PLink(Texts(p1, rest), dst) by {
        forall x | x in rest ensures NextText(p1, x) == NextText(p, x) {}
        LinkTexts(p, sources, dst);
        LinkTexts(p1, rest, dst);
      }
      forall src ensures Consumed(p, q, sources, src) {
        assert Consumed(p1, q, rest, src);
      }
    }
  }

  lemma LinkTexts(p: Plan, sources: seq<string>, dst: string)
    ensures PLink(Texts(p, sources), dst) == set s | s in sources :: PlanEdge(s, dst, NextText(p, s))
  {
    var direct := set s | s in sources :: PlanEdge(s, dst, NextText(p, s));
    forall s | s in sources ensures PlanEdge(s, dst, NextText(p, s)) in PLink(Texts(p, sources), dst) {
      assert PExit(s, NextText(p, s)) in Texts(p, sources);
    }
  }

  /** What planning a fragment must achieve: `ids`, `nodes`, `edges`, `exits` and `first` describe it. */
  ghost predicate Planned(p: Plan, prev: seq<string>, q: Plan, xs: seq<string>,
                          ids: seq<string>, nodes: map<string, PlanNode>, edges: set<PlanEdge>,
                          exits: set<PExit>, first: string) {
    && Tidy(q)
    && q.nodes == p.nodes + nodes
    && ToSet(q.edges) == ToSet(p.edges) + PLink(Texts(p, prev), first) + edges
    && NoDup(xs) && (forall x :: x in xs ==> x in ids)
    && Texts(q, xs) == exits
    && q.entry == (if p.entry.None? && prev == [] then Some(first) else p.entry)
    && forall src :: src !in ids ==> Consumed(p, q, prev, src)
  }

  /** Where planning may start: the previous exits are known, the new ids are not. */
  ghost predicate Ready(p: Plan, prev: seq<string>, ids: seq<string>) {
    && Tidy(p) && NoDup(prev) && NoDup(ids)
    && (forall x :: x in prev ==> x in p.nodes)
    && (forall id :: id in ids ==> id !in p.nodes)
    && (p.entry.None? ==> prev == [])
  }

  lemma CallPlanned(p: Plan, id: string, target: string, prev: seq<string>)
    requires Ready(p, prev, [id])
    ensures Planned(p, prev, PlanCall(p, id, target, prev), [id], [id], map[id := CallNode(target)], {},
                    {PExit(id, None)}, id)
  {
    var p1 := p.(nodes := p.nodes[id := CallNode(target)]);
    assert id in [id];
    MapPut(p.nodes, id, CallNode(target));
    var q := PlanCall(p, id, target, prev);
    LinkTexts(p1, prev, id);
    LinkTexts(p, prev, id);
    if prev == [] {
      assert ToSet(q.edges) == ToSet(p.edges) + {} + {};
      assert PLink(Texts(p, prev), id) == {};
    } else {
      ConnectAllIs(p1, prev, id);
    }
    assert Texts(q, [id]) == {PExit(id, None)} by {
      assert Consumed(p1, q, prev, id);
      assert NextText(q, id) == None;
    }
    forall src | src != id ensures Consumed(p, q, prev, src) { assert Consumed(p1, q, prev, src); }
    forall e | e in q.edges ensures e.dst in q.nodes { assert e in ToSet(q.edges); }
  }

  /** A branch is opened: its node is there, and both of its labels wait. */
  lemma WhenOpened(p: Plan, c: Condition, prev: seq<string>)
    requires Ready(p, prev, [Name("when", p.counter)])
    ensures var id, q := Name("when", p.counter), OpenWhen(p, c, prev);
            && Tidy(q) && q.nodes == p.nodes[id := ConditionNode(c.text)] && q.counter == p.counter + 1
            && ToSet(q.edges) == ToSet(p.edges) + PLink(Texts(p, prev), id)
            && Lookup(q.truePending, id) == Some(IfText(c.text)) && Lookup(q.falsePending, id) == Some(ElseText(c.text))
            && q.entry == (if p.entry.None? && prev == [] then Some(id) else p.entry)
            && forall src :: src != id ==> Consumed(p, q, prev, src)
  {
    var id := Name("when", p.counter);
    var p1 := p.(counter := p.counter + 1, nodes := p.nodes[id := ConditionNode(c.text)]);
    var q := OpenWhen(p, c, prev);
    assert id in [id];
    LinkTexts(p1, prev, id);
    LinkTexts(p, prev, id);
    if prev == [] {
      assert PLink(Texts(p, prev), id) == {};
    } else {
      ConnectAllIs(p1, prev, id);
    }
    var p2 := Connect(p1, prev, id);
    forall src | src != id ensures Consumed(p, q, prev, src) { assert Consumed(p1, p2, prev, src); }
    forall e | e in q.edges ensures e.dst in q.nodes { assert e in ToSet(q.edges); }
  }

  lemma NumberedEntry(steps: seq<Step>, n: nat)
    requires steps != []
    ensures Numbered(steps, n) != [] && Numbered(steps, n)[0] == NumberedStep(steps[0], n)
    ensures Numbered(steps, n)[1..] == Numbered(steps[1..], n + StepWhens(steps[0]))
  {
  }

  /** Planning a block adds exactly the block's graph and leaves exactly its exits. */
  lemma {:induction false} BlockPlanned(p: Plan, steps: seq<Step>, prev: seq<string>)
    requires steps != [] && Full(Numbered(steps, p.counter)) && Ready(p, prev, Ids(Numbered(steps, p.counter)))
    ensures var (q, xs) := PlanBlock(p, steps, prev);
            var tree := Numbered(steps, p.counter);
            && q.counter == p.counter + Whens(steps)
            && Planned(p, prev, q, xs, Ids(tree), PNodes(tree), PEdges(tree), PExits(tree), EntryId(tree[0]))
    decreases steps, 0
  {
    hide Planned, Tidy, Texts, PLink, NoDup, NextText;
    hide StepPNodes, StepPEdges, StepPExits, StepIds, PNodes, PEdges, PExits;
    var step, rest := steps[0], steps[1..];
    var tree := Numbered(steps, p.counter);
    var l := NumberedStep(step, p.counter);
    NumberedEntry(steps, p.counter);
    ReadyParts(p, prev, tree);
    StepPlanned(p, step, prev);
    var (p1, xs1) := PlanStep(p, step, prev);
    if rest == [] {
      assert tree == [l];
      SingletonPlan(l);
    } else {
      NumberedEntry(rest, p1.counter);
      assert tree[1..] == Numbered(rest, p1.counter);
      ReadyNext(p, prev, p1, xs1, tree);
      BlockPlanned(p1, rest, xs1);
      var (q, xs) := PlanBlock(p1, rest, xs1);
      PlannedTwice(p, prev, p1, xs1, q, xs, tree);
    }
  }

  lemma SingletonPlan(l: LStep)
    requires StepFull(l) && Full([l])
    ensures Ids([l]) == StepIds(l) && PNodes([l]) == StepPNodes(l)
    ensures PEdges([l]) == StepPEdges(l) && PExits([l]) == StepPExits(l)
  {
    Singleton(l);
    assert [l][1..] == [];
    MapEmpty(StepPNodes(l));
    assert StepPEdges(l) + {} == StepPEdges(l);
  }

  lemma ReadyParts(p: Plan, prev: seq<string>, tree: seq<LStep>)
    requires tree != [] && Ready(p, prev, Ids(tree))
    ensures Ready(p, prev, StepIds(tree[0])) && NoDup(Ids(tree[1..]))
    ensures forall id :: id in Ids(tree[1..]) ==> id !in p.nodes
  {
    NoDupParts(tree);
    forall id | id in StepIds(tree[0]) ensures id !in p.nodes { assert id in Ids(tree); }
    forall id | id in Ids(tree[1..]) ensures id !in p.nodes { assert id in Ids(tree); }
  }

  lemma {:induction false} PNodesKeys(ls: seq<LStep>)
    ensures PNodes(ls).Keys == ToSet(Ids(ls))
    decreases ls, 0
  {
    if ls != [] {
      StepPNodesKeys(ls[0]);
      PNodesKeys(ls[1..]);
      ToSetAppend(StepIds(ls[0]), Ids(ls[1..]));
    }
  }

  lemma {:induction false} StepPNodesKeys(l: LStep)
    ensures StepPNodes(l).Keys == ToSet(StepIds(l))
    decreases l, 1
  {
    match l
    case LCall(_, _, _) =>
    case LWhen(sid, _, body) =>
      PNodesKeys(body);
      ToSetAppend([sid], Ids(body));
  }

  /** After the first step the rest of the block may be planned. */
  lemma ReadyNext(p: Plan, prev: seq<string>, p1: Plan, xs1: seq<string>, tree: seq<LStep>)
    requires Full(tree) && tree != [] && NoDup(Ids(tree)) && NoDup(Ids(tree[1..]))
    requires forall id :: id in Ids(tree[1..]) ==> id !in p.nodes
    requires p.entry.None? ==> prev == []
    requires var l := tree[0];
      Planned(p, prev, p1, xs1, StepIds(l), StepPNodes(l), StepPEdges(l), StepPExits(l), EntryId(l))
    ensures Ready(p1, xs1, Ids(tree[1..]))
  {
    StepPNodesKeys(tree[0]);
    forall x | x in xs1 ensures x in p1.nodes { assert x in ToSet(StepIds(tree[0])); }
    forall id | id in Ids(tree[1..]) ensures id !in p1.nodes {
      if id in StepPNodes(tree[0]) {
        assert id in ToSet(StepIds(tree[0]));
        NotInTail(tree, id);
      }
    }
  }

  lemma SetPlus<T>(a: set<T>, b: set<T>, c: set<T>, d: set<T>)
    ensures ((a + b) + c) + d == a + (b + (c + d))
  {
  }

  /** A step and then the rest of the block. */
  lemma PlannedTwice(p: Plan, prev: seq<string>, p1: Plan, xs1: seq<string>, q: Plan, xs: seq<string>, tree: seq<LStep>)
    requires |tree| > 1 && Full(tree) && NoDup(Ids(tree))
    requires forall x :: x in prev ==> x !in Ids(tree)
    requires p.entry.None? ==> prev == []
    requires var l := tree[0];
      Planned(p, prev, p1, xs1, StepIds(l), StepPNodes(l), StepPEdges(l), StepPExits(l), EntryId(l))
    requires var rest := tree[1..];
      Planned(p1, xs1, q, xs, Ids(rest), PNodes(rest), PEdges(rest), PExits(rest), EntryId(rest[0]))
    ensures Planned(p, prev, q, xs, Ids(tree), PNodes(tree), PEdges(tree), PExits(tree), EntryId(tree[0]))
  {
    hide Tidy, Texts, PLink, NoDup, NextText, StepPNodes, StepPEdges, StepPExits, StepFull, StepIds;
    var l, rest := tree[0], tree[1..];
    MapPlus(p.nodes, StepPNodes(l), PNodes(rest));
    SetPlus(ToSet(p.edges) + PLink(Texts(p, prev), EntryId(l)), StepPEdges(l),
            PLink(StepPExits(l), EntryId(rest[0])), PEdges(rest));
    forall src | src !in Ids(tree) ensures Consumed(p, q, prev, src) {
      assert src !in StepIds(l) && src !in Ids(rest);
      assert Consumed(p, p1, prev, src) && Consumed(p1, q, xs1, src);
    }
  }

  lemma {:induction false} StepPlanned(p: Plan, step: Step, prev: seq<string>)
    requires StepFull(NumberedStep(step, p.counter)) && Ready(p, prev, StepIds(NumberedStep(step, p.counter)))
    ensures var (q, xs) := PlanStep(p, step, prev);
            var l := NumberedStep(step, p.counter);
            && q.counter == p.counter + StepWhens(step)
            && Planned(p, prev, q, xs, StepIds(l), StepPNodes(l), StepPEdges(l), StepPExits(l), EntryId(l))
    decreases step, 1
  {
    match step
    case Call(id, target, _) =>
      CallPlanned(p, id, target, prev);
      if prev != [] { ConnectAllIs(p.(nodes := p.nodes[id := CallNode(target)]), prev, id); }
    case When(c, body) =>
      var id := Name("when", p.counter);
      var tree := Numbered(body, p.counter + 1);
      var l := NumberedStep(step, p.counter);
      assert StepIds(l)[0] == id && forall j :: 0 <= j < |Ids(tree)| ==> StepIds(l)[j + 1] == Ids(tree)[j];
      assert id in StepIds(l);
      WhenOpened(p, c, prev);
      var p1 := OpenWhen(p, c, prev);
      assert Ready(p1, [id], Ids(tree));
      BlockPlanned(p1, body, [id]);
      var (p2, xs) := PlanBlock(p1, body, [id]);
      NumberedEntry(body, p.counter + 1);
      BranchPlanned(p, prev, c, p1, p2, xs, id, tree);
  }

  /** Opening a branch, planning its body and dropping the leftover label. */
  lemma BranchPlanned(
    p: Plan, prev: seq<string>, c: Condition, p1: Plan, p2: Plan, xs: seq<string>, id: StepId, tree: seq<LStep>)
    requires tree != [] && Full(tree) && id !in Ids(tree)
    requires p1.nodes == p.nodes[id := ConditionNode(c.text)]
    requires ToSet(p1.edges) == ToSet(p.edges) + PLink(Texts(p, prev), id)
    requires Lookup(p1.truePending, id) == Some(IfText(c.text)) && Lookup(p1.falsePending, id) == Some(ElseText(c.text))
    requires p1.entry == (if p.entry.None? && prev == [] then Some(id) else p.entry)
    requires p1.entry.Some?
    requires forall src :: src != id ==> Consumed(p, p1, prev, src)
    requires Planned(p1, [id], p2, xs, Ids(tree), PNodes(tree), PEdges(tree), PExits(tree), EntryId(tree[0]))
    ensures var l := LWhen(id, c, tree);
            var q := p2.(truePending := p2.truePending - {id});
      Planned(p, prev, q, [id] + xs, StepIds(l), StepPNodes(l), StepPEdges(l), StepPExits(l), EntryId(l))
  {
    hide Texts, PLink, NextText, NoDup, Tidy, PNodes, PEdges, PExits, Full, Ids;
    var l := LWhen(id, c, tree);
    var q := p2.(truePending := p2.truePending - {id});
    assert Consumed(p1, p2, [id], id);
    assert q == p2 by { assert p2.truePending - {id} == p2.truePending; }
    BranchGraph(p, p1, id, c, tree);
    var fork := {PlanEdge(id, EntryId(tree[0]), Some(IfText(c.text)))};
    assert (ToSet(p1.edges) + fork) + PEdges(tree) == ToSet(p1.edges) + (PEdges(tree) + fork);
    NoDupCons(id, xs);
    BranchExits(p2, id, xs, c.text);
    forall src | src !in StepIds(l) ensures Consumed(p, q, prev, src) {
      assert StepIds(l)[0] == id;
      assert src != id && src !in Ids(tree);
      assert Consumed(p, p1, prev, src) && Consumed(p1, p2, [id], src);
    }
  }

  lemma BranchGraph(p: Plan, p1: Plan, id: StepId, c: Condition, tree: seq<LStep>)
    requires p1.nodes == p.nodes[id := ConditionNode(c.text)]
    requires Lookup(p1.truePending, id) == Some(IfText(c.text)) && tree != []
    ensures p1.nodes + PNodes(tree) == p.nodes + StepPNodes(LWhen(id, c, tree))
    ensures PLink(Texts(p1, [id]), EntryId(tree[0])) == {PlanEdge(id, EntryId(tree[0]), Some(IfText(c.text)))}
  {
    MapPut(p.nodes, id, ConditionNode(c.text));
    MapPlus(p.nodes, map[id := ConditionNode(c.text)], PNodes(tree));
    LinkTexts(p1, [id], EntryId(tree[0]));
    assert id in [id] && NextText(p1, id) == Some(IfText(c.text));
    assert forall s :: s in [id] ==> s == id;
  }

  lemma BranchExits(p: Plan, id: string, xs: seq<string>, text: string)
    requires id !in p.truePending && Lookup(p.falsePending, id) == Some(ElseText(text))
    ensures Texts(p, [id] + xs) == Texts(p, xs) + {PExit(id, Some(ElseText(text)))}
  {
    TextsCons(p, id, xs);
  }

  lemma NoDupCons<T>(x: T, s: seq<T>)
    requires NoDup(s) && x !in s
    ensures NoDup([x] + s)
  {
  }

  lemma TextsCons(p: Plan, id: string, xs: seq<string>)
    ensures Texts(p, [id] + xs) == Texts(p, xs) + {PExit(id, NextText(p, id))}
  {
  }

  // ---------------------------------------------------------------- the compiled edges project onto it

  /** The plan label of a flow edge tag. */
  function TagText(nodes: map<string, PlanNode>, src: string, tag: Option<string>): Option<string> {
    if tag.None? || src !in nodes || !nodes[src].ConditionNode? then None
    else if tag.value == DEFAULT_CASE then Some("else not(" + nodes[src].text + ")")
    else Some("if " + nodes[src].text)
  }

  /** Parallel case edges become one edge. */
  ghost function Projected(edges: seq<Edge>, nodes: map<string, PlanNode>): set<PlanEdge> {
    set e | e in edges :: PlanEdge(e.src, e.dst, TagText(nodes, e.src, e.tag))
  }

  ghost function ProjectedExits(exits: seq<Exit>, nodes: map<string, PlanNode>): set<PExit> {
    set x | x in exits :: PExit(x.src, TagText(nodes, x.src, x.tag))
  }

  lemma ProjectedAppend(a: seq<Edge>, b: seq<Edge>, nodes: map<string, PlanNode>)
    ensures Projected(a + b, nodes) == Projected(a, nodes) + Projected(b, nodes)
  {
  }

  lemma ProjectedExitsAppend(a: seq<Exit>, b: seq<Exit>, nodes: map<string, PlanNode>)
    ensures ProjectedExits(a + b, nodes) == ProjectedExits(a, nodes) + ProjectedExits(b, nodes)
  {
  }

  lemma ProjectedLink(exits: seq<Exit>, dst: string, nodes: map<string, PlanNode>)
    ensures Projected(Link(exits, dst), nodes) == PLink(ProjectedExits(exits, nodes), dst)
  {
    LinkIs(exits, dst);
    forall x | x in exits
      ensures PlanEdge(x.src, dst, TagText(nodes, x.src, x.tag)) in Projected(Link(exits, dst), nodes)
    {
      assert Edge(x.src, dst, x.tag) in Link(exits, dst);
    }
    forall e | e in Link(exits, dst)
      ensures PlanEdge(e.src, e.dst, TagText(nodes, e.src, e.tag)) in PLink(ProjectedExits(exits, nodes), dst)
    {
      assert PExit(e.src, TagText(nodes, e.src, e.tag)) in ProjectedExits(exits, nodes) by {
        assert Exit(e.src, e.tag) in exits;
      }
    }
  }

  ghost predicate Includes(nodes: map<string, PlanNode>, part: map<string, PlanNode>) {
    forall id :: id in part ==> id in nodes && nodes[id] == part[id]
  }

  lemma ProjectedNothing(nodes: map<string, PlanNode>)
    ensures Projected([], nodes) == {} && ProjectedExits([], nodes) == {}
  {
  }

  lemma {:induction false} BlockProjects(ls: seq<LStep>, nodes: map<string, PlanNode>)
    requires Full(ls) && NoDup(Ids(ls)) && NoDefaultCase(Erase(ls)) && Includes(nodes, PNodes(ls))
    ensures Projected(Edges(ls), nodes) == PEdges(ls)
    ensures ProjectedExits(Exits(ls), nodes) == PExits(ls)
    decreases ls, 0
  {
    hide Projected, ProjectedExits, PLink, Link, Includes, StepPEdges, StepPExits, StepEdges, StepExits, StepPNodes;
    ProjectedNothing(nodes);
    if ls != [] {
      var l, rest := ls[0], ls[1..];
      assert Erase(ls)[0] == EraseStep(l) && Erase(ls)[1..] == Erase(rest);
      NoDupParts(ls);
      PNodesParts(ls, nodes);
      StepProjects(l, nodes);
      BlockProjects(rest, nodes);
      ProjectedAppend(StepEdges(l), EdgesAfter(StepExits(l), rest), nodes);
      if rest != [] { AfterProjects(StepExits(l), rest, nodes); }
    }
  }

  /** Continuing dangling exits adds the projected links. */
  lemma AfterProjects(exits: seq<Exit>, rest: seq<LStep>, nodes: map<string, PlanNode>)
    requires Full(rest) && rest != []
    ensures Projected(EdgesAfter(exits, rest), nodes) ==
            PLink(ProjectedExits(exits, nodes), EntryId(rest[0])) + Projected(Edges(rest), nodes)
  {
    hide Projected, ProjectedExits, PLink, Link, StepEdges, StepExits;
    var e0, link := StepEdges(rest[0]), Link(exits, EntryId(rest[0]));
    var tail := EdgesAfter(StepExits(rest[0]), rest[1..]);
    ProjectedAppend(e0 + link, tail, nodes);
    ProjectedAppend(e0, link, nodes);
    ProjectedAppend(e0, tail, nodes);
    ProjectedLink(exits, EntryId(rest[0]), nodes);
  }

  lemma PNodesParts(ls: seq<LStep>, nodes: map<string, PlanNode>)
    requires ls != [] && NoDup(Ids(ls)) && Includes(nodes, PNodes(ls))
    ensures Includes(nodes, StepPNodes(ls[0])) && Includes(nodes, PNodes(ls[1..]))
  {
    StepPNodesKeys(ls[0]);
    PNodesKeys(ls[1..]);
    forall id | id in StepPNodes(ls[0]) ensures id in nodes && nodes[id] == StepPNodes(ls[0])[id] {
      assert id in ToSet(StepIds(ls[0]));
      NotInTail(ls, id);
      assert id !in PNodes(ls[1..]);
      assert PNodes(ls)[id] == StepPNodes(ls[0])[id];
    }
    forall id | id in PNodes(ls[1..]) ensures id in nodes && nodes[id] == PNodes(ls[1..])[id] {
      assert PNodes(ls)[id] == PNodes(ls[1..])[id];
    }
  }

  lemma {:induction false} StepProjects(l: LStep, nodes: map<string, PlanNode>)
    requires StepFull(l) && NoDup(StepIds(l)) && StepNoDefaultCase(EraseStep(l)) && Includes(nodes, StepPNodes(l))
    ensures Projected(StepEdges(l), nodes) == StepPEdges(l)
    ensures ProjectedExits(StepExits(l), nodes) == StepPExits(l)
    decreases l, 1
  {
    match l
    case LCall(id, _, _) =>
      assert Exit(id, None) in StepExits(l);
    case LWhen(sid, c, body) =>
      hide Projected, ProjectedExits, TagText, Edges, Exits, PEdges, PExits, CaseEdges, PNodes, IfText, ElseText;
      BranchNodes(l, nodes);
      BlockProjects(body, nodes);
      CasesProject(sid, c, EntryId(body[0]), nodes);
      ProjectedAppend(Edges(body), CaseEdges(sid, c.cases, EntryId(body[0])), nodes);
      var last := [Exit(sid, Some(DEFAULT_CASE))];
      ProjectedExitsAppend(Exits(body), last, nodes);
      DefaultProjects(sid, c, nodes);
  }

  lemma BranchNodes(l: LStep, nodes: map<string, PlanNode>)
    requires l.LWhen? && NoDup(StepIds(l)) && Includes(nodes, StepPNodes(l))
    ensures NoDup(Ids(l.body)) && Includes(nodes, PNodes(l.body))
    ensures l.sid in nodes && nodes[l.sid] == ConditionNode(l.cond.text)
  {
    assert StepIds(l)[0] == l.sid && forall j :: 0 <= j < |Ids(l.body)| ==> StepIds(l)[j + 1] == Ids(l.body)[j];
    PNodesKeys(l.body);
    assert l.sid !in ToSet(Ids(l.body));
    forall id | id in PNodes(l.body) ensures id in nodes && nodes[id] == PNodes(l.body)[id] {
      assert StepPNodes(l)[id] == PNodes(l.body)[id];
    }
    assert StepPNodes(l)[l.sid] == ConditionNode(l.cond.text);
  }

  lemma DefaultProjects(sid: string, c: Condition, nodes: map<string, PlanNode>)
    requires sid in nodes && nodes[sid] == ConditionNode(c.text)
    ensures ProjectedExits([Exit(sid, Some(DEFAULT_CASE))], nodes) == {PExit(sid, Some(ElseText(c.text)))}
  {
    var last := [Exit(sid, Some(DEFAULT_CASE))];
    assert last[0] in last;
  }

  lemma CasesProject(sid: string, c: Condition, dst: string, nodes: map<string, PlanNode>)
    requires DEFAULT_CASE !in c.cases && sid in nodes && nodes[sid] == ConditionNode(c.text)
    ensures Projected(CaseEdges(sid, c.cases, dst), nodes) == {PlanEdge(sid, dst, Some(IfText(c.text)))}
  {
    CaseEdgesAre(sid, c.cases, dst);
    assert Edge(sid, dst, Some(c.cases[0])) in CaseEdges(sid, c.cases, dst);
  }

  // ---------------------------------------------------------------- agreement

  /** Same entry, same call and branch nodes, and the same edges once emit and finish are dropped,
      parallel case edges are merged, and case and default tags are read as `if` and `else` labels. */
  ghost predicate Agrees(plan: Plan, flow: Flow) {
    && plan.entry == Some(flow.entry)
    && plan.nodes.Keys == (set id | id in flow.steps && (flow.steps[id].Task? || flow.steps[id].Switch?))
    && (forall id :: id in plan.nodes && flow.steps[id].Task? ==> plan.nodes[id] == CallNode(flow.steps[id].target))
    && (forall id :: id in plan.nodes && flow.steps[id].Switch? ==> plan.nodes[id].ConditionNode?)
    && NoDup(plan.edges)
    && ToSet(plan.edges) == Projected(Inner(flow.edges, plan.nodes.Keys), plan.nodes)
  }

  /** The edges that end in one of the given nodes. */
  function Inner(edges: seq<Edge>, nodes: set<string>): seq<Edge> {
    if edges == [] then []
    else if edges[0].dst in nodes then [edges[0]] + Inner(edges[1..], nodes) else Inner(edges[1..], nodes)
  }

  lemma {:induction false} InnerAppend(a: seq<Edge>, b: seq<Edge>, nodes: set<string>)
    ensures Inner(a + b, nodes) == Inner(a, nodes) + Inner(b, nodes)
  {
    if a == [] {
      assert a + b == b;
    } else {
      assert (a + b)[1..] == a[1..] + b;
      InnerAppend(a[1..], b, nodes);
    }
  }

  lemma {:induction false} InnerAll(edges: seq<Edge>, nodes: set<string>)
    ensures (forall e :: e in edges ==> e.dst in nodes) ==> Inner(edges, nodes) == edges
    ensures (forall e :: e in edges ==> e.dst !in nodes) ==> Inner(edges, nodes) == []
  {
    if edges != [] { InnerAll(edges[1..], nodes); }
  }

  /** No call step is named like one of the workflow's branches. */
  ghost predicate NoBranchName(steps: seq<Step>) {
    Clear(ToSet(CallIds(steps)), 0, Whens(steps))
  }

  /** Without such a name the plan is the graph of the labelled tree behind the compiled flow. */
  lemma PlanIsTree(w: Workflow, flow: Flow) returns (tree: seq<LStep>, emit: string, finish: string)
    requires Compile(w) == Ok(flow) && NoBranchName(w.steps)
    ensures tree != [] && Full(tree) && Erase(tree) == w.steps && NoDup(Ids(tree))
    ensures flow == FlowOf(tree, emit, finish, w.outputs)
    ensures emit !in Ids(tree) && finish !in Ids(tree) && emit != finish
    ensures var plan := PlanBlock(EMPTY, w.steps, []).0;
      && plan.entry == Some(flow.entry) && plan.nodes == PNodes(tree)
      && NoDup(plan.edges) && ToSet(plan.edges) == PEdges(tree)
      && Inner(flow.edges, plan.nodes.Keys) == Edges(tree)
  {
    hide Compile, Label, Edges, Exits, PEdges, PExits, PNodes, Numbered, PlanBlock, Dress, RenderEntries, Texts;
    tree, emit, finish := CompiledTree(w, flow);
    assert {} + ToSet(CallIds(w.steps)) == ToSet(CallIds(w.steps));
    SameNames(w.steps, {}, 0);
    assert tree == Numbered(w.steps, EMPTY.counter);
    assert Ready(EMPTY, [], Ids(tree));
    BlockPlanned(EMPTY, w.steps, []);
    var plan := PlanBlock(EMPTY, w.steps, []).0;
    assert plan.nodes == PNodes(tree) by { MapEmpty(PNodes(tree)); }
    PNodesKeys(tree);
    InnerOfFlow(flow, tree, emit, finish, w.outputs);
    LinkTexts(EMPTY, [], EntryId(tree[0]));
    assert PLink(Texts(EMPTY, []), EntryId(tree[0])) == {};
    assert ToSet<PlanEdge>([]) == {};
  }

  /** With neither such a name nor a default literal the plan is the compiled graph. */
  lemma PlanMatchesFlow(w: Workflow, flow: Flow)
    requires Compile(w) == Ok(flow) && NoDefaultCase(w.steps) && NoBranchName(w.steps)
    ensures Agrees(PlanBlock(EMPTY, w.steps, []).0, flow)
  {
    hide Compile, Edges, PEdges, PNodes, PlanBlock, RenderEntries;
    hide NoDefaultCase, Projected, Inner, Ids, NoBranchName, Full, Erase;
    var tree, emit, finish := PlanIsTree(w, flow);
    BlockProjects(tree, PNodes(tree));
    NodesMatch(flow, tree, emit, finish, w.outputs);
  }

  // ---------------------------------------------------------------- a default literal shows

  lemma {:induction false} PEdgesInside(ls: seq<LStep>)
    requires Full(ls)
    ensures forall e :: e in PEdges(ls) ==> e.src in Ids(ls) && e.dst in Ids(ls)
    decreases ls, 0
  {
    if ls != [] {
      StepPEdgesInside(ls[0]);
      if |ls| > 1 {
        PEdgesInside(ls[1..]);
        StepEntryInside(ls[1..]);
      }
    }
  }

  lemma {:induction false} PExitsInside(ls: seq<LStep>)
    ensures forall x :: x in PExits(ls) ==> x.src in Ids(ls)
    decreases ls, 0
  {
    if ls != [] {
      StepPExitsInside(ls[0]);
      PExitsInside(ls[1..]);
    }
  }

  lemma {:induction false} StepPExitsInside(l: LStep)
    ensures forall x :: x in StepPExits(l) ==> x.src in StepIds(l)
    decreases l, 1
  {
    match l
    case LCall(_, _, _) =>
    case LWhen(_, _, body) => PExitsInside(body);
  }

  lemma {:induction false} StepPEdgesInside(l: LStep)
    requires StepFull(l)
    ensures forall e :: e in StepPEdges(l) ==> e.src in StepIds(l) && e.dst in StepIds(l)
    ensures forall x :: x in StepPExits(l) ==> x.src in StepIds(l)
    decreases l, 1
  {
    StepPExitsInside(l);
    match l
    case LCall(_, _, _) =>
    case LWhen(_, _, body) =>
      PEdgesInside(body);
      StepEntryInside(body);
  }

  /** A default literal draws a projected edge that the plan's graph does not have. */
  lemma {:induction false} DefaultDisagrees(ls: seq<LStep>, nodes: map<string, PlanNode>) returns (e: PlanEdge)
    requires Full(ls) && NoDup(Ids(ls)) && !NoDefaultCase(Erase(ls)) && Includes(nodes, PNodes(ls))
    ensures e in Projected(Edges(ls), nodes) && e !in PEdges(ls) && e.src in Ids(ls) && e.dst in Ids(ls)
    decreases ls, 0
  {
    hide Projected, Includes, StepPEdges, StepPExits, StepEdges, StepExits, StepPNodes, PNodes, StepNoDefaultCase;
    var l, rest := ls[0], ls[1..];
    assert Erase(ls)[0] == EraseStep(l) && Erase(ls)[1..] == Erase(rest);
    NoDupParts(ls);
    PNodesParts(ls, nodes);
    ProjectedAppend(StepEdges(l), EdgesAfter(StepExits(l), rest), nodes);
    StepPEdgesInside(l);
    PEdgesInside(rest);
    if StepNoDefaultCase(EraseStep(l)) {
      e := DefaultDisagrees(rest, nodes);
      if e.src in StepIds(l) { NotInTail(ls, e.src); }
      AfterProjects(StepExits(l), rest, nodes);
    } else {
      e := StepDefaultDisagrees(l, nodes);
      NotInTail(ls, e.dst);
      if rest != [] { StepEntryInside(rest); }
    }
  }

  lemma {:induction false} StepDefaultDisagrees(l: LStep, nodes: map<string, PlanNode>) returns (e: PlanEdge)
    requires StepFull(l) && NoDup(StepIds(l)) && !StepNoDefaultCase(EraseStep(l)) && Includes(nodes, StepPNodes(l))
    ensures e in Projected(StepEdges(l), nodes) && e !in StepPEdges(l) && e.src in StepIds(l) && e.dst in StepIds(l)
    decreases l, 1
  {
    hide Projected, Edges, PEdges, CaseEdges, PNodes, IfText, ElseText, Includes;
    var sid, c, body := l.sid, l.cond, l.body;
    var cases := CaseEdges(sid, c.cases, EntryId(body[0]));
    BranchNodes(l, nodes);
    ProjectedAppend(Edges(body), cases, nodes);
    PEdgesInside(body);
    StepEntryInside(body);
    assert sid !in Ids(body) by {
      assert StepIds(l)[0] == sid && forall j :: 0 <= j < |Ids(body)| ==> StepIds(l)[j + 1] == Ids(body)[j];
    }
    if DEFAULT_CASE in c.cases {
      e := PlanEdge(sid, EntryId(body[0]), Some(ElseText(c.text)));
      DefaultCaseProjects(sid, c, EntryId(body[0]), nodes);
      TextsDiffer(c.text);
    } else {
      e := DefaultDisagrees(body, nodes);
    }
  }

  lemma DefaultCaseProjects(sid: string, c: Condition, dst: string, nodes: map<string, PlanNode>)
    requires DEFAULT_CASE in c.cases && sid in nodes && nodes[sid] == ConditionNode(c.text)
    ensures PlanEdge(sid, dst, Some(ElseText(c.text))) in Projected(CaseEdges(sid, c.cases, dst), nodes)
  {
    CaseEdgesAre(sid, c.cases, dst);
    assert Edge(sid, dst, Some(DEFAULT_CASE)) in CaseEdges(sid, c.cases, dst);
  }

  lemma TextsDiffer(text: string)
    ensures IfText(text) != ElseText(text)
  {
    assert IfText(text)[0] == 'i' && ElseText(text)[0] == 'e';
  }

  lemma InnerOfFlow(flow: Flow, tree: seq<LStep>, emit: string, finish: string, outputs: seq<Entry>)
    requires tree != [] && Full(tree) && flow == FlowOf(tree, emit, finish, outputs)
    requires emit !in Ids(tree) && finish !in Ids(tree)
    ensures Inner(flow.edges, ToSet(Ids(tree))) == Edges(tree)
  {
    var ids, link, last := ToSet(Ids(tree)), Link(Exits(tree), emit), [Edge(emit, finish, None)];
    EdgesInside(tree);
    LinkIs(Exits(tree), emit);
    InnerAppend(Edges(tree) + link, last, ids);
    InnerAppend(Edges(tree), link, ids);
    InnerAll(Edges(tree), ids);
    InnerAll(link, ids);
    InnerAll(last, ids);
  }

  lemma {:induction false} DeclsMatch(ls: seq<LStep>)
    requires Full(ls)
    ensures PNodes(ls).Keys == Decls(ls).Keys
    ensures forall id :: id in Decls(ls) ==>
      match Decls(ls)[id]
      case Task(target, _) => PNodes(ls)[id] == CallNode(target)
      case Switch(_, _) => PNodes(ls)[id].ConditionNode?
      case Emit(_) => false
      case Finish => false
    decreases ls, 0
  {
    if ls != [] {
      StepDeclsMatch(ls[0]);
      DeclsMatch(ls[1..]);
    }
  }

  lemma {:induction false} StepDeclsMatch(l: LStep)
    requires StepFull(l)
    ensures StepPNodes(l).Keys == StepDecls(l).Keys
    ensures forall id :: id in StepDecls(l) ==>
      match StepDecls(l)[id]
      case Task(target, _) => StepPNodes(l)[id] == CallNode(target)
      case Switch(_, _) => StepPNodes(l)[id].ConditionNode?
      case Emit(_) => false
      case Finish => false
    decreases l, 1
  {
    match l
    case LCall(_, _, _) =>
    case LWhen(_, _, body) => DeclsMatch(body);
  }

  lemma NodesMatch(flow: Flow, tree: seq<LStep>, emit: string, finish: string, outputs: seq<Entry>)
    requires tree != [] && Full(tree) && flow == FlowOf(tree, emit, finish, outputs)
    requires emit !in Ids(tree) && finish !in Ids(tree) && emit != finish
    ensures PNodes(tree).Keys == (set id | id in flow.steps && (flow.steps[id].Task? || flow.steps[id].Switch?))
    ensures forall id :: id in PNodes(tree) && flow.steps[id].Task? ==>
      PNodes(tree)[id] == CallNode(flow.steps[id].target)
    ensures forall id :: id in PNodes(tree) && flow.steps[id].Switch? ==> PNodes(tree)[id].ConditionNode?
  {
    hide Edges, Exits, Link, Table, Ids, PNodes, Decls, RenderEntries;
    DeclsMatch(tree);
    PNodesKeys(tree);
  }

  // ---------------------------------------------------------------- ... exactly without collisions

  lemma {:induction false} ConnectAllNodes(p: Plan, sources: seq<string>, dst: string)
    ensures ConnectAll(p, sources, dst).nodes == p.nodes && ConnectAll(p, sources, dst).counter == p.counter
    decreases sources
  {
    if sources != [] { ConnectAllNodes(ConnectOne(p, sources[0], dst), sources[1..], dst); }
  }

  lemma PlanCallNodes(p: Plan, id: string, target: string, prev: seq<string>)
    ensures PlanCall(p, id, target, prev).nodes.Keys == p.nodes.Keys + {id}
    ensures PlanCall(p, id, target, prev).counter == p.counter
  {
    var p1 := if id in p.nodes then p else p.(nodes := p.nodes[id := CallNode(target)]);
    ConnectAllNodes(p1, prev, id);
  }

  lemma OpenWhenNodes(p: Plan, c: Condition, prev: seq<string>)
    ensures OpenWhen(p, c, prev).nodes.Keys == p.nodes.Keys + {Name("when", p.counter)}
    ensures OpenWhen(p, c, prev).counter == p.counter + 1
  {
    var id := Name("when", p.counter);
    var p0 := p.(counter := p.counter + 1);
    var p1 := if id in p.nodes then p0 else p0.(nodes := p.nodes[id := ConditionNode(c.text)]);
    ConnectAllNodes(p1, prev, id);
  }

  /** The ids that planning a block can introduce. */
  ghost function Planable(steps: seq<Step>, n: nat): set<string> {
    ToSet(CallIds(steps)) + NameRange(n, Whens(steps))
  }

  ghost function StepPlanable(step: Step, n: nat): set<string> {
    ToSet(StepCallIds(step)) + NameRange(n, StepWhens(step))
  }

  lemma PlanableParts(steps: seq<Step>, n: nat)
    requires steps != []
    ensures StepPlanable(steps[0], n) <= Planable(steps, n)
    ensures Planable(steps[1..], n + StepWhens(steps[0])) <= Planable(steps, n)
  {
    hide Name, NameRange;
    RangeSplit(n, StepWhens(steps[0]), Whens(steps[1..]));
    ToSetAppend(StepCallIds(steps[0]), CallIds(steps[1..]));
  }

  lemma BranchPlanable(c: Condition, body: seq<Step>, n: nat)
    ensures Name("when", n) in StepPlanable(When(c, body), n)
    ensures Planable(body, n + 1) <= StepPlanable(When(c, body), n)
  {
    RangeSplit(n, 1, Whens(body));
    assert Name("when", n) in NameRange(n, 1);
  }

  /** The nodes of any plan are call ids and branch names. */
  lemma {:induction false} PlanNodes(p: Plan, steps: seq<Step>, exits: seq<string>)
    ensures PlanBlock(p, steps, exits).0.counter == p.counter + Whens(steps)
    ensures PlanBlock(p, steps, exits).0.nodes.Keys <= p.nodes.Keys + Planable(steps, p.counter)
    decreases steps, 0
  {
    hide Planable, StepPlanable, Name, OpenWhen, PlanCall;
    if steps != [] {
      var (p1, exits1) := PlanStep(p, steps[0], exits);
      PlanStepNodes(p, steps[0], exits);
      PlanNodes(p1, steps[1..], exits1);
      PlanableParts(steps, p.counter);
    }
  }

  lemma {:induction false} PlanStepNodes(p: Plan, step: Step, prev: seq<string>)
    ensures PlanStep(p, step, prev).0.counter == p.counter + StepWhens(step)
    ensures PlanStep(p, step, prev).0.nodes.Keys <= p.nodes.Keys + StepPlanable(step, p.counter)
    decreases step, 1
  {
    hide Planable, Name, OpenWhen, PlanCall, NameRange;
    match step
    case Call(id, target, _) =>
      PlanCallNodes(p, id, target, prev);
      assert id in StepCallIds(step);
    case When(c, body) =>
      hide StepPlanable;
      OpenWhenNodes(p, c, prev);
      PlanNodes(OpenWhen(p, c, prev), body, [Name("when", p.counter)]);
      BranchPlanable(c, body, p.counter);
  }

  lemma {:induction false} IdsCount(ls: seq<LStep>)
    ensures |Ids(ls)| == |CallIds(Erase(ls))| + Whens(Erase(ls))
    decreases ls, 0
  {
    if ls != [] {
      IdsCount(ls[1..]);
      assert Erase(ls)[0] == EraseStep(ls[0]) && Erase(ls)[1..] == Erase(ls[1..]);
      match ls[0]
      case LCall(_, _, _) =>
      case LWhen(_, _, body) => IdsCount(body);
    }
  }

  lemma {:induction false} RangeSize(n: nat, count: nat)
    ensures |NameRange(n, count)| <= count
  {
    hide NameRange, Name;
    RangeEnds(n);
    if count > 0 {
      RangeSize(n, count - 1);
      RangeSplit(n, count - 1, 1);
      RangeEnds(n + count - 1);
    }
  }

  lemma RangeEnds(n: nat)
    ensures NameRange(n, 0) == {} && NameRange(n, 1) == {Name("when", n)}
  {
    hide Name;
  }

  lemma {:induction false} ToSetSize<T>(s: seq<T>)
    ensures |ToSet(s)| <= |s|
  {
    if s != [] {
      ToSetSize(s[1..]);
      assert ToSet(s) == {s[0]} + ToSet(s[1..]);
    }
  }

  lemma UnionSize<T>(a: set<T>, b: set<T>, x: T)
    requires x in a && x in b
    ensures |a + b| < |a| + |b|
  {
    assert a + b == a + (b - {x});
  }

  /** A branch name used by a call costs the plan a node. */
  lemma BranchNameDisagrees(w: Workflow, flow: Flow)
    requires Compile(w) == Ok(flow) && !NoBranchName(w.steps)
    ensures !Agrees(PlanBlock(EMPTY, w.steps, []).0, flow)
  {
    var plan := PlanBlock(EMPTY, w.steps, []).0;
    var calls, names := ToSet(CallIds(w.steps)), NameRange(0, Whens(w.steps));
    var i :| 0 <= i < Whens(w.steps) && Name("when", i) in calls;
    var tree, emit, finish := CompiledTree(w, flow);
    PlanNodes(EMPTY, w.steps, []);
    assert plan.nodes.Keys <= {} + (calls + names);
    SubsetSize(plan.nodes.Keys, calls + names);
    UnionSize(calls, names, Name("when", i));
    ToSetSize(CallIds(w.steps));
    RangeSize(0, Whens(w.steps));
    IdsCount(tree);
    NoDupSize(Ids(tree));
    NodesMatch(flow, tree, emit, finish, w.outputs);
    PNodesKeys(tree);
  }

  /** For a workflow that compiles, the plan is the compiled graph if and only if no call step is
      named like one of its branches and no case literal is the default label. */
  lemma AgreesExactly(w: Workflow, flow: Flow)
    requires Compile(w) == Ok(flow)
    ensures Agrees(PlanBlock(EMPTY, w.steps, []).0, flow) <==> NoBranchName(w.steps) && NoDefaultCase(w.steps)
  {
    hide Compile, Edges, PEdges, PNodes, PlanBlock, RenderEntries;
    hide NoDefaultCase, Projected, Inner, Ids, NoBranchName, Full, Erase;
    if !NoBranchName(w.steps) {
      BranchNameDisagrees(w, flow);
    } else if NoDefaultCase(w.steps) {
      PlanMatchesFlow(w, flow);
    } else {
      var tree, emit, finish := PlanIsTree(w, flow);
      assert Includes(PNodes(tree), PNodes(tree));
      var e := DefaultDisagrees(tree, PNodes(tree));
    }
  }
}
