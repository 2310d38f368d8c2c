/** The flow graph of a workflow, read off its source.

    Compilation names every branch; a labelled tree is the source with those names. Its entry,
    exits and edges are the graph fragment that tm/dsl/compiler_flow.py builds for it. */
module Labels {
  import opened Collections
  import opened Wdl
  import opened Names

  datatype LStep =
    | LCall(id: StepId, target: string, args: seq<Entry>)
    | LWhen(sid: StepId, cond: Condition, body: seq<LStep>)

  datatype Exit = Exit(src: string, tag: Option<string>)
  datatype Edge = Edge(src: string, dst: string, tag: Option<string>)

  // ---------------------------------------------------------------- id allocation

  datatype CompileError = EmptySequence | DuplicateId(id: string) | MissingKey
  datatype Result<+T> = Ok(value: T) | Err(error: CompileError)

  /** A labelled block, the ids taken after it and the next counter. */
  datatype Labelled = Labelled(tree: seq<LStep>, used: set<string>, next: nat)

  /** Name the branches of a block in source order; `used` holds the ids already taken. */
  function Label(steps: seq<Step>, used: set<string>, n: nat): Result<Labelled>
    decreases steps, 0
  {
    if steps == [] then Ok(Labelled([], used, n))
    else
      match LabelStep(steps[0], used, n)
      case Err(e) => Err(e)
      case Ok(first) =>
        match Label(steps[1..], first.used, first.next)
        case Err(e) => Err(e)
        case Ok(rest) => Ok(Labelled(first.tree + rest.tree, rest.used, rest.next))
  }

  /** A call keeps its id, which must be new; a branch takes the next free `when_` id. */
  function LabelStep(step: Step, used: set<string>, n: nat): Result<Labelled>
    decreases step, 1
  {
    match step
    case Call(id, target, args) =>
      if id in used then Err(DuplicateId(id))
      else if !EntriesRenderable(args) then Err(MissingKey)
      else Ok(Labelled([LCall(id, target, args)], used + {id}, n))
    case When(c, body) =>
      var k := FreshCounter("when", used, n);
      var sid := Name("when", k);
      match Label(body, used + {sid}, k + 1)
      case Err(e) => Err(e)
      case Ok(inner) =>
        if body == [] then Err(EmptySequence)
        else Ok(Labelled([LWhen(sid, c, inner.tree)], inner.used, inner.next))
  }

  // ---------------------------------------------------------------- reading a labelled tree

  /** Forget the names. */
  function Erase(ls: seq<LStep>): seq<Step>
    decreases ls, 0
  {
    if ls == [] then [] else [EraseStep(ls[0])] + Erase(ls[1..])
  }

  function EraseStep(l: LStep): Step
    decreases l, 1
  {
    match l
    case LCall(id, target, args) => Call(id, target, args)
    case LWhen(_, c, body) => When(c, Erase(body))
  }

  /** All ids, in the order in which steps are inserted. */
  function Ids(ls: seq<LStep>): seq<string>
    decreases ls, 0
  {
    if ls == [] then [] else StepIds(ls[0]) + Ids(ls[1..])
  }

  function StepIds(l: LStep): seq<string>
    decreases l, 1
  {
    match l
    case LCall(id, _, _) => [id]
    case LWhen(sid, _, body) => [sid] + Ids(body)
  }

  /** Every branch has a body. */
  predicate Full(ls: seq<LStep>)
    decreases ls, 0
  {
    ls == [] || (StepFull(ls[0]) && Full(ls[1..]))
  }

  predicate StepFull(l: LStep)
    decreases l, 1
  {
    match l
    case LCall(_, _, _) => true
    case LWhen(_, _, body) => body != [] && Full(body)
  }

  function EntryId(l: LStep): StepId {
    match l
    case LCall(id, _, _) => id
    case LWhen(sid, _, _) => sid
  }

  /** Exits of a step: what still lacks a successor once the step is compiled. */
  function StepExits(l: LStep): seq<Exit>
    decreases l, 1
  {
    match l
    case LCall(id, _, _) => [Exit(id, None)]
    case LWhen(sid, _, body) => Exits(body) + [Exit(sid, Some(DEFAULT_CASE))]
  }

  function Exits(ls: seq<LStep>): seq<Exit>
    decreases ls, 0
  {
    if ls == [] then [] else if |ls| == 1 then StepExits(ls[0]) else Exits(ls[1..])
  }

  function Link(exits: seq<Exit>, dst: string): seq<Edge> {
    if exits == [] then [] else [Edge(exits[0].src, dst, exits[0].tag)] + Link(exits[1..], dst)
  }

  function CaseEdges(sid: string, cases: seq<string>, dst: string): seq<Edge> {
    if cases == [] then [] else [Edge(sid, dst, Some(cases[0]))] + CaseEdges(sid, cases[1..], dst)
  }

  /** Edges inside a step, in the order in which they are added. */
  function StepEdges(l: LStep): seq<Edge>
    requires StepFull(l)
    decreases l, 1
  {
    match l
    case LCall(_, _, _) => []
    case LWhen(sid, c, body) => Edges(body) + CaseEdges(sid, c.cases, EntryId(body[0]))
  }

  /** Edges inside a block. */
  function Edges(ls: seq<LStep>): seq<Edge>
    requires Full(ls)
    decreases ls, 0
  {
    if ls == [] then [] else StepEdges(ls[0]) + EdgesAfter(StepExits(ls[0]), ls[1..])
  }

  /** Edges added for a block that continues dangling exits. */
  function EdgesAfter(exits: seq<Exit>, ls: seq<LStep>): seq<Edge>
    requires Full(ls)
    decreases ls, 0
  {
    if ls == [] then []
    else StepEdges(ls[0]) + Link(exits, EntryId(ls[0])) + EdgesAfter(StepExits(ls[0]), ls[1..])
  }

  // ---------------------------------------------------------------- facts about labelling

  /** No branch has the name of the default label. */
  predicate Generated(ls: seq<LStep>)
    decreases ls, 0
  {
    ls == [] || (StepGenerated(ls[0]) && Generated(ls[1..]))
  }

  predicate StepGenerated(l: LStep)
    decreases l, 1
  {
    match l
    case LCall(_, _, _) => true
    case LWhen(sid, _, body) => sid != DEFAULT_CASE && Generated(body)
  }

  /** A block of one step. */
  lemma Singleton(l: LStep)
    ensures Erase([l]) == [EraseStep(l)]
    ensures Full([l]) == StepFull(l) && Generated([l]) == StepGenerated(l)
    ensures Ids([l]) == StepIds(l)
    ensures Exits([l]) == StepExits(l)
    ensures StepFull(l) ==> Edges([l]) == StepEdges(l)
  {
    assert [l][1..] == [];
    assert StepIds(l) + [] == StepIds(l);
    if StepFull(l) { assert StepEdges(l) + [] == StepEdges(l); }
  }

  lemma GeneratedName(prefix: string, n: nat)
    requires prefix != "" && prefix[0] != '_'
    ensures Name(prefix, n) != DEFAULT_CASE
  {
    assert Name(prefix, n)[0] == prefix[0] && DEFAULT_CASE[0] == '_';
  }

  /** A labelled block erases to its source, has non-empty branches and takes only new, distinct ids. */
  ghost predicate GoodLabels(steps: seq<Step>, used: set<string>, out: Labelled) {
    && Erase(out.tree) == steps
    && Full(out.tree) && Generated(out.tree)
    && NoDup(Ids(out.tree))
    && ToSet(Ids(out.tree)) !! used
    && out.used == used + ToSet(Ids(out.tree))
  }

  lemma {:induction false} LabelGood(steps: seq<Step>, used: set<string>, n: nat)
    requires Label(steps, used, n).Ok?
    ensures GoodLabels(steps, used, Label(steps, used, n).value)
    decreases steps, 0
  {
    if steps != [] {
      var first := LabelStep(steps[0], used, n).value;
      var rest := Label(steps[1..], first.used, first.next).value;
      LabelStepGood(steps[0], used, n);
      LabelGood(steps[1..], first.used, first.next);
      assert first.tree + rest.tree == [first.tree[0]] + rest.tree;
      assert (first.tree + rest.tree)[1..] == rest.tree;
      Singleton(first.tree[0]);
      assert first.tree == [first.tree[0]];
      NoDupAppend(Ids(first.tree), Ids(rest.tree));
      ToSetAppend(Ids(first.tree), Ids(rest.tree));
      assert Erase(first.tree) == [EraseStep(first.tree[0])];
    }
  }

  lemma {:induction false} LabelStepGood(step: Step, used: set<string>, n: nat)
    requires LabelStep(step, used, n).Ok?
    ensures |LabelStep(step, used, n).value.tree| == 1
    ensures GoodLabels([step], used, LabelStep(step, used, n).value)
    decreases step, 1
  {
    var out := LabelStep(step, used, n).value;
    Singleton(out.tree[0]);
    match step
    case Call(id, target, args) => assert out.tree == [out.tree[0]];
    case When(c, body) =>
      assert out.tree == [out.tree[0]];
      var k := FreshCounter("when", used, n);
      var sid := Name("when", k);
      FreshCounterIsLeast("when", used, n);
      GeneratedName("when", k);
      LabelGood(body, used + {sid}, k + 1);
      var inner := Label(body, used + {sid}, k + 1).value;
      assert Ids(out.tree) == [sid] + Ids(inner.tree);
      NoDupAppend([sid], Ids(inner.tree));
      ToSetAppend([sid], Ids(inner.tree));
  }
}
