/** Ways of choosing the next step of a flow: a specified dispatcher over its edge list; the two runners that
    are given compiled flows, tm/flow/runtime.py and tm/runtime/ir_runner.py; and the engine of
    tm/flow/engine.py, which walks a graph with at most one edge between two steps (tm/flow/graph.py). */
module FlowEngine {
  import opened Collections
  import opened Wdl
  import opened Labels
  import opened Flows

  // ---------------------------------------------------------------- over the edge list

  /** The target of a switch: the edge tagged with the key value, else the default edge. */
  function Dispatch(edges: seq<Edge>, src: string, v: Option<string>): Option<string> {
    var hit := if v.Some? then Find(edges, src, v) else None;
    if hit.Some? then hit else Find(edges, src, Some(DEFAULT_CASE))
  }

  // ---------------------------------------------------------------- over the engine's graph

  /** A successor with the case attribute of the edge to it. */
  datatype Arc = Arc(dst: string, case_: Option<string>)

  /** `add_edge`: a new successor comes last; adding an edge again overwrites its case. */
  function AddArc(arcs: seq<Arc>, dst: string, tag: Option<string>): seq<Arc> {
    if arcs == [] then [Arc(dst, tag)]
    else if arcs[0].dst == dst then [Arc(dst, if tag.Some? then tag else arcs[0].case_)] + arcs[1..]
    else [arcs[0]] + AddArc(arcs[1..], dst, tag)
  }

  /** The successors of `src` once the edges have been added to `arcs` one by one. */
  function Adding(edges: seq<Edge>, src: string, arcs: seq<Arc>): seq<Arc>
    decreases edges
  {
    if edges == [] then arcs
    else Adding(edges[1..], src, if edges[0].src == src then AddArc(arcs, edges[0].dst, edges[0].tag) else arcs)
  }

  function Successors(edges: seq<Edge>, src: string): seq<Arc> { Adding(edges, src, []) }

  function FirstWith(arcs: seq<Arc>, case_: Option<string>): Option<string> {
    if arcs == [] then None else if arcs[0].case_ == case_ then Some(arcs[0].dst) else FirstWith(arcs[1..], case_)
  }

  /** The engine's switch: the first successor whose case is the key value, else the first default one.
      An absent value equals the case of an edge that has none. */
  function EngineSwitch(arcs: seq<Arc>, v: Option<string>): Option<string> {
    var hit := FirstWith(arcs, v);
    if hit.Some? then hit else FirstWith(arcs, Some(DEFAULT_CASE))
  }

  // ---------------------------------------------------------------- by the runners

  /** The target of the first edge in list order. */
  function FirstTarget(edges: seq<Edge>, src: string): Option<string> {
    var out := From(edges, src);
    if out == [] then None else Some(out[0].dst)
  }

  function Targets(out: seq<Edge>): set<string> { set e | e in out :: e.dst }

  /** `_next_step` of a switch: compiled switches have no key, and the default is sought among the successor ids. */
  function RuntimeSwitch(edges: seq<Edge>, src: string): Option<string> {
    if DEFAULT_CASE in Targets(From(edges, src)) then Some(DEFAULT_CASE) else FirstTarget(edges, src)
  }

  // ---------------------------------------------------------------- any of them

  datatype Dispatcher = ByEdges | ByEngine | ByRuntime | ByIr

  /** The reading of branches that a dispatcher amounts to. */
  function ReadingOf(via: Dispatcher): Reading {
    match via
    case ByEdges => EveryCase
    case ByEngine => LastCase
    case ByRuntime => UnlessNamed
    case ByIr => Always
  }

  /** Where a step other than a switch continues: the engine and the runners take the first successor. */
  function NextOf(edges: seq<Edge>, src: string, via: Dispatcher): Option<string> {
    match via
    case ByEdges => Find(edges, src, None)
    case ByEngine => var arcs := Successors(edges, src); if arcs == [] then None else Some(arcs[0].dst)
    case _ => FirstTarget(edges, src)
  }

  function ChoiceOf(edges: seq<Edge>, src: string, v: Option<string>, via: Dispatcher): Option<string> {
    match via
    case ByEdges => Dispatch(edges, src, v)
    case ByEngine => EngineSwitch(Successors(edges, src), v)
    case ByRuntime => RuntimeSwitch(edges, src)
    case ByIr => FirstTarget(edges, src)
  }

  // ---------------------------------------------------------------- what they depend on

  lemma {:induction false} AddingFrom(edges: seq<Edge>, src: string, arcs: seq<Arc>)
    ensures Adding(edges, src, arcs) == Adding(From(edges, src), src, arcs)
    decreases edges
  {
    if edges != [] {
      var e, rest := edges[0], edges[1..];
      if e.src == src {
        AddingFrom(rest, src, AddArc(arcs, e.dst, e.tag));
        assert From(edges, src)[1..] == From(rest, src);
      } else {
        AddingFrom(rest, src, arcs);
        assert From(edges, src) == [] + From(rest, src) == From(rest, src);
      }
    }
  }

  /** A step with one plain edge continues there. */
  lemma NextIs(edges: seq<Edge>, src: string, k: string, via: Dispatcher)
    requires From(edges, src) == [Edge(src, k, None)]
    ensures NextOf(edges, src, via) == Some(k)
  {
    FindFrom(edges, src, None);
    AddingFrom(edges, src, []);
    var one := [Edge(src, k, None)];
    assert one[1..] == [];
    assert Adding(one, src, []) == Adding([], src, [Arc(k, None)]) == [Arc(k, None)];
  }

  /** The edges of a compiled switch: its cases lead to the body, the default leads past it. */
  function SwitchEdges(sid: string, c: Condition, entry: string, k: string): seq<Edge> {
    CaseEdges(sid, c.cases, entry) + [Edge(sid, k, Some(DEFAULT_CASE))]
  }

  lemma {:induction false} FindCase(sid: string, cases: seq<string>, dst: string, tag: Option<string>)
    ensures Find(CaseEdges(sid, cases, dst), sid, tag) ==
            if tag.Some? && tag.value in cases then Some(dst) else None
  {
    if cases != [] { FindCase(sid, cases[1..], dst, tag); }
  }

  lemma FindInSwitch(sid: string, c: Condition, entry: string, k: string, tag: Option<string>)
    ensures Find(SwitchEdges(sid, c, entry, k), sid, tag) ==
      if tag.Some? && tag.value in c.cases then Some(entry) else if tag == Some(DEFAULT_CASE) then Some(k) else None
  {
    var last := [Edge(sid, k, Some(DEFAULT_CASE))];
    FindAppend(CaseEdges(sid, c.cases, entry), last, sid, tag);
    FindCase(sid, c.cases, entry, tag);
    assert last[1..] == [];
  }

  /** Parallel case edges leave the last literal. */
  lemma {:induction false} AddingCases(
    sid: string, cases: seq<string>, dst: string, rest: seq<Edge>, tag: Option<string>)
    ensures Adding(CaseEdges(sid, cases, dst) + rest, sid, [Arc(dst, tag)]) ==
      Adding(rest, sid, [Arc(dst, if cases == [] then tag else Some(cases[|cases| - 1]))])
  {
    var edges := CaseEdges(sid, cases, dst);
    if cases == [] {
      assert edges + rest == rest;
    } else {
      assert (edges + rest)[1..] == edges[1..] + rest;
      assert AddArc([Arc(dst, tag)], dst, Some(cases[0])) == [Arc(dst, Some(cases[0]))];
      AddingCases(sid, cases[1..], dst, rest, Some(cases[0]));
    }
  }

  lemma SwitchArcs(sid: string, c: Condition, entry: string, k: string)
    requires entry != k
    ensures Successors(SwitchEdges(sid, c, entry, k), sid) ==
      [Arc(entry, Some(LastLiteral(c))), Arc(k, Some(DEFAULT_CASE))]
  {
    var last := [Edge(sid, k, Some(DEFAULT_CASE))];
    var edges := SwitchEdges(sid, c, entry, k);
    assert edges[0] == Edge(sid, entry, Some(c.cases[0]));
    assert edges[1..] == CaseEdges(sid, c.cases[1..], entry) + last;
    AddingCases(sid, c.cases[1..], entry, last, Some(c.cases[0]));
    var arcs := [Arc(entry, Some(LastLiteral(c)))];
    assert last[1..] == [] && arcs[1..] == [];
    assert Adding(last, sid, arcs) == AddArc(arcs, k, Some(DEFAULT_CASE)) == arcs + [Arc(k, Some(DEFAULT_CASE))];
  }

  lemma FirstOfTwo(a: Arc, b: Arc, case_: Option<string>)
    ensures FirstWith([a, b], case_) ==
      if a.case_ == case_ then Some(a.dst) else if b.case_ == case_ then Some(b.dst) else None
  {
    assert [a, b][1..] == [b] && [b][1..] == [];
    assert FirstWith([b], case_) == if b.case_ == case_ then Some(b.dst) else None;
  }

  /** The targets of a compiled switch: the body first. */
  lemma SwitchTargets(sid: string, c: Condition, entry: string, k: string)
    ensures var out := SwitchEdges(sid, c, entry, k);
      out != [] && out[0].dst == entry && Targets(out) == {entry, k}
  {
    var out := SwitchEdges(sid, c, entry, k);
    CaseEdgesAre(sid, c.cases, entry);
    assert out[0] == Edge(sid, entry, Some(c.cases[0])) && out[|out| - 1] == Edge(sid, k, Some(DEFAULT_CASE));
    assert out[0] in out && out[|out| - 1] in out;
  }

  /** A compiled switch enters its body exactly when the dispatcher's reading does. */
  lemma ChoiceIs(
    edges: seq<Edge>, sid: string, c: Condition, entry: string, k: string, v: Option<string>, via: Dispatcher)
    requires From(edges, sid) == SwitchEdges(sid, c, entry, k) && entry != k
    ensures ChoiceOf(edges, sid, v, via) == Some(if Enters(c, v, ReadingOf(via), k == DEFAULT_CASE) then entry else k)
  {
    match via
    case ByEdges =>
      FindFrom(edges, sid, v);
      FindFrom(edges, sid, Some(DEFAULT_CASE));
      FindInSwitch(sid, c, entry, k, v);
      FindInSwitch(sid, c, entry, k, Some(DEFAULT_CASE));
    case ByEngine =>
      AddingFrom(edges, sid, []);
      SwitchArcs(sid, c, entry, k);
      FirstOfTwo(Arc(entry, Some(LastLiteral(c))), Arc(k, Some(DEFAULT_CASE)), v);
      FirstOfTwo(Arc(entry, Some(LastLiteral(c))), Arc(k, Some(DEFAULT_CASE)), Some(DEFAULT_CASE));
    case ByRuntime => SwitchTargets(sid, c, entry, k);
    case ByIr => SwitchTargets(sid, c, entry, k);
  }
}
