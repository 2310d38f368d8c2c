/** Topological layering of a flow graph, tm/ana/planner.py. */
module Planner {
  import opened Collections
  import opened StringOrder
  import opened Graphs
  import opened Levels

  /** A graph as given: each node once, with its successors in any multiplicity. */
  type Graph = g: seq<(string, seq<string>)> | forall i, j :: 0 <= i < j < |g| ==> g[i].0 != g[j].0
    witness []

  ghost function Edges(g: Graph): Rel {
    set i, s | 0 <= i < |g| && s in g[i].1 :: (g[i].0, s)
  }

  function Keys(g: Graph): set<string> {
    set i | 0 <= i < |g| :: g[i].0
  }

  ghost function Nodes(g: Graph): set<string> {
    Keys(g) + (set e | e in Edges(g) :: e.1)
  }

  lemma EdgesWithin(g: Graph)
    ensures Within(Edges(g), Nodes(g))
  {
    forall a, b | (a, b) in Edges(g) ensures a in Nodes(g) && b in Nodes(g) {
      var i :| 0 <= i < |g| && g[i].0 == a && b in g[i].1;
      assert (a, b).1 in Nodes(g);
    }
  }

  /** Successor lists without repetition. */
  type Adjacency = map<string, seq<string>>

  ghost function Pairs(adj: Adjacency): Rel {
    set a, b | a in adj && b in adj[a] :: (a, b)
  }

  ghost predicate Deduplicated(adj: Adjacency) {
    forall a :: a in adj ==> NoDup(adj[a]) && forall b :: b in adj[a] ==> b in adj
  }

  /** Drop repeated successors, keeping the first occurrence. */
  method Dedup(s: seq<string>) returns (r: seq<string>)
    ensures NoDup(r) && forall x :: x in r <==> x in s
  {
    r := [];
    var i := 0;
    while i < |s|
      invariant 0 <= i <= |s|
      invariant NoDup(r) && forall x :: x in r <==> x in s[..i]
    {
      assert s[..i + 1] == s[..i] + [s[i]];
      if s[i] !in r {
        r := r + [s[i]];
      }
      i := i + 1;
    }
    assert s[..|s|] == s;
  }

  /** The successor lists of the given nodes, and everything that occurs as a successor. */
  method CollectSuccessors(g: Graph) returns (adj: Adjacency, targets: set<string>)
    ensures adj.Keys == Keys(g)
    ensures forall k :: 0 <= k < |g| ==> NoDup(adj[g[k].0]) && forall x :: x in adj[g[k].0] <==> x in g[k].1
    ensures forall s :: s in targets <==> exists k :: 0 <= k < |g| && s in g[k].1
  {
    adj, targets := map[], {};
    var i := 0;
    while i < |g|
      invariant 0 <= i <= |g|
      invariant forall n :: n in adj <==> exists k :: 0 <= k < i && g[k].0 == n
      invariant forall k :: 0 <= k < i ==> NoDup(adj[g[k].0]) && forall x :: x in adj[g[k].0] <==> x in g[k].1
      invariant forall s :: s in targets <==> exists k :: 0 <= k < i && s in g[k].1
    {
      var succs := Dedup(g[i].1);
      adj := adj[g[i].0 := succs];
      targets := targets + (set s | s in g[i].1);
      i := i + 1;
    }
  }

  /** `adjacency.setdefault(node, ())` for every node. */
  function Complete(adj: Adjacency, targets: set<string>): Adjacency {
    map n | n in adj.Keys + targets :: if n in adj then adj[n] else []
  }

  method BuildAdjacency(g: Graph) returns (adj: Adjacency)
    ensures Deduplicated(adj) && adj.Keys == Nodes(g) && Pairs(adj) == Edges(g)
  {
    var given, targets := CollectSuccessors(g);
    adj := Complete(given, targets);
    CompleteIs(g, given, targets);
  }

  lemma CompleteIs(g: Graph, given: Adjacency, targets: set<string>)
    requires given.Keys == Keys(g)
    requires forall k :: 0 <= k < |g| ==> NoDup(given[g[k].0]) && forall x :: x in given[g[k].0] <==> x in g[k].1
    requires forall s :: s in targets <==> exists k :: 0 <= k < |g| && s in g[k].1
    ensures var adj := Complete(given, targets);
            Deduplicated(adj) && adj.Keys == Nodes(g) && Pairs(adj) == Edges(g)
  {
    var adj := Complete(given, targets);
    CompletePairs(g, given, targets);
    TargetsAre(g, targets);
    forall a | a in adj ensures NoDup(adj[a]) && forall b :: b in adj[a] ==> b in adj {
      if a in given {
        var k :| 0 <= k < |g| && g[k].0 == a;
        forall b | b in adj[a] ensures b in adj { assert b in g[k].1; }
      }
    }
  }

  lemma TargetsAre(g: Graph, targets: set<string>)
    requires forall s :: s in targets <==> exists k :: 0 <= k < |g| && s in g[k].1
    ensures targets == set e | e in Edges(g) :: e.1
  {
    forall s | s in targets ensures s in set e | e in Edges(g) :: e.1 {
      var k :| 0 <= k < |g| && s in g[k].1;
      assert (g[k].0, s) in Edges(g) && (g[k].0, s).1 == s;
    }
  }

  lemma CompletePairs(g: Graph, given: Adjacency, targets: set<string>)
    requires given.Keys == Keys(g)
    requires forall k :: 0 <= k < |g| ==> forall x :: x in given[g[k].0] <==> x in g[k].1
    ensures Pairs(Complete(given, targets)) == Edges(g)
  {
    var adj := Complete(given, targets);
    forall a, b ensures (a, b) in Pairs(adj) <==> (a, b) in Edges(g) {
      if (a, b) in Edges(g) {
        var k :| 0 <= k < |g| && g[k].0 == a && b in g[k].1;
        assert b in given[g[k].0];
      }
      if (a, b) in Pairs(adj) {
        assert a in given && b in given[a];
        var k :| 0 <= k < |g| && g[k].0 == a;
        assert b in g[k].1;
      }
    }
  }

  /** How many predecessors of a node are not in `gone`. */
  ghost function Waiting(adj: Adjacency, v: string, gone: set<string>): nat {
    |Preds(Pairs(adj), v) - gone|
  }

  lemma PairsAre(adj: Adjacency, a: string, b: string)
    ensures (a, b) in Pairs(adj) <==> a in adj && b in adj[a]
  {
  }

  lemma WaitingStep(adj: Adjacency, v: string, gone: set<string>, node: string)
    requires node in adj && node !in gone
    ensures Waiting(adj, v, gone) == Waiting(adj, v, gone + {node}) + (if v in adj[node] then 1 else 0)
  {
    hide Pairs, Preds;
    PredsAre(Pairs(adj), node, v);
    PairsAre(adj, node, v);
    var all := Preds(Pairs(adj), v);
    if v in adj[node] {
      assert all - gone == (all - (gone + {node})) + {node};
    } else {
      assert all - gone == all - (gone + {node});
    }
  }

  lemma WaitingForNothing(adj: Adjacency, v: string, gone: set<string>)
    ensures Waiting(adj, v, gone) == 0 <==> Preds(Pairs(adj), v) <= gone
  {
    hide Pairs, Preds;
    var all := Preds(Pairs(adj), v);
    if all - gone == {} {
      forall u | u in all ensures u in gone { assert u in gone || u in all - gone; }
    }
  }

  lemma WaitingForAll(adj: Adjacency, v: string)
    ensures Waiting(adj, v, adj.Keys) == 0
  {
    forall u | u in Preds(Pairs(adj), v) ensures u in adj.Keys { PredsAre(Pairs(adj), u, v); }
    WaitingForNothing(adj, v, adj.Keys);
  }

  ghost predicate CountsPreds(indegree: map<string, int>, adj: Adjacency, gone: set<string>) {
    indegree.Keys == adj.Keys && forall v :: v in adj ==> indegree[v] == Waiting(adj, v, gone)
  }

  method CountIndegree(adj: Adjacency) returns (indegree: map<string, int>)
    requires Deduplicated(adj)
    ensures CountsPreds(indegree, adj, {})
  {
    hide Waiting;
    indegree := map v | v in adj :: 0;
    var left := adj.Keys;
    forall v | v in adj { WaitingForAll(adj, v); }
    while left != {}
      invariant left <= adj.Keys
      invariant CountsPreds(indegree, adj, left)
      decreases |left|
    {
      var node :| node in left;
      assert (left - {node}) + {node} == left;
      indegree := CountTargets(adj, node, indegree, left - {node});
      left := left - {node};
    }
  }

  method CountTargets(adj: Adjacency, node: string, indegree0: map<string, int>, ghost gone: set<string>)
      returns (indegree: map<string, int>)
    requires Deduplicated(adj) && node in adj && node !in gone
    requires CountsPreds(indegree0, adj, gone + {node})
    ensures CountsPreds(indegree, adj, gone)
  {
    hide Waiting;
    indegree := indegree0;
    var i := 0;
    while i < |adj[node]|
      invariant 0 <= i <= |adj[node]|
      invariant indegree.Keys == adj.Keys
      invariant forall v :: v in adj ==>
        indegree[v] == if v in adj[node][..i] then Waiting(adj, v, gone) else Waiting(adj, v, gone + {node})
    {
      var target := adj[node][i];
      assert adj[node][..i + 1] == adj[node][..i] + [target];
      assert target !in adj[node][..i];
      WaitingStep(adj, target, gone, node);
      indegree := indegree[target := indegree[target] + 1];
      i := i + 1;
    }
    assert adj[node][..|adj[node]|] == adj[node];
    forall v | v in adj { WaitingStep(adj, v, gone, node); }
  }

  /** Release the successors of one node; collect those whose last predecessor it was. */
  method Release(
    adj: Adjacency, node: string, indegree0: map<string, int>, ready0: set<string>, ghost gone: set<string>)
      returns (indegree: map<string, int>, ready: set<string>)
    requires Deduplicated(adj) && node in adj && node !in gone
    requires CountsPreds(indegree0, adj, gone)
    ensures CountsPreds(indegree, adj, gone + {node})
    ensures forall v :: v in ready <==> v in ready0 || (v in adj[node] && Waiting(adj, v, gone + {node}) == 0)
  {
    hide Waiting;
    indegree, ready := indegree0, ready0;
    var i := 0;
    while i < |adj[node]|
      invariant 0 <= i <= |adj[node]|
      invariant indegree.Keys == adj.Keys
      invariant forall v :: v in adj ==>
        indegree[v] == if v in adj[node][..i] then Waiting(adj, v, gone + {node}) else Waiting(adj, v, gone)
      invariant forall v :: v in ready <==>
        v in ready0 || (v in adj[node][..i] && Waiting(adj, v, gone + {node}) == 0)
    {
      var target := adj[node][i];
      assert adj[node][..i + 1] == adj[node][..i] + [target];
      assert target !in adj[node][..i];
      WaitingStep(adj, target, gone, node);
      var degree := indegree[target] - 1;
      indegree := indegree[target := degree];
      if degree == 0 {
        ready := ready + {target};
      }
      i := i + 1;
    }
    assert adj[node][..|adj[node]|] == adj[node];
    forall v | v in adj { WaitingStep(adj, v, gone, node); }
  }

  /** The nodes of layer `k`: those that level `k + 1` adds. */
  ghost function Layer(rel: Rel, nodes: set<string>, k: nat): set<string> {
    Level(rel, nodes, k + 1) - Level(rel, nodes, k)
  }

  /** Level-synchronous layering: layer after layer until none is left. */
  method LayerGraph(adj: Adjacency, indegree0: map<string, int>)
      returns (layers: seq<seq<string>>, processed: nat, indegree: map<string, int>)
    requires Deduplicated(adj) && CountsPreds(indegree0, adj, {})
    ensures Stable(Pairs(adj), adj.Keys, |layers|)
    ensures forall k :: 0 <= k < |layers| ==> layers[k] != [] && Lists(layers[k], Layer(Pairs(adj), adj.Keys, k))
    ensures processed == |Level(Pairs(adj), adj.Keys, |layers|)|
    ensures CountsPreds(indegree, adj, Level(Pairs(adj), adj.Keys, |layers|))
  {
    hide Waiting, Pairs, Preds, Level, Lists, Layer, Deduplicated;
    ghost var rel, nodes := Pairs(adj), adj.Keys;
    indegree := indegree0;
    var roots := set v | v in indegree && indegree[v] == 0;
    assert roots == Layer(rel, nodes, 0) by { forall v { FirstLayer(adj, indegree, v); } }
    var current := SortSet(roots);
    layers, processed := [], 0;
    NothingYet(rel, nodes);
    while current != []
      invariant Lists(current, Layer(rel, nodes, |layers|))
      invariant forall k :: 0 <= k < |layers| ==> layers[k] != [] && Lists(layers[k], Layer(rel, nodes, k))
      invariant processed == |Level(rel, nodes, |layers|)|
      invariant CountsPreds(indegree, adj, Level(rel, nodes, |layers|))
      decreases nodes - Level(rel, nodes, |layers|)
    {
      ghost var k := |layers|;
      ghost var below := Level(rel, nodes, k);
      LevelGrows(rel, nodes, k);
      NextLevel(rel, nodes, k, current);
      layers := layers + [current];
      processed := processed + |current|;
      var ready;
      indegree, ready := ReleaseLayer(adj, current, indegree, below);
      assert ready == Layer(rel, nodes, k + 1) by { forall v { NextLayer(rel, nodes, k, v); } }
      current := SortSet(ready);
    }
    StableWhenEmpty(rel, nodes, |layers|, current);
  }

  lemma NothingYet(rel: Rel, nodes: set<string>)
    ensures Level(rel, nodes, 0) == {}
  {
  }

  /** A layer listed in full takes one level to the next. */
  lemma NextLevel(rel: Rel, nodes: set<string>, k: nat, current: seq<string>)
    requires Lists(current, Layer(rel, nodes, k)) && current != []
    ensures Level(rel, nodes, k) + ToSet(current) == Level(rel, nodes, k + 1)
    ensures |Level(rel, nodes, k)| + |current| == |Level(rel, nodes, k + 1)|
    ensures nodes - Level(rel, nodes, k + 1) < nodes - Level(rel, nodes, k)
    ensures NoDup(current) && forall v :: v in current ==> v in nodes && v !in Level(rel, nodes, k)
  {
    hide Level, SortedBy;
    LevelGrows(rel, nodes, k);
    var below, above := Level(rel, nodes, k), Level(rel, nodes, k + 1);
    assert ToSet(current) == Layer(rel, nodes, k);
    ListsSize(current, Layer(rel, nodes, k));
    assert below + (above - below) == above;
    assert current[0] in Layer(rel, nodes, k);
    assert current[0] in nodes - below && current[0] !in nodes - above;
  }

  lemma FirstLayer(adj: Adjacency, indegree: map<string, int>, v: string)
    requires CountsPreds(indegree, adj, {})
    ensures v in indegree && indegree[v] == 0 <==> v in Layer(Pairs(adj), adj.Keys, 0)
  {
    hide Pairs, Preds, Waiting;
    WaitingForNothing(adj, v, {});
    NothingYet(Pairs(adj), adj.Keys);
  }

  lemma NextLayer(rel: Rel, nodes: set<string>, k: nat, v: string)
    ensures v in Layer(rel, nodes, k + 1) <==>
      v in nodes && Preds(rel, v) <= Level(rel, nodes, k + 1) && !(Preds(rel, v) <= Level(rel, nodes, k))
  {
    hide Preds;
  }

  lemma StableWhenEmpty(rel: Rel, nodes: set<string>, k: nat, current: seq<string>)
    requires current == [] && Lists(current, Layer(rel, nodes, k))
    ensures Stable(rel, nodes, k)
  {
    LevelGrows(rel, nodes, k);
    forall v | v in Level(rel, nodes, k + 1) ensures v in Level(rel, nodes, k) {
      assert v in Layer(rel, nodes, k) ==> v in current;
    }
  }

  /** Release a whole layer; ready are the nodes whose predecessors are now all gone. */
  method ReleaseLayer(adj: Adjacency, current: seq<string>, indegree0: map<string, int>, ghost below: set<string>)
      returns (indegree: map<string, int>, ready: set<string>)
    requires Deduplicated(adj) && NoDup(current)
    requires forall v :: v in current ==> v in adj && v !in below
    requires CountsPreds(indegree0, adj, below)
    ensures CountsPreds(indegree, adj, below + ToSet(current))
    ensures forall v :: v in ready <==>
      v in adj && Preds(Pairs(adj), v) <= below + ToSet(current) && !(Preds(Pairs(adj), v) <= below)
  {
    hide Pairs, Preds, Waiting;
    ghost var rel := Pairs(adj);
    indegree, ready := indegree0, {};
    ghost var gone := below;
    var i := 0;
    while i < |current|
      invariant 0 <= i <= |current|
      invariant gone == below + ToSet(current[..i])
      invariant CountsPreds(indegree, adj, gone)
      invariant forall v :: v in ready <==> v in adj && Preds(rel, v) <= gone && !(Preds(rel, v) <= below)
    {
      var node := current[i];
      assert current[..i + 1] == current[..i] + [node];
      assert node !in current[..i];
      indegree, ready := Release(adj, node, indegree, ready, gone);
      forall v ensures v in ready <==> v in adj && Preds(rel, v) <= gone + {node} && !(Preds(rel, v) <= below) {
        ReadyStep(adj, node, gone, below, v);
      }
      ToSetAppend(current[..i], [node]);
      gone := gone + {node};
      i := i + 1;
    }
    assert current[..|current|] == current;
  }

  /** A node becomes ready with `node` if that was its last missing predecessor. */
  lemma ReadyStep(adj: Adjacency, node: string, gone: set<string>, below: set<string>, v: string)
    requires Deduplicated(adj) && node in adj && node !in gone && below <= gone
    ensures (v in adj && Preds(Pairs(adj), v) <= gone + {node} && !(Preds(Pairs(adj), v) <= below)) <==>
      ((v in adj && Preds(Pairs(adj), v) <= gone && !(Preds(Pairs(adj), v) <= below))
       || (v in adj[node] && Waiting(adj, v, gone + {node}) == 0))
  {
    hide Pairs, Preds, Waiting;
    PredsAre(Pairs(adj), node, v);
    PairsAre(adj, node, v);
    WaitingForNothing(adj, v, gone + {node});
  }

  // ---------------------------------------------------------------- plan

  datatype Stats = Stats(nodes: nat, depth: nat, maxWidth: nat)
  datatype PlanResult = CycleDetected | Planned(layers: seq<seq<string>>, stats: Stats)

  /** The longest path that ends at `v` has `n` nodes. */
  ghost predicate LongestPathTo(rel: Rel, v: string, n: nat) {
    && (exists p :: IsPath(rel, p) && p[|p| - 1] == v && |p| == n)
    && forall p :: IsPath(rel, p) && p[|p| - 1] == v ==> |p| <= n
  }

  /** The position of a node's layer is the number of edges of the longest path ending there; every
      node is in exactly one layer; layers are listed in ascending order. */
  ghost predicate Layered(g: Graph, layers: seq<seq<string>>) {
    && (forall k :: 0 <= k < |layers| ==> layers[k] != [] && NoDup(layers[k]) && SortedBy(layers[k], Leq))
    && (forall v :: v in Nodes(g) <==> InSome(layers, v))
    && (forall k, v :: 0 <= k < |layers| && v in layers[k] ==> LongestPathTo(Edges(g), v, k + 1))
  }

  ghost predicate InSome(layers: seq<seq<string>>, v: string) {
    exists k :: 0 <= k < |layers| && v in layers[k]
  }

  method Plan(g: Graph) returns (r: PlanResult)
    ensures r.CycleDetected? <==> !Acyclic(Edges(g))
    ensures r.Planned? ==> Layered(g, r.layers)
    ensures r.Planned? ==>
      && r.stats.nodes == |Nodes(g)| && r.stats.depth == |r.layers|
      && (forall k :: 0 <= k < |r.layers| ==> |r.layers[k]| <= r.stats.maxWidth)
      && (r.layers == [] ==> r.stats.maxWidth == 0)
      && (r.layers != [] ==> exists k :: 0 <= k < |r.layers| && |r.layers[k]| == r.stats.maxWidth)
  {
    var adj := BuildAdjacency(g);
    EdgesWithin(g);
    var indegree := CountIndegree(adj);
    var layers, processed, _ := LayerGraph(adj, indegree);
    AllLevelledIffAcyclic(Edges(g), Nodes(g), |layers|);
    LevelGrows(Edges(g), Nodes(g), |layers|);
    LevelSize(Edges(g), Nodes(g), |layers|);
    if processed != |adj| {
      return CycleDetected;
    }
    var width := 0;
    var k := 0;
    while k < |layers|
      invariant 0 <= k <= |layers|
      invariant forall j :: 0 <= j < k ==> |layers[j]| <= width
      invariant k == 0 ==> width == 0
      invariant k > 0 ==> exists j :: 0 <= j < k && |layers[j]| == width
    {
      if |layers[k]| > width {
        width := |layers[k]|;
      }
      k := k + 1;
    }
    LayersLayered(g, layers);
    r := Planned(layers, Stats(|adj|, |layers|, width));
  }

  lemma LevelSize(rel: Rel, nodes: set<string>, k: nat)
    ensures Level(rel, nodes, k) <= nodes
    ensures |Level(rel, nodes, k)| == |nodes| <==> Level(rel, nodes, k) == nodes
  {
    LevelGrows(rel, nodes, k);
    var l := Level(rel, nodes, k);
    assert nodes == l + (nodes - l);
    assert |nodes| == |l| + |nodes - l|;
  }

  lemma LayersLayered(g: Graph, layers: seq<seq<string>>)
    requires Level(Edges(g), Nodes(g), |layers|) == Nodes(g)
    requires forall k :: 0 <= k < |layers| ==> layers[k] != [] && Lists(layers[k], Layer(Edges(g), Nodes(g), k))
    ensures Layered(g, layers)
  {
    hide Level, Edges, Nodes;
    var rel, nodes := Edges(g), Nodes(g);
    EdgesWithin(g);
    forall v ensures v in nodes <==> InSome(layers, v) {
      if v in nodes {
        var k := FindLayer(rel, nodes, |layers|, v);
        assert v in layers[k];
      }
      if InSome(layers, v) {
        var k :| 0 <= k < |layers| && v in layers[k];
        assert Lists(layers[k], Layer(rel, nodes, k));
        LayerPath(rel, nodes, k, v);
      }
    }
    forall k, v | 0 <= k < |layers| && v in layers[k] ensures LongestPathTo(rel, v, k + 1) {
      assert Lists(layers[k], Layer(rel, nodes, k));
      LayerPath(rel, nodes, k, v);
    }
    forall k | 0 <= k < |layers| ensures NoDup(layers[k]) && SortedBy(layers[k], Leq) {
      assert Lists(layers[k], Layer(rel, nodes, k));
    }
  }

  lemma LayerPath(rel: Rel, nodes: set<string>, k: nat, v: string)
    requires Within(rel, nodes) && v in Layer(rel, nodes, k)
    ensures v in nodes && LongestPathTo(rel, v, k + 1)
  {
    LevelGrows(rel, nodes, k);
    LevelIsPathBound(rel, nodes, k + 1, v);
    var p := LongPath(rel, nodes, k, v);
  }

  lemma {:induction false} FindLayer(rel: Rel, nodes: set<string>, n: nat, v: string) returns (k: nat)
    requires v in Level(rel, nodes, n)
    ensures k < n && v in Layer(rel, nodes, k)
  {
    if v in Level(rel, nodes, n - 1) { k := FindLayer(rel, nodes, n - 1, v); } else { k := n - 1; }
  }

  // ---------------------------------------------------------------- the depth is optimal

  /** Any assignment of numbers below `d` that increases along edges. */
  ghost predicate ValidLayering(rel: Rel, nodes: set<string>, level: map<string, nat>, d: nat) {
    && (forall v :: v in nodes ==> v in level && level[v] < d)
    && (forall a, b :: (a, b) in rel ==> a in level && b in level && level[a] < level[b])
  }

  lemma {:induction false} LayeringAlongPath(
    rel: Rel, nodes: set<string>, level: map<string, nat>, d: nat, p: seq<string>)
    requires ValidLayering(rel, nodes, level, d) && IsPath(rel, p) && p[|p| - 1] in nodes
    ensures p[|p| - 1] in level && level[p[|p| - 1]] >= |p| - 1
    decreases |p|
  {
    if |p| > 1 {
      var a, b := p[|p| - 2], p[|p| - 1];
      assert (a, b) in rel;
      var q := p[..|p| - 1];
      LayeringPath(rel, level, q);
    }
  }

  lemma {:induction false} LayeringPath(rel: Rel, level: map<string, nat>, p: seq<string>)
    requires forall a, b :: (a, b) in rel ==> a in level && b in level && level[a] < level[b]
    requires IsPath(rel, p) && p[|p| - 1] in level
    ensures level[p[|p| - 1]] >= |p| - 1
    decreases |p|
  {
    if |p| > 1 {
      assert (p[|p| - 2], p[|p| - 1]) in rel;
      LayeringPath(rel, level, p[..|p| - 1]);
    }
  }

  /** The layers are a valid layering, and none has fewer layers. */
  lemma DepthIsLeast(g: Graph, layers: seq<seq<string>>, level: map<string, nat>, d: nat)
    requires Layered(g, layers) && ValidLayering(Edges(g), Nodes(g), level, d)
    ensures |layers| <= d
  {
    if layers != [] {
      var k := |layers| - 1;
      var v := layers[k][0];
      assert v in layers[k];
      assert InSome(layers, v);
      assert v in Nodes(g) && LongestPathTo(Edges(g), v, k + 1);
      var p :| IsPath(Edges(g), p) && p[|p| - 1] == v && |p| == k + 1;
      LayeringAlongPath(Edges(g), Nodes(g), level, d, p);
    }
  }

  lemma LayersIncrease(g: Graph, layers: seq<seq<string>>, i: nat, j: nat, a: string, b: string)
    requires Layered(g, layers) && i < |layers| && j < |layers| && a in layers[i] && b in layers[j]
    requires (a, b) in Edges(g)
    ensures i < j
  {
    assert LongestPathTo(Edges(g), a, i + 1) && LongestPathTo(Edges(g), b, j + 1);
    var p :| IsPath(Edges(g), p) && p[|p| - 1] == a && |p| == i + 1;
    var q := p + [b];
    forall m | 0 <= m < |q| - 1 ensures (q[m], q[m + 1]) in Edges(g) {
      if m < |p| - 1 { assert (p[m], p[m + 1]) in Edges(g); }
    }
    assert IsPath(Edges(g), q) && q[|q| - 1] == b;
  }
}
