/** Flow graph validation, tm/ana/validator.py. */
module Validator {
  import opened Collections
  import opened Characters
  import opened StringOrder
  import opened Graphs
  import opened Levels
  import opened Planner

  datatype IssueLevel = Error | Warning
  datatype Issue = Issue(level: IssueLevel, code: string, message: string, node: Option<string>)

  /** Empty, or with white space at an end or inside. */
  predicate InvalidId(id: string) {
    id == "" || exists i :: 0 <= i < |id| && IsSpace(id[i])
  }

  function InvalidIdIssue(n: string): Issue {
    Issue(Error, "invalid_id", "node id must be non-empty and without surrounding whitespace", Some(n))
  }
  function SelfLoopIssue(n: string): Issue { Issue(Error, "self_loop", "node cannot reference itself", Some(n)) }
  function UnknownTargetIssue(t: string): Issue {
    Issue(Error, "unknown_target", "edge references undefined node '" + t + "'", Some(t))
  }
  function DuplicateEdgeIssue(n: string, t: string): Issue {
    Issue(Warning, "duplicate_edge", "duplicate edge to '" + t + "'", Some(n))
  }
  function NoEntrypointIssue(): Issue {
    Issue(Error, "no_entrypoint", "no entrypoint nodes (zero indegree) detected", None)
  }
  function ExtraEntrypointIssue(n: string): Issue {
    Issue(Warning, "extra_entrypoint", "additional entrypoint detected", Some(n))
  }
  function UnreachableIssue(n: string): Issue {
    Issue(Error, "unreachable_node", "node is not reachable from any entrypoint", Some(n))
  }
  function CycleIssue(n: Option<string>): Issue { Issue(Error, "cycle_detected", "cycle detected in flow graph", n) }

  // ---------------------------------------------------------------- what must be reported

  ghost function Roots(g: Graph): set<string> {
    set v | v in Nodes(g) && Preds(Edges(g), v) == {}
  }

  /** `v` is the least element of the set. */
  ghost predicate IsLeast(v: string, s: set<string>) {
    v in s && forall u :: u in s ==> Leq(v, u)
  }

  /** The graph repeats the edge from `n` to `t`. */
  ghost predicate Repeats(g: Graph, n: string, t: string) {
    exists k, i, j :: 0 <= k < |g| && g[k].0 == n && 0 <= i < j < |g[k].1| && g[k].1[i] == g[k].1[j] == t
  }

  /** Invalid ids, self loops and repeated edges. */
  ghost predicate NodeIssueOf(g: Graph, i: Issue) {
    || (exists n :: n in Keys(g) && InvalidId(n) && i == InvalidIdIssue(n))
    || (exists n :: (n, n) in Edges(g) && i == SelfLoopIssue(n))
    || (exists n, t :: Repeats(g, n, t) && i == DuplicateEdgeIssue(n, t))
  }

  ghost predicate UnknownIssueOf(g: Graph, i: Issue) {
    exists t :: t in Nodes(g) - Keys(g) && i == UnknownTargetIssue(t)
  }

  /** No entry point, an additional one, or nodes that the first one does not reach. */
  ghost predicate EntryIssueOf(g: Graph, i: Issue) {
    || (Roots(g) == {} && Nodes(g) != {} && i == NoEntrypointIssue())
    || (exists n :: n in Roots(g) && !IsLeast(n, Roots(g)) && i == ExtraEntrypointIssue(n))
    || (exists r, n :: IsLeast(r, Roots(g)) && n in Nodes(g) && !Reach(Edges(g), r, n) && i == UnreachableIssue(n))
  }

  ghost predicate CycleIssueOf(g: Graph, i: Issue) {
    exists n :: n in Nodes(g) && IsLeast(n, Stuck(g)) && i == CycleIssue(Some(n))
  }

  /** Exactly the issues of a graph. */
  ghost predicate Expected(g: Graph, i: Issue) {
    NodeIssueOf(g, i) || UnknownIssueOf(g, i) || EntryIssueOf(g, i) || CycleIssueOf(g, i)
  }

  /** The successors of a node as given. */
  ghost function Given(g: Graph, n: string): seq<string> {
    if k :| 0 <= k < |g| && g[k].0 == n then g[k].1 else []
  }

  /** How often an issue is reported: a self loop once for every occurrence, any other once. */
  ghost function Times(g: Graph, i: Issue): nat {
    if i.node.Some? && i == SelfLoopIssue(i.node.value) then multiset(Given(g, i.node.value))[i.node.value]
    else if Expected(g, i) then 1 else 0
  }

  /** Nodes that lie downstream of a cycle. */
  ghost function Stuck(g: Graph): set<string> {
    set v | v in Nodes(g) && BehindCycle(Edges(g), v)
  }

  // ---------------------------------------------------------------- order of the report

  function Rank(level: IssueLevel): nat { if level.Error? then 0 else 1 }
  function NodeText(i: Issue): string { if i.node.Some? then i.node.value else "" }

  predicate IssueLeq(a: Issue, b: Issue) {
    if Rank(a.level) != Rank(b.level) then Rank(a.level) < Rank(b.level)
    else if a.code != b.code then Leq(a.code, b.code)
    else if NodeText(a) != NodeText(b) then Leq(NodeText(a), NodeText(b))
    else Leq(a.message, b.message)
  }

  lemma IssueLeqTransitive(a: Issue, b: Issue, c: Issue)
    requires IssueLeq(a, b) && IssueLeq(b, c)
    ensures IssueLeq(a, c)
  {
    hide Leq;
    if Rank(a.level) == Rank(b.level) == Rank(c.level) {
      if a.code != b.code && b.code != c.code {
        LeqTransitive(a.code, b.code, c.code);
        if a.code == c.code { LeqAntisymmetric(a.code, b.code); }
      } else if a.code == b.code == c.code {
        var x, y, z := NodeText(a), NodeText(b), NodeText(c);
        if x != y && y != z {
          LeqTransitive(x, y, z);
          if x == z { LeqAntisymmetric(x, y); }
        } else if x == y == z {
          LeqTransitive(a.message, b.message, c.message);
        }
      }
    }
  }

  lemma IssueLeqIsTotalPreorder()
    ensures TotalPreorder(IssueLeq)
  {
    forall x, y ensures IssueLeq(x, y) || IssueLeq(y, x) {
      hide Leq;
      LeqTotal(x.code, y.code);
      LeqTotal(NodeText(x), NodeText(y));
      LeqTotal(x.message, y.message);
    }
    forall x, y, z | IssueLeq(x, y) && IssueLeq(y, z) ensures IssueLeq(x, z) { IssueLeqTransitive(x, y, z); }
  }

  // ---------------------------------------------------------------- the passes

  /** Ids, self loops and repeated edges of the nodes as given. */
  method CheckNodes(g: Graph) returns (issues: seq<Issue>)
    ensures forall i :: i in issues <==> NodeIssueOf(g, i)
    ensures forall i :: multiset(issues)[i] == NodeTimes(g, i)
  {
    hide NodeIssue, NodeIssueOf, NodeCount, CountUpTo, NodeTimes;
    issues := [];
    var k := 0;
    forall i { CountNone(g, i); }
    while k < |g|
      invariant 0 <= k <= |g|
      invariant forall i :: multiset(issues)[i] == CountUpTo(g, k, i)
    {
      var found := CheckNode(g[k].0, g[k].1);
      forall i { CountNext(g, k, i); }
      issues := issues + found;
      k := k + 1;
    }
    forall i ensures multiset(issues)[i] == NodeTimes(g, i) && (i in issues <==> NodeIssueOf(g, i)) {
      CountAll(g, i);
      TimesPositive(g, i);
      assert i in issues <==> i in multiset(issues);
    }
  }

  /** How often the node pass reports an issue. */
  ghost function NodeTimes(g: Graph, i: Issue): nat {
    if i.node.Some? && i == SelfLoopIssue(i.node.value) then multiset(Given(g, i.node.value))[i.node.value]
    else if NodeIssueOf(g, i) then 1 else 0
  }

  /** How often one node's check reports an issue. */
  ghost function NodeCount(n: string, succs: seq<string>, i: Issue): nat {
    if i == SelfLoopIssue(n) then multiset(succs)[n] else if NodeIssue(n, succs, i) then 1 else 0
  }

  ghost function CountUpTo(g: Graph, k: nat, i: Issue): nat
    requires k <= |g|
  {
    if k == 0 then 0 else CountUpTo(g, k - 1, i) + NodeCount(g[k - 1].0, g[k - 1].1, i)
  }

  lemma CountNone(g: Graph, i: Issue)
    ensures CountUpTo(g, 0, i) == 0
  {
  }

  lemma CountNext(g: Graph, k: nat, i: Issue)
    requires k < |g|
    ensures CountUpTo(g, k + 1, i) == CountUpTo(g, k, i) + NodeCount(g[k].0, g[k].1, i)
  {
  }

  /** Issues of a node name it. */
  lemma CountOfOther(n: string, succs: seq<string>, i: Issue)
    requires i.node != Some(n)
    ensures NodeCount(n, succs, i) == 0
  {
  }

  lemma {:induction false} CountFrom(g: Graph, m: nat, k: nat, i: Issue)
    requires m < |g| && k <= |g| && i.node == Some(g[m].0)
    ensures CountUpTo(g, k, i) == if m < k then NodeCount(g[m].0, g[m].1, i) else 0
    decreases k
  {
    hide NodeCount;
    if k > 0 {
      CountFrom(g, m, k - 1, i);
      if m != k - 1 { CountOfOther(g[k - 1].0, g[k - 1].1, i); }
    }
  }

  lemma {:induction false} CountNowhere(g: Graph, k: nat, i: Issue)
    requires k <= |g| && forall m :: 0 <= m < |g| ==> i.node != Some(g[m].0)
    ensures CountUpTo(g, k, i) == 0
  {
    hide NodeCount;
    if k > 0 {
      CountNowhere(g, k - 1, i);
      CountOfOther(g[k - 1].0, g[k - 1].1, i);
    }
  }

  lemma CountAll(g: Graph, i: Issue)
    ensures CountUpTo(g, |g|, i) == NodeTimes(g, i)
  {
    hide NodeIssue, NodeIssueOf, CountUpTo, SelfLoopIssue;
    if m :| 0 <= m < |g| && i.node == Some(g[m].0) {
      CountFrom(g, m, |g|, i);
      GivenIs(g, m);
      if NodeIssue(g[m].0, g[m].1, i) { NodeIssueIn(g, m, i); }
      if NodeIssueOf(g, i) {
        var k := NodeIssueAt(g, i);
        IssueNames(g[k].0, g[k].1, i);
      }
    } else {
      CountNowhere(g, |g|, i);
      if NodeIssueOf(g, i) {
        var k := NodeIssueAt(g, i);
        IssueNames(g[k].0, g[k].1, i);
        assert false;
      }
    }
  }

  lemma GivenIs(g: Graph, m: nat)
    requires m < |g|
    ensures Given(g, g[m].0) == g[m].1
  {
  }

  lemma IssueNames(n: string, succs: seq<string>, i: Issue)
    requires NodeIssue(n, succs, i)
    ensures i.node == Some(n)
  {
  }

  lemma TimesPositive(g: Graph, i: Issue)
    ensures NodeTimes(g, i) > 0 <==> NodeIssueOf(g, i)
  {
    if i.node.Some? && i == SelfLoopIssue(i.node.value) { LoopIsIssue(g, i.node.value); }
  }

  /** A self loop is the issue of a node that lists itself. */
  lemma LoopIsIssue(g: Graph, n: string)
    ensures multiset(Given(g, n))[n] > 0 <==> NodeIssueOf(g, SelfLoopIssue(n))
  {
    CodesDiffer();
    var s := Given(g, n);
    assert n in s <==> n in multiset(s);
    if (n, n) in Edges(g) {
      var k :| 0 <= k < |g| && g[k].0 == n && n in g[k].1;
      GivenIs(g, k);
    }
    if n in s {
      var k :| 0 <= k < |g| && g[k].0 == n && g[k].1 == s;
      assert (n, n) in Edges(g);
    }
  }

  /** The codes tell the passes apart. */
  lemma CodesDiffer()
    ensures "invalid_id" != "self_loop" && "self_loop" != "duplicate_edge" && "invalid_id" != "duplicate_edge"
    ensures var node := {"invalid_id", "self_loop", "duplicate_edge"};
      var entry := {"no_entrypoint", "extra_entrypoint", "unreachable_node"};
      && "unknown_target" !in node + entry && "cycle_detected" !in node + entry
      && node !! entry && "unknown_target" != "cycle_detected"
  {
    assert "self_loop"[0] == 's' && "invalid_id"[0] == 'i' && "duplicate_edge"[0] == 'd';
    assert "no_entrypoint"[0] == 'n' && "extra_entrypoint"[0] == 'e';
    assert "unreachable_node"[2] == 'r' && "unknown_target"[2] == 'k' && "cycle_detected"[0] == 'c';
    assert "unreachable_node"[0] == 'u' == "unknown_target"[0];
  }

  /** The issues of one node and its successor list. */
  ghost predicate NodeIssue(n: string, succs: seq<string>, i: Issue) {
    || (InvalidId(n) && i == InvalidIdIssue(n))
    || (n in succs && i == SelfLoopIssue(n))
    || (exists t :: Twice(succs, t) && i == DuplicateEdgeIssue(n, t))
  }

  lemma NodeIssueIn(g: Graph, m: nat, i: Issue)
    requires m < |g| && NodeIssue(g[m].0, g[m].1, i)
    ensures NodeIssueOf(g, i)
  {
    hide InvalidId, InvalidIdIssue, SelfLoopIssue, DuplicateEdgeIssue;
    var n := g[m].0;
    if InvalidId(n) && i == InvalidIdIssue(n) {
      assert n in Keys(g);
    } else if n in g[m].1 && i == SelfLoopIssue(n) {
      assert (n, n) in Edges(g);
    } else {
      var t :| Twice(g[m].1, t) && i == DuplicateEdgeIssue(n, t);
      assert Repeats(g, n, t);
    }
  }

  lemma NodeIssueAt(g: Graph, i: Issue) returns (m: nat)
    requires NodeIssueOf(g, i)
    ensures m < |g| && NodeIssue(g[m].0, g[m].1, i)
  {
    hide InvalidId, InvalidIdIssue, SelfLoopIssue, DuplicateEdgeIssue;
    if n :| n in Keys(g) && InvalidId(n) && i == InvalidIdIssue(n) {
      m :| 0 <= m < |g| && g[m].0 == n;
    } else if n :| (n, n) in Edges(g) && i == SelfLoopIssue(n) {
      m :| 0 <= m < |g| && g[m].0 == n && n in g[m].1;
    } else {
      var n, t :| Repeats(g, n, t) && i == DuplicateEdgeIssue(n, t);
      var k, a, b :| 0 <= k < |g| && g[k].0 == n && 0 <= a < b < |g[k].1| && g[k].1[a] == g[k].1[b] == t;
      assert Twice(g[k].1, t);
      m := k;
    }
  }

  method CheckNode(n: string, succs: seq<string>) returns (issues: seq<Issue>)
    ensures forall i :: multiset(issues)[i] == NodeCount(n, succs, i)
  {
    hide InvalidId, Made, NodeCount, Loops, SortedBy, InvalidIdIssue, SelfLoopIssue, DuplicateEdgeIssue, Scan, Twice;
    issues := if InvalidId(n) then [InvalidIdIssue(n)] else [];
    ghost var first := issues;
    var seen: set<string> := {};
    var duplicates: set<string> := {};
    var k := 0;
    ScanNothing(n, succs, first);
    while k < |succs|
      invariant 0 <= k <= |succs|
      invariant Scan(n, succs[..k], first, issues, seen, duplicates)
    {
      var s := succs[k];
      ScanNext(n, succs, k, first, issues, seen, duplicates);
      if s == n {
        issues := issues + [SelfLoopIssue(n)];
      }
      if s in seen {
        duplicates := duplicates + {s};
      } else {
        seen := seen + {s};
      }
      k := k + 1;
    }
    assert succs[..k] == succs;
    var sorted := SortSet(duplicates);
    ScanDone(n, succs, first, issues, seen, duplicates);
    issues := ReportEach(issues, sorted, (t: string) => DuplicateEdgeIssue(n, t));
    forall i { NodeCounts(n, succs, sorted, i); }
  }

  /** Where the loop over the successors stands: a self loop reported per occurrence, targets seen once and twice. */
  ghost predicate Scan(
    n: string, part: seq<string>, first: seq<Issue>, issues: seq<Issue>, seen: set<string>, twice: set<string>) {
    && issues == first + Loops(n, multiset(part)[n])
    && (forall t :: t in seen <==> t in part) && (forall t :: t in twice <==> Twice(part, t))
  }

  lemma ScanNothing(n: string, succs: seq<string>, first: seq<Issue>)
    ensures Scan(n, succs[..0], first, first, {}, {})
  {
  }

  lemma ScanDone(
    n: string, succs: seq<string>, first: seq<Issue>, issues: seq<Issue>, seen: set<string>, twice: set<string>)
    requires Scan(n, succs, first, issues, seen, twice)
    ensures issues == first + Loops(n, multiset(succs)[n]) && forall t :: t in twice <==> Twice(succs, t)
  {
  }

  lemma ScanNext(
    n: string, succs: seq<string>, k: nat, first: seq<Issue>, issues: seq<Issue>, seen: set<string>, twice: set<string>)
    requires k < |succs| && Scan(n, succs[..k], first, issues, seen, twice)
    ensures var s := succs[k];
      Scan(n, succs[..k + 1], first, if s == n then issues + [SelfLoopIssue(n)] else issues,
        if s in seen then seen else seen + {s}, if s in seen then twice + {s} else twice)
  {
    hide Twice, Loops, SelfLoopIssue;
    var s, part := succs[k], succs[..k];
    assert succs[..k + 1] == part + [s];
    LoopsNext(n, multiset(part)[n], first);
    forall t ensures Twice(succs[..k + 1], t) <==> Twice(part, t) || (t == s && s in part) { TwiceStep(succs, k, t); }
  }

  function Loops(n: string, count: nat): seq<Issue> { seq(count, _ => SelfLoopIssue(n)) }

  lemma LoopsNext(n: string, count: nat, first: seq<Issue>)
    ensures Loops(n, count + 1) == Loops(n, count) + [SelfLoopIssue(n)]
    ensures first + Loops(n, count + 1) == (first + Loops(n, count)) + [SelfLoopIssue(n)]
  {
  }

  lemma {:induction false} LoopsCount(n: string, count: nat, i: Issue)
    ensures multiset(Loops(n, count))[i] == if i == SelfLoopIssue(n) then count else 0
  {
    if count > 0 {
      LoopsCount(n, count - 1, i);
      LoopsNext(n, count - 1, []);
    }
  }

  /** One issue for each of the given nodes. */
  function Made(nodes: seq<string>, make: string -> Issue): seq<Issue> {
    seq(|nodes|, k requires 0 <= k < |nodes| => make(nodes[k]))
  }

  lemma MadeNoDup(nodes: seq<string>, make: string -> Issue)
    requires NoDup(nodes) && forall x, y :: make(x) == make(y) ==> x == y
    ensures NoDup(Made(nodes, make))
  {
  }

  lemma MadeCount(nodes: seq<string>, make: string -> Issue, i: Issue)
    requires NoDup(nodes) && forall x, y :: make(x) == make(y) ==> x == y
    ensures multiset(Made(nodes, make))[i] == if (exists n :: n in nodes && i == make(n)) then 1 else 0
    ensures i in Made(nodes, make) <==> exists n :: n in nodes && i == make(n)
  {
    var s := Made(nodes, make);
    if n :| n in nodes && i == make(n) {
      var k :| 0 <= k < |nodes| && nodes[k] == n;
      assert s[k] == i;
    }
    CountsMember(s, i);
  }

  /** Different targets give different messages. */
  lemma MakesDiffer(n: string)
    ensures forall x, y :: DuplicateEdgeIssue(n, x) == DuplicateEdgeIssue(n, y) ==> x == y
    ensures forall x, y :: UnknownTargetIssue(x) == UnknownTargetIssue(y) ==> x == y
  {
    forall x, y | DuplicateEdgeIssue(n, x) == DuplicateEdgeIssue(n, y) ensures x == y {
      var p, q := "duplicate edge to '", "'";
      assert (p + x + q)[|p|..|p + x + q| - 1] == x && (p + y + q)[|p|..|p + y + q| - 1] == y;
    }
  }

  lemma NodeCounts(n: string, succs: seq<string>, sorted: seq<string>, i: Issue)
    requires NoDup(sorted) && forall t :: t in sorted <==> Twice(succs, t)
    ensures var first := if InvalidId(n) then [InvalidIdIssue(n)] else [];
      multiset(first + Loops(n, multiset(succs)[n]) + Made(sorted, (t: string) => DuplicateEdgeIssue(n, t)))[i] ==
      NodeCount(n, succs, i)
  {
    hide InvalidId, Loops, Made;
    MakesDiffer(n);
    CodesDiffer();
    LoopsCount(n, multiset(succs)[n], i);
    MadeCount(sorted, (t: string) => DuplicateEdgeIssue(n, t), i);
    assert multiset([InvalidIdIssue(n)])[i] == if i == InvalidIdIssue(n) then 1 else 0;
  }

  lemma TwiceStep(s: seq<string>, k: nat, t: string)
    requires k < |s|
    ensures Twice(s[..k + 1], t) <==> Twice(s[..k], t) || (t == s[k] && s[k] in s[..k])
  {
    var a, b := s[..k], s[..k + 1];
    if Twice(b, t) {
      var i, j :| 0 <= i < j < |b| && b[i] == b[j] == t;
      assert a[i] == b[i];
      if j < k { assert a[j] == b[j]; }
    }
    if Twice(a, t) {
      var i, j :| 0 <= i < j < |a| && a[i] == a[j] == t;
      assert b[i] == a[i] && b[j] == a[j];
    }
    if t == s[k] && s[k] in a {
      var i :| 0 <= i < |a| && a[i] == t;
      assert b[i] == t && b[k] == t;
    }
  }

  /** Depth-first reachability with an explicit stack. */
  method Visit(adj: Adjacency, root: string) returns (visited: set<string>)
    requires Deduplicated(adj) && root in adj
    ensures forall v :: v in visited <==> Reach(Pairs(adj), root, v)
    ensures visited <= adj.Keys
  {
    ghost var rel := Pairs(adj);
    visited := {};
    var stack := [root];
    ReachSelf(rel, root);
    while stack != []
      invariant root in visited || root in stack
      invariant forall v :: v in visited || v in stack ==> v in adj && Reach(rel, root, v)
      invariant forall a, b :: a in visited && (a, b) in rel ==> b in visited || b in stack
      decreases adj.Keys - visited, |stack|
    {
      var top := |stack| - 1;
      var node, rest := stack[top], stack[..top];
      assert forall x :: x in stack ==> x == node || x in rest;
      stack := rest;
      if node in visited {
        continue;
      }
      visited := visited + {node};
      forall b | b in adj[node] ensures Reach(rel, root, b) {
        assert (node, b) in rel;
        ReachStep(rel, root, node, b);
      }
      stack := stack + adj[node];
    }
    forall v | Reach(rel, root, v) ensures v in visited {
      var p :| PathBetween(rel, p, root, v);
      ClosedUnderPath(rel, visited, p);
    }
  }

  /** One issue per listed node, in order. */
  method ReportEach(issues0: seq<Issue>, nodes: seq<string>, make: string -> Issue) returns (issues: seq<Issue>)
    ensures issues == issues0 + Made(nodes, make)
  {
    issues := issues0;
    var k := 0;
    while k < |nodes|
      invariant 0 <= k <= |nodes|
      invariant issues == issues0 + Made(nodes[..k], make)
    {
      assert Made(nodes[..k + 1], make) == Made(nodes[..k], make) + [make(nodes[k])];
      SeqPlus(issues0, Made(nodes[..k], make), [make(nodes[k])]);
      issues := issues + [make(nodes[k])];
      k := k + 1;
    }
    assert nodes[..|nodes|] == nodes;
  }

  /** Missing and additional entry points, and what the first entry point does not reach. */
  method CheckEntrypoints(g: Graph, adj: Adjacency, indegree: map<string, int>) returns (issues: seq<Issue>)
    requires Deduplicated(adj) && adj.Keys == Nodes(g) && Pairs(adj) == Edges(g) && CountsPreds(indegree, adj, {})
    ensures NoDup(issues) && forall i :: i in issues <==> EntryIssueOf(g, i)
  {
    hide Pairs, Edges, Nodes, Preds, Waiting, Roots, Deduplicated, Reach, SortedBy, EntryIssueOf, Made;
    issues := [];
    var rootSet := set v | v in indegree && indegree[v] == 0;
    RootsAre(g, adj, indegree, rootSet);
    var roots := SortSet(rootSet);
    if roots == [] {
      if adj.Keys != {} {
        issues := [NoEntrypointIssue()];
      }
      forall i { NoRootIssuesAre(g, roots, i); }
      return;
    }
    assert roots[0] in rootSet;
    issues := ReportEach([], roots[1..], ExtraEntrypointIssue);
    var visited := Visit(adj, roots[0]);
    var lost := SortSet(adj.Keys - visited);
    issues := ReportEach(issues, lost, UnreachableIssue);
    assert [] + Made(roots[1..], ExtraEntrypointIssue) == Made(roots[1..], ExtraEntrypointIssue);
    EntryMade(roots[1..], lost);
    forall i { EntryIssuesAre(g, roots, lost, i); }
  }

  lemma EntryMade(extra: seq<string>, lost: seq<string>)
    requires NoDup(extra) && NoDup(lost)
    ensures var s := Made(extra, ExtraEntrypointIssue) + Made(lost, UnreachableIssue);
      NoDup(s) && forall i :: i in s <==>
        (exists n :: n in extra && i == ExtraEntrypointIssue(n)) || (exists n :: n in lost && i == UnreachableIssue(n))
  {
    var a, b := Made(extra, ExtraEntrypointIssue), Made(lost, UnreachableIssue);
    MadeNoDup(extra, ExtraEntrypointIssue);
    MadeNoDup(lost, UnreachableIssue);
    forall i ensures i in a <==> exists n :: n in extra && i == ExtraEntrypointIssue(n) {
      MadeCount(extra, ExtraEntrypointIssue, i);
    }
    forall i ensures i in b <==> exists n :: n in lost && i == UnreachableIssue(n) {
      MadeCount(lost, UnreachableIssue, i);
    }
    assert "extra_entrypoint"[0] != "unreachable_node"[0];
    assert ToSet(a) !! ToSet(b);
    NoDupAppend(a, b);
  }

  lemma NoRootIssuesAre(g: Graph, roots: seq<string>, i: Issue)
    requires Lists(roots, Roots(g)) && roots == []
    ensures EntryIssueOf(g, i) <==> Nodes(g) != {} && i == NoEntrypointIssue()
  {
    assert forall v :: v in Roots(g) ==> v in roots;
  }

  lemma RootsAre(g: Graph, adj: Adjacency, indegree: map<string, int>, roots: set<string>)
    requires adj.Keys == Nodes(g) && Pairs(adj) == Edges(g) && CountsPreds(indegree, adj, {})
    requires roots == set v | v in indegree && indegree[v] == 0
    ensures roots == Roots(g)
  {
    forall v ensures v in roots <==> v in Roots(g) { WaitingForNothing(adj, v, {}); }
  }

  lemma FirstIsLeast(roots: seq<string>, s: set<string>)
    requires Lists(roots, s) && roots != []
    ensures IsLeast(roots[0], s)
    ensures forall n :: n in roots[1..] <==> n in s && !IsLeast(n, s)
  {
    LeqTotal(roots[0], roots[0]);
    forall u | u in s ensures Leq(roots[0], u) {
      var i :| 0 <= i < |roots| && roots[i] == u;
      if i > 0 { assert Leq(roots[0], roots[i]); }
    }
    forall n ensures n in roots[1..] <==> n in s && !IsLeast(n, s) {
      assert n in roots <==> n == roots[0] || n in roots[1..];
      if n in s && IsLeast(n, s) { LeqAntisymmetric(n, roots[0]); }
    }
  }

  lemma LeastUnique(a: string, b: string, s: set<string>)
    requires IsLeast(a, s) && IsLeast(b, s)
    ensures a == b
  {
    LeqAntisymmetric(a, b);
  }

  lemma EntryIssuesAre(g: Graph, roots: seq<string>, lost: seq<string>, i: Issue)
    requires Lists(roots, Roots(g)) && roots != []
    requires forall n :: n in lost <==> n in Nodes(g) && !Reach(Edges(g), roots[0], n)
    ensures EntryIssueOf(g, i) <==>
      || (exists n :: n in roots[1..] && i == ExtraEntrypointIssue(n))
      || (exists n :: n in lost && i == UnreachableIssue(n))
  {
    FirstIsLeast(roots, Roots(g));
    assert roots[0] in Roots(g);
    if r, n :| IsLeast(r, Roots(g)) && n in Nodes(g) && !Reach(Edges(g), r, n) && i == UnreachableIssue(n) {
      LeastUnique(r, roots[0], Roots(g));
      assert n in lost;
    }
    if n :| n in lost && i == UnreachableIssue(n) {
      assert IsLeast(roots[0], Roots(g)) && !Reach(Edges(g), roots[0], n);
    }
  }

  /** The second layering pass: a cycle is reported at the least node that was left over. */
  method CheckCycles(g: Graph, adj: Adjacency, indegree: map<string, int>) returns (issues: seq<Issue>)
    requires Deduplicated(adj) && adj.Keys == Nodes(g) && Pairs(adj) == Edges(g) && CountsPreds(indegree, adj, {})
    ensures NoDup(issues) && forall i :: i in issues <==> CycleIssueOf(g, i)
  {
    hide Pairs, Edges, Nodes, Preds, Waiting, Deduplicated, SortedBy, Level, Stuck, CycleIssueOf;
    issues := [];
    var layers, processed, work := LayerGraph(adj, indegree);
    ghost var n := |layers|;
    var stuck := set v | v in work && work[v] > 0;
    assert stuck == Stuck(g) by { forall v { LeftOverWaits(g, adj, n, v); } }
    NothingStuck(g, n);
    if processed != |adj| {
      var left := SortSet(stuck);
      ListsNonEmpty(left, stuck);
      issues := [CycleIssue(Some(left[0]))];
      forall i { StuckIssueIs(g, left, i); }
    } else {
      forall i { NothingStuckIssue(g, i); }
    }
  }

  lemma NothingStuck(g: Graph, n: nat)
    requires Stable(Edges(g), Nodes(g), n)
    ensures |Level(Edges(g), Nodes(g), n)| == |Nodes(g)| <==> Stuck(g) == {}
    ensures Stuck(g) == {} <==> Acyclic(Edges(g))
  {
    hide Edges, Level;
    EdgesWithin(g);
    LevelSize(Edges(g), Nodes(g), n);
    AllLevelledIffAcyclic(Edges(g), Nodes(g), n);
    forall v | v in Nodes(g) ensures v in Level(Edges(g), Nodes(g), n) <==> v !in Stuck(g) {
      LeftOverIsBehindCycle(Edges(g), Nodes(g), n, v);
    }
  }

  lemma ListsNonEmpty(r: seq<string>, s: set<string>)
    requires Lists(r, s) && s != {}
    ensures r != []
  {
    var x :| x in s;
    assert x in r;
  }

  lemma StuckIssueIs(g: Graph, left: seq<string>, i: Issue)
    requires Lists(left, Stuck(g)) && left != []
    ensures CycleIssueOf(g, i) <==> i == CycleIssue(Some(left[0]))
  {
    FirstIsLeast(left, Stuck(g));
    if m :| m in Nodes(g) && IsLeast(m, Stuck(g)) && i == CycleIssue(Some(m)) { LeastUnique(m, left[0], Stuck(g)); }
  }

  lemma NothingStuckIssue(g: Graph, i: Issue)
    requires Stuck(g) == {}
    ensures !CycleIssueOf(g, i)
  {
  }

  /** After layering, the nodes with a positive count are exactly those behind a cycle. */
  lemma LeftOverWaits(g: Graph, adj: Adjacency, n: nat, v: string)
    requires adj.Keys == Nodes(g) && Pairs(adj) == Edges(g) && Stable(Edges(g), Nodes(g), n)
    ensures v in adj && Waiting(adj, v, Level(Edges(g), Nodes(g), n)) > 0 <==> v in Stuck(g)
  {
    EdgesWithin(g);
    WaitingForNothing(adj, v, Level(Edges(g), Nodes(g), n));
    if v in adj {
      LeftOverIsBehindCycle(Edges(g), Nodes(g), n, v);
      assert v in Level(Edges(g), Nodes(g), n + 1) <==> Preds(Edges(g), v) <= Level(Edges(g), Nodes(g), n);
    }
  }

  /** An issue belongs to one pass only. */
  lemma PassesApart(g: Graph, i: Issue)
    ensures NodeIssueOf(g, i) ==> !UnknownIssueOf(g, i) && !EntryIssueOf(g, i) && !CycleIssueOf(g, i)
    ensures UnknownIssueOf(g, i) ==> !EntryIssueOf(g, i) && !CycleIssueOf(g, i)
    ensures EntryIssueOf(g, i) ==> !CycleIssueOf(g, i)
  {
    hide Edges, Nodes, Roots, Stuck, Reach, InvalidId, Repeats, IsLeast, Keys;
    CodesDiffer();
  }

  /** The whole report: exactly the expected issues, each as often as specified, errors first. */
  method Validate(g: Graph) returns (report: seq<Issue>)
    ensures forall i :: i in report <==> Expected(g, i)
    ensures forall i :: multiset(report)[i] == Times(g, i)
    ensures SortedBy(report, IssueLeq)
    ensures forall i, j :: 0 <= i < j < |report| && report[j].level.Error? ==> report[i].level.Error?
  {
    hide Made, NodeIssueOf, UnknownIssueOf, EntryIssueOf, CycleIssueOf, NodeTimes;
    hide Times, Nodes, Edges, Keys, SortedBy, Leq;
    var nodes := CheckNodes(g);
    var adj := BuildAdjacency(g);
    var unknown := SortSet(adj.Keys - Keys(g));
    var undefined := ReportEach([], unknown, UnknownTargetIssue);
    var indegree := CountIndegree(adj);
    var entry := CheckEntrypoints(g, adj, indegree);
    var cycle := CheckCycles(g, adj, indegree);
    var issues := nodes + undefined + entry + cycle;
    IssueLeqIsTotalPreorder();
    SortSorts(issues, IssueLeq);
    SortPermutes(issues, IssueLeq);
    report := Sort(issues, IssueLeq);
    ErrorsFirst(report);
    assert [] + Made(unknown, UnknownTargetIssue) == Made(unknown, UnknownTargetIssue);
    forall i ensures multiset(report)[i] == Times(g, i) && (i in report <==> Expected(g, i)) {
      UnknownCount(g, unknown, i);
      CountsMember(entry, i);
      CountsMember(cycle, i);
      assert multiset(issues)[i] ==
        multiset(nodes)[i] + multiset(undefined)[i] + multiset(entry)[i] + multiset(cycle)[i];
      TimesAre(g, i);
      assert i in report <==> i in multiset(report);
    }
  }

  /** Every error comes before every warning. */
  lemma ErrorsFirst(report: seq<Issue>)
    requires SortedBy(report, IssueLeq)
    ensures forall i, j :: 0 <= i < j < |report| && report[j].level.Error? ==> report[i].level.Error?
  {
    hide Leq;
    forall i, j | 0 <= i < j < |report| && report[j].level.Error? ensures report[i].level.Error? {
      assert IssueLeq(report[i], report[j]);
    }
  }

  /** An id that is empty, or holds a blank, a tab or a line break anywhere, is reported; one of visible ASCII
      characters is not. */
  lemma InvalidIdsReported(g: Graph, n: string)
    requires n in Keys(g)
    ensures n == "" || ' ' in n || '\t' in n || '\n' in n || '\r' in n ==> Expected(g, InvalidIdIssue(n))
    ensures n != "" && (forall i :: 0 <= i < |n| ==> '!' <= n[i] <= '~') ==> !Expected(g, InvalidIdIssue(n))
  {
    hide Expected;
    InvalidIdExpected(g, n);
    assert IsSpace(' ') && IsSpace('\t') && IsSpace('\n') && IsSpace('\r');
  }

  lemma InvalidIdExpected(g: Graph, n: string)
    requires n in Keys(g)
    ensures Expected(g, InvalidIdIssue(n)) <==> InvalidId(n)
  {
    hide Edges, Nodes, Roots, Stuck, Reach, Repeats, IsLeast, InvalidId;
    CodesDiffer();
  }

  lemma UnknownCount(g: Graph, unknown: seq<string>, i: Issue)
    requires Lists(unknown, Nodes(g) - Keys(g))
    ensures multiset(Made(unknown, UnknownTargetIssue))[i] == if UnknownIssueOf(g, i) then 1 else 0
  {
    MakesDiffer("");
    MadeCount(unknown, UnknownTargetIssue, i);
  }

  /** The counts of the passes add up. */
  lemma TimesAre(g: Graph, i: Issue)
    ensures Times(g, i) == NodeTimes(g, i) + (if UnknownIssueOf(g, i) then 1 else 0) +
      (if EntryIssueOf(g, i) then 1 else 0) + (if CycleIssueOf(g, i) then 1 else 0)
    ensures Times(g, i) > 0 <==> Expected(g, i)
  {
    hide NodeIssueOf, UnknownIssueOf, EntryIssueOf, CycleIssueOf;
    PassesApart(g, i);
    TimesPositive(g, i);
    if i.node.Some? && i == SelfLoopIssue(i.node.value) { SelfLoopsApart(g, i.node.value); }
  }

  lemma SelfLoopsApart(g: Graph, n: string)
    ensures var i := SelfLoopIssue(n); !UnknownIssueOf(g, i) && !EntryIssueOf(g, i) && !CycleIssueOf(g, i)
  {
    hide Edges, Nodes, Roots, Stuck, Reach, IsLeast, Keys;
    CodesDiffer();
  }

  // ---------------------------------------------------------------- what an error-free report means

  ghost predicate NoErrors(g: Graph) {
    forall i :: Expected(g, i) ==> i.level.Warning?
  }

  /** Well formed: valid ids, no undefined node, no cycle, and one root that reaches everything. */
  ghost predicate Sound(g: Graph) {
    && (forall n :: n in Keys(g) ==> !InvalidId(n))
    && Nodes(g) == Keys(g)
    && Acyclic(Edges(g))
    && (Nodes(g) == {} || exists r :: Roots(g) == {r} && forall v :: v in Nodes(g) ==> Reach(Edges(g), r, v))
  }

  lemma {:induction false} LeastExists(s: set<string>) returns (v: string)
    requires s != {}
    ensures IsLeast(v, s)
    decreases |s|
  {
    var x :| x in s;
    LeqTotal(x, x);
    if s == {x} {
      v := x;
    } else {
      var rest := s - {x};
      assert s == rest + {x};
      var y := LeastExists(rest);
      LeqTotal(x, y);
      v := if Leq(x, y) then x else y;
      forall u | u in s ensures Leq(v, u) {
        if u != x && v == x { LeqTransitive(x, y, u); }
      }
    }
  }

  /** A root is reachable only from itself. */
  lemma RootIsOnlyRoot(g: Graph, r: string, q: string)
    requires q in Roots(g) && Reach(Edges(g), r, q)
    ensures r == q
  {
    var p :| PathBetween(Edges(g), p, r, q);
    if |p| > 1 {
      assert (p[|p| - 2], q) in Edges(g);
      PredsAre(Edges(g), p[|p| - 2], q);
      assert false;
    }
  }

  lemma AcyclicMeansNothingStuck(g: Graph)
    ensures Acyclic(Edges(g)) <==> Stuck(g) == {}
  {
    if !Acyclic(Edges(g)) {
      var c :| ReachPlus(Edges(g), c, c);
      var next := FirstEdge(Edges(g), c, c);
      EdgesWithin(g);
      ReachSelf(Edges(g), c);
      assert BehindCycle(Edges(g), c);
      assert c in Stuck(g);
    }
  }

  lemma ErrorFreeIsSound(g: Graph)
    requires NoErrors(g)
    ensures Sound(g)
  {
    hide Edges, InvalidId, Reach, BehindCycle;
    forall n | n in Keys(g) ensures !InvalidId(n) { assert InvalidId(n) ==> NodeIssueOf(g, InvalidIdIssue(n)); }
    forall t | t in Nodes(g) ensures t in Keys(g) { assert t !in Keys(g) ==> UnknownIssueOf(g, UnknownTargetIssue(t)); }
    AcyclicMeansNothingStuck(g);
    if Stuck(g) != {} { StuckIsReported(g); }
    if Nodes(g) != {} { ErrorFreeHasRoot(g); }
  }

  lemma StuckIsReported(g: Graph)
    requires Stuck(g) != {}
    ensures !NoErrors(g)
  {
    var v := LeastExists(Stuck(g));
    assert CycleIssueOf(g, CycleIssue(Some(v)));
  }

  lemma ErrorFreeHasRoot(g: Graph)
    requires NoErrors(g) && Nodes(g) != {}
    ensures exists r :: Roots(g) == {r} && forall v :: v in Nodes(g) ==> Reach(Edges(g), r, v)
  {
    hide Edges, InvalidId, Reach, BehindCycle;
    assert Roots(g) == {} ==> EntryIssueOf(g, NoEntrypointIssue());
    var r := LeastExists(Roots(g));
    forall v | v in Nodes(g) ensures Reach(Edges(g), r, v) {
      assert !Reach(Edges(g), r, v) ==> EntryIssueOf(g, UnreachableIssue(v));
    }
    forall q | q in Roots(g) ensures q == r { RootIsOnlyRoot(g, r, q); }
    assert Roots(g) == {r};
  }

  lemma SoundIsErrorFree(g: Graph)
    requires Sound(g)
    ensures NoErrors(g)
  {
    hide NodeIssueOf, UnknownIssueOf, EntryIssueOf, CycleIssueOf;
    forall i | Expected(g, i) ensures i.level.Warning? {
      if NodeIssueOf(g, i) { SoundNodeIssues(g, i); }
      else if UnknownIssueOf(g, i) { SoundUnknownIssues(g, i); }
      else if EntryIssueOf(g, i) { SoundEntryIssues(g, i); }
      else { SoundCycleIssues(g, i); }
    }
  }

  lemma SoundNodeIssues(g: Graph, i: Issue)
    requires Sound(g) && NodeIssueOf(g, i)
    ensures i.level.Warning?
  {
    hide Edges, InvalidId;
    forall n ensures (n, n) !in Edges(g) { if (n, n) in Edges(g) { ReachEdge(Edges(g), n, n); assert false; } }
  }

  lemma SoundUnknownIssues(g: Graph, i: Issue)
    requires Sound(g)
    ensures !UnknownIssueOf(g, i)
  {
    hide Nodes, Keys;
  }

  lemma SoundEntryIssues(g: Graph, i: Issue)
    requires Sound(g) && EntryIssueOf(g, i)
    ensures i.level.Warning?
  {
    hide Edges, Reach, Acyclic, InvalidId;
    if Nodes(g) != {} {
      var r :| Roots(g) == {r} && forall v :: v in Nodes(g) ==> Reach(Edges(g), r, v);
      assert r in Roots(g);
      forall q | IsLeast(q, Roots(g)) ensures q == r {}
    }
  }

  lemma SoundCycleIssues(g: Graph, i: Issue)
    requires Sound(g)
    ensures !CycleIssueOf(g, i)
  {
    AcyclicMeansNothingStuck(g);
  }

  /** A report is free of errors exactly when the graph is well formed. */
  lemma ErrorFreeExactly(g: Graph)
    ensures NoErrors(g) <==> Sound(g)
  {
    if NoErrors(g) { ErrorFreeIsSound(g); } else if Sound(g) { SoundIsErrorFree(g); }
  }

  /** Validate, then plan what has no errors (tm/cli/flow.py): planning never fails there. */
  method Analyze(g: Graph) returns (report: seq<Issue>, plan: Option<PlanResult>)
    ensures forall i :: i in report <==> Expected(g, i)
    ensures plan.Some? <==> Sound(g)
    ensures plan.Some? ==> plan.value.Planned? && Layered(g, plan.value.layers)
  {
    report := Validate(g);
    ErrorFreeExactly(g);
    plan := None;
    if forall i :: i in report ==> i.level.Warning? {
      assert NoErrors(g) by { forall i | Expected(g, i) ensures i.level.Warning? { assert i in report; } }
      var r := Plan(g);
      plan := Some(r);
    }
  }
}
