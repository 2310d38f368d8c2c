/** Finite directed graphs as sets of pairs: paths, reachability, cycles and orders. */
module Graphs {
  import opened Collections

  type Rel = set<(string, string)>

  ghost predicate IsPath(rel: Rel, p: seq<string>) {
    p != [] && forall i :: 0 <= i < |p| - 1 ==> (p[i], p[i + 1]) in rel
  }

  ghost predicate PathBetween(rel: Rel, p: seq<string>, a: string, b: string) {
    IsPath(rel, p) && p[0] == a && p[|p| - 1] == b
  }

  /** There is a path, possibly of a single node. */
  ghost predicate Reach(rel: Rel, a: string, b: string) {
    exists p :: PathBetween(rel, p, a, b)
  }

  /** There is a path with at least one edge. */
  ghost predicate ReachPlus(rel: Rel, a: string, b: string) {
    exists p :: PathBetween(rel, p, a, b) && |p| > 1
  }

  ghost predicate Acyclic(rel: Rel) {
    forall a :: !ReachPlus(rel, a, a)
  }

  lemma ReachSelf(rel: Rel, a: string)
    ensures Reach(rel, a, a)
  {
    assert PathBetween(rel, [a], a, a);
  }

  lemma ReachEdge(rel: Rel, a: string, b: string)
    requires (a, b) in rel
    ensures Reach(rel, a, b) && ReachPlus(rel, a, b)
  {
    var p := [a, b];
    assert PathBetween(rel, p, a, b) && |p| > 1;
  }

  lemma JoinPaths(rel: Rel, p: seq<string>, q: seq<string>, a: string, b: string, c: string)
    requires PathBetween(rel, p, a, b) && PathBetween(rel, q, b, c)
    ensures PathBetween(rel, p + q[1..], a, c)
  {
    var r := p + q[1..];
    forall i | 0 <= i < |r| - 1 ensures (r[i], r[i + 1]) in rel {
      if i >= |p| - 1 { assert r[i] == q[i - |p| + 1] && r[i + 1] == q[i - |p| + 2]; }
    }
  }

  lemma ReachTrans(rel: Rel, a: string, b: string, c: string)
    requires Reach(rel, a, b) && Reach(rel, b, c)
    ensures Reach(rel, a, c)
  {
    var p :| PathBetween(rel, p, a, b);
    var q :| PathBetween(rel, q, b, c);
    JoinPaths(rel, p, q, a, b, c);
  }

  /** A path and a further edge. */
  lemma ReachStep(rel: Rel, a: string, b: string, c: string)
    requires Reach(rel, a, b) && (b, c) in rel
    ensures Reach(rel, a, c) && ReachPlus(rel, a, c)
  {
    var p :| PathBetween(rel, p, a, b);
    var q := [b, c];
    assert PathBetween(rel, q, b, c);
    JoinPaths(rel, p, q, a, b, c);
    assert |p + q[1..]| > 1;
  }

  lemma PlusIsReach(rel: Rel, a: string, b: string)
    requires ReachPlus(rel, a, b)
    ensures Reach(rel, a, b)
  {
  }

  /** Reachability decomposes at the first edge. */
  lemma FirstEdge(rel: Rel, a: string, b: string) returns (next: string)
    requires ReachPlus(rel, a, b)
    ensures (a, next) in rel && Reach(rel, next, b)
  {
    var p :| PathBetween(rel, p, a, b) && |p| > 1;
    next := p[1];
    assert PathBetween(rel, p[1..], next, b);
  }

  /** A set that is closed under successors contains everything reachable from its members. */
  lemma {:induction false} ClosedUnderPath(rel: Rel, s: set<string>, p: seq<string>)
    requires IsPath(rel, p) && p[0] in s
    requires forall a, b :: a in s && (a, b) in rel ==> b in s
    ensures p[|p| - 1] in s
  {
    if |p| > 1 {
      assert (p[0], p[1]) in rel;
      ClosedUnderPath(rel, s, p[1..]);
    }
  }

  // ---------------------------------------------------------------- orders

  ghost predicate Before(order: seq<string>, a: string, b: string) {
    exists i, j :: 0 <= i < j < |order| && order[i] == a && order[j] == b
  }

  lemma BeforeLeft(x: seq<string>, y: seq<string>, a: string, b: string)
    requires Before(x, a, b)
    ensures Before(x + y, a, b)
  {
    var i, j :| 0 <= i < j < |x| && x[i] == a && x[j] == b;
    assert (x + y)[i] == a && (x + y)[j] == b;
  }

  lemma BeforeRight(x: seq<string>, y: seq<string>, a: string, b: string)
    requires Before(y, a, b)
    ensures Before(x + y, a, b)
  {
    var i, j :| 0 <= i < j < |y| && y[i] == a && y[j] == b;
    assert (x + y)[|x| + i] == a && (x + y)[|x| + j] == b;
  }

  lemma BeforeAcross(x: seq<string>, y: seq<string>, a: string, b: string)
    requires a in x && b in y
    ensures Before(x + y, a, b)
  {
    var i :| 0 <= i < |x| && x[i] == a;
    var j :| 0 <= j < |y| && y[j] == b;
    assert (x + y)[i] == a && (x + y)[|x| + j] == b;
  }

  /** All edges go forward in the order. */
  ghost predicate Forward(rel: Rel, order: seq<string>) {
    forall a, b :: (a, b) in rel ==> Before(order, a, b)
  }

  lemma {:induction false} ForwardPath(rel: Rel, order: seq<string>, p: seq<string>)
    requires NoDup(order) && Forward(rel, order) && IsPath(rel, p) && |p| > 1
    ensures Before(order, p[0], p[|p| - 1])
  {
    assert (p[0], p[1]) in rel;
    if |p| > 2 {
      ForwardPath(rel, order, p[1..]);
      var i, j :| 0 <= i < j < |order| && order[i] == p[0] && order[j] == p[1];
      var k, m :| 0 <= k < m < |order| && order[k] == p[1] && order[m] == p[|p| - 1];
      assert j == k;
    }
  }

  /** A relation that goes forward in some order has no cycle. */
  lemma ForwardIsAcyclic(rel: Rel, order: seq<string>)
    requires NoDup(order) && Forward(rel, order)
    ensures Acyclic(rel)
  {
    forall a | ReachPlus(rel, a, a) ensures false {
      var p :| PathBetween(rel, p, a, a) && |p| > 1;
      ForwardPath(rel, order, p);
    }
  }
}
