/** Levels of a finite graph: what level-synchronous layering computes, cycle or not. */
module Levels {
  import opened Collections
  import opened Graphs

  ghost function Preds(rel: Rel, v: string): set<string> {
    set e | e in rel && e.1 == v :: e.0
  }

  lemma PredsAre(rel: Rel, u: string, v: string)
    ensures u in Preds(rel, v) <==> (u, v) in rel
  {
    if (u, v) in rel { assert (u, v).1 == v; }
  }

  /** Edges stay inside the node set. */
  ghost predicate Within(rel: Rel, nodes: set<string>) {
    forall a, b :: (a, b) in rel ==> a in nodes && b in nodes
  }

  /** Nodes whose incoming paths have at most `k` nodes. */
  ghost function Level(rel: Rel, nodes: set<string>, k: nat): set<string> {
    if k == 0 then {} else set v | v in nodes && Preds(rel, v) <= Level(rel, nodes, k - 1)
  }

  lemma {:induction false} LevelGrows(rel: Rel, nodes: set<string>, k: nat)
    ensures Level(rel, nodes, k) <= Level(rel, nodes, k + 1) <= nodes
  {
    if k > 0 { LevelGrows(rel, nodes, k - 1); }
  }

  /** Going back along a path lowers the level. */
  lemma {:induction false} LevelBack(rel: Rel, nodes: set<string>, k: nat, p: seq<string>)
    requires IsPath(rel, p) && p[|p| - 1] in Level(rel, nodes, k)
    ensures |p| <= k && p[0] in Level(rel, nodes, k - |p| + 1)
    decreases |p|
  {
    if |p| > 1 {
      var q := p[..|p| - 1];
      PredsAre(rel, p[|p| - 2], p[|p| - 1]);
      assert (p[|p| - 2], p[|p| - 1]) in rel;
      LevelBack(rel, nodes, k - 1, q);
    }
  }

  /** Outside level `k` a node ends a path of `k + 1` nodes. */
  lemma {:induction false} LongPath(rel: Rel, nodes: set<string>, k: nat, v: string) returns (p: seq<string>)
    requires Within(rel, nodes) && v in nodes && v !in Level(rel, nodes, k)
    ensures IsPath(rel, p) && p[|p| - 1] == v && |p| == k + 1
    ensures forall x :: x in p ==> x in nodes
  {
    if k == 0 {
      p := [v];
    } else {
      var u :| u in Preds(rel, v) && u !in Level(rel, nodes, k - 1);
      PredsAre(rel, u, v);
      var q := LongPath(rel, nodes, k - 1, u);
      p := q + [v];
      forall i | 0 <= i < |p| - 1 ensures (p[i], p[i + 1]) in rel {
        if i < |q| - 1 { assert (q[i], q[i + 1]) in rel; }
      }
    }
  }

  /** Level `k` is exactly the nodes that no path of more than `k` nodes ends at. */
  lemma LevelIsPathBound(rel: Rel, nodes: set<string>, k: nat, v: string)
    requires Within(rel, nodes) && v in nodes
    ensures v in Level(rel, nodes, k) <==> forall p :: IsPath(rel, p) && p[|p| - 1] == v ==> |p| <= k
  {
    if v in Level(rel, nodes, k) {
      forall p | IsPath(rel, p) && p[|p| - 1] == v ensures |p| <= k { LevelBack(rel, nodes, k, p); }
    } else {
      var p := LongPath(rel, nodes, k, v);
    }
  }

  // ---------------------------------------------------------------- where the levels stop growing

  ghost predicate Stable(rel: Rel, nodes: set<string>, k: nat) {
    Level(rel, nodes, k + 1) == Level(rel, nodes, k)
  }

  lemma {:induction false} StableForever(rel: Rel, nodes: set<string>, k: nat, j: nat)
    requires Stable(rel, nodes, k)
    ensures Level(rel, nodes, j) <= Level(rel, nodes, k)
  {
    if j > 0 {
      StableForever(rel, nodes, k, j - 1);
      assert Level(rel, nodes, j) <= Level(rel, nodes, k + 1);
    }
  }

  /** No node of a level lies on a cycle. */
  lemma {:induction false} LevelHasNoCycle(rel: Rel, nodes: set<string>, k: nat, c: string)
    requires c in Level(rel, nodes, k)
    ensures !ReachPlus(rel, c, c)
  {
    if ReachPlus(rel, c, c) {
      var p :| PathBetween(rel, p, c, c) && |p| > 1;
      LevelBack(rel, nodes, k, p);
      LevelHasNoCycle(rel, nodes, k - |p| + 1, c);
    }
  }

  /** A node downstream of a cycle. */
  ghost predicate BehindCycle(rel: Rel, v: string) {
    exists c :: ReachPlus(rel, c, c) && Reach(rel, c, v)
  }

  /** More positions than values: two positions hold the same value. */
  lemma Pigeonhole(p: seq<string>, nodes: set<string>) returns (i: nat, j: nat)
    requires |p| > |nodes| && forall x :: x in p ==> x in nodes
    ensures i < j < |p| && p[i] == p[j]
  {
    SubsetSize(ToSet(p), nodes);
    if NoDup(p) {
      NoDupSize(p);
      assert false;
    }
    i, j :| 0 <= i < j < |p| && p[i] == p[j];
  }

  lemma LeftOverHasCycle(rel: Rel, nodes: set<string>, k: nat, v: string)
    requires Within(rel, nodes) && v in nodes && Stable(rel, nodes, k) && v !in Level(rel, nodes, k)
    ensures BehindCycle(rel, v)
  {
    StableForever(rel, nodes, k, |nodes|);
    var p := LongPath(rel, nodes, |nodes|, v);
    var i, j := Pigeonhole(p, nodes);
    var c := p[i];
    var loop := p[i..j + 1];
    assert PathBetween(rel, loop, c, c) && |loop| > 1 by { hide Level; SubPath(rel, p, i, j + 1); }
    assert PathBetween(rel, p[i..|p|], c, v) by { hide Level; SubPath(rel, p, i, |p|); }
    assert ReachPlus(rel, c, c) && Reach(rel, c, v);
  }

  lemma SubPath(rel: Rel, p: seq<string>, i: nat, j: nat)
    requires IsPath(rel, p) && i < j <= |p|
    ensures PathBetween(rel, p[i..j], p[i], p[j - 1])
  {
    var q := p[i..j];
    forall m | 0 <= m < |q| - 1 ensures (q[m], q[m + 1]) in rel {
      assert q[m] == p[i + m] && q[m + 1] == p[i + m + 1];
    }
  }

  lemma BehindCycleHasNoLevel(rel: Rel, nodes: set<string>, k: nat, v: string)
    requires BehindCycle(rel, v)
    ensures v !in Level(rel, nodes, k)
  {
    var c :| ReachPlus(rel, c, c) && Reach(rel, c, v);
    if v in Level(rel, nodes, k) {
      var p :| PathBetween(rel, p, c, v);
      LevelBack(rel, nodes, k, p);
      LevelHasNoCycle(rel, nodes, k - |p| + 1, c);
      assert false;
    }
  }

  /** The nodes that never get a level are exactly those reachable from some cycle. */
  lemma LeftOverIsBehindCycle(rel: Rel, nodes: set<string>, k: nat, v: string)
    requires Within(rel, nodes) && v in nodes && Stable(rel, nodes, k)
    ensures v !in Level(rel, nodes, k) <==> BehindCycle(rel, v)
  {
    if v !in Level(rel, nodes, k) {
      LeftOverHasCycle(rel, nodes, k, v);
    } else if BehindCycle(rel, v) {
      BehindCycleHasNoLevel(rel, nodes, k, v);
    }
  }

  /** All nodes get a level exactly when there is no cycle. */
  lemma AllLevelledIffAcyclic(rel: Rel, nodes: set<string>, k: nat)
    requires Within(rel, nodes) && Stable(rel, nodes, k)
    ensures Level(rel, nodes, k) == nodes <==> Acyclic(rel)
  {
    LevelGrows(rel, nodes, k);
    if Level(rel, nodes, k) == nodes {
      forall a ensures !ReachPlus(rel, a, a) {
        if a in nodes {
          LevelHasNoCycle(rel, nodes, k, a);
        } else if ReachPlus(rel, a, a) {
          var _ := FirstEdge(rel, a, a);
        }
      }
    } else {
      var v :| v in nodes && v !in Level(rel, nodes, k);
      LeftOverIsBehindCycle(rel, nodes, k, v);
    }
  }
}
