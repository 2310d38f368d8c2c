/** Paths into nested documents: prefixes, and paths of which neither is a prefix of the other. */
module Paths {
  predicate Prefix<T(==)>(p: seq<T>, q: seq<T>) { |p| <= |q| && q[..|p|] == p }

  predicate Comparable<T(==)>(p: seq<T>, q: seq<T>) { Prefix(p, q) || Prefix(q, p) }

  lemma HeadsDiffer<T>(p: seq<T>, q: seq<T>)
    requires p != [] && q != [] && p[0] != q[0]
    ensures !Comparable(p, q)
  {
    assert |p| <= |q| ==> q[..|p|][0] == q[0];
    assert |q| <= |p| ==> p[..|q|][0] == p[0];
  }

  lemma PrefixTail<T>(p: seq<T>, q: seq<T>)
    requires p != [] && q != [] && p[0] == q[0]
    ensures Prefix(p, q) <==> Prefix(p[1..], q[1..])
  {
    if |p| <= |q| {
      assert q[..|p|] == [q[0]] + q[1..][..|p| - 1];
      assert p == [p[0]] + p[1..];
      assert q[..|p|][1..] == q[1..][..|p| - 1];
    }
  }

  lemma ComparableUnder<T>(e: T, p: seq<T>, q: seq<T>)
    ensures Comparable([e] + p, [e] + q) <==> Comparable(p, q)
  {
    hide Prefix;
    assert ([e] + p)[1..] == p && ([e] + q)[1..] == q;
    PrefixTail([e] + p, [e] + q);
    PrefixTail([e] + q, [e] + p);
  }
}
