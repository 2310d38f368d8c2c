/** Small facts about sequences, sets and maps that every other module uses. */
module Collections {
  datatype Option<+T> = None | Some(value: T)

  /** All elements are different. */
  predicate NoDup<T(==)>(s: seq<T>) {
    forall i, j :: 0 <= i < j < |s| ==> s[i] != s[j]
  }

  function ToSet<T>(s: seq<T>): set<T> { set x | x in s }

  lemma SeqPlus<T>(a: seq<T>, b: seq<T>, c: seq<T>)
    ensures (a + b) + c == a + (b + c)
  {
  }

  lemma MapPut<K, V>(a: map<K, V>, k: K, v: V)
    ensures a + map[k := v] == a[k := v]
  {
  }

  lemma MapPlus<K, V>(a: map<K, V>, b: map<K, V>, c: map<K, V>)
    ensures (a + b) + c == a + (b + c)
  {
  }

  lemma NoDupAppend<T>(a: seq<T>, b: seq<T>)
    requires NoDup(a) && NoDup(b) && ToSet(a) !! ToSet(b)
    ensures NoDup(a + b)
  {
    forall i, j | 0 <= i < j < |a + b| ensures (a + b)[i] != (a + b)[j] {
      if i < |a| <= j { assert a[i] in ToSet(a) && b[j - |a|] in ToSet(b); }
    }
  }

  lemma ToSetAppend<T>(a: seq<T>, b: seq<T>)
    ensures ToSet(a + b) == ToSet(a) + ToSet(b)
  {
  }

  lemma MapEmpty<K, V>(m: map<K, V>)
    ensures m + map[] == m && map[] + m == m
  {
  }

  function Lookup<K, V>(m: map<K, V>, k: K): Option<V> {
    if k in m then Some(m[k]) else None
  }

  lemma SameLookups<K, V>(a: map<K, V>, b: map<K, V>)
    requires forall k :: Lookup(a, k) == Lookup(b, k)
    ensures a == b
  {
    forall k ensures (k in a <==> k in b) && (k in a ==> a[k] == b[k]) { assert Lookup(a, k) == Lookup(b, k); }
  }

  lemma SeqShift<T>(a: seq<T>, b: seq<T>)
    requires b != []
    ensures (a + [b[0]]) + b[1..] == a + b
  {
  }

  lemma {:induction false} NoDupSize<T>(s: seq<T>)
    requires NoDup(s)
    ensures |ToSet(s)| == |s|
  {
    if s != [] {
      NoDupSize(s[1..]);
      assert ToSet(s) == {s[0]} + ToSet(s[1..]);
      assert s[0] !in ToSet(s[1..]);
    }
  }

  lemma SubsetSize<T>(a: set<T>, b: set<T>)
    requires a <= b
    ensures |a| <= |b|
  {
    assert b == a + (b - a);
  }

  lemma {:induction false} CountsOnce<T>(a: seq<T>, x: T)
    requires NoDup(a)
    ensures multiset(a)[x] <= 1
  {
    if a != [] {
      CountsOnce(a[1..], x);
      assert a == [a[0]] + a[1..];
      if x == a[0] { assert x !in a[1..]; assert x !in multiset(a[1..]); }
    }
  }

  /** A sequence without repetition holds each element once. */
  lemma CountsMember<T>(a: seq<T>, x: T)
    requires NoDup(a)
    ensures multiset(a)[x] == if x in a then 1 else 0
  {
    CountsOnce(a, x);
    assert x in a <==> x in multiset(a);
  }

  /** The element occurs at two positions. */
  ghost predicate Twice<T>(s: seq<T>, x: T) {
    exists i, j :: 0 <= i < j < |s| && s[i] == s[j] == x
  }

  lemma TwiceAppend<T>(a: seq<T>, b: seq<T>, x: T)
    ensures Twice(a + b, x) <==> Twice(a, x) || Twice(b, x) || (x in a && x in b)
  {
    var s := a + b;
    if i, j :| 0 <= i < j < |s| && s[i] == s[j] == x {
      if j < |a| { assert a[i] == a[j] == x; }
      else if i >= |a| { assert b[i - |a|] == b[j - |a|] == x; }
    }
    if i, j :| 0 <= i < j < |a| && a[i] == a[j] == x { assert s[i] == s[j] == x; }
    if i, j :| 0 <= i < j < |b| && b[i] == b[j] == x { assert s[|a| + i] == s[|a| + j] == x; }
    if x in a && x in b {
      var i :| 0 <= i < |a| && a[i] == x;
      var j :| 0 <= j < |b| && b[j] == x;
      assert s[i] == s[|a| + j] == x;
    }
  }
}
