/** Sorting: the code-point order of strings and a stable insertion sort over any total preorder. */
module StringOrder {
  import opened Collections

  /** Strings compare character by character; a prefix comes first. */
  predicate Leq(a: string, b: string) {
    a == [] || (b != [] && (a[0] < b[0] || (a[0] == b[0] && Leq(a[1..], b[1..]))))
  }

  lemma {:induction false} LeqTotal(a: string, b: string)
    ensures Leq(a, b) || Leq(b, a)
  {
    if a != [] && b != [] && a[0] == b[0] { LeqTotal(a[1..], b[1..]); }
  }

  lemma {:induction false} LeqAntisymmetric(a: string, b: string)
    requires Leq(a, b) && Leq(b, a)
    ensures a == b
  {
    if a != [] {
      LeqAntisymmetric(a[1..], b[1..]);
      assert a == [a[0]] + a[1..] && b == [b[0]] + b[1..];
    }
  }

  lemma {:induction false} LeqTransitive(a: string, b: string, c: string)
    requires Leq(a, b) && Leq(b, c)
    ensures Leq(a, c)
  {
    if a != [] && a[0] == b[0] == c[0] { LeqTransitive(a[1..], b[1..], c[1..]); }
  }

  /** `a` has the smaller character where the strings part. */
  ghost predicate LessAt(a: string, b: string, n: nat) {
    n < |a| && n < |b| && a[..n] == b[..n] && a[n] < b[n]
  }

  /** The order of code points: a prefix comes first, otherwise the first difference decides. */
  lemma {:induction false} LeqExactly(a: string, b: string)
    ensures Leq(a, b) <==> a <= b || exists n: nat :: LessAt(a, b, n)
  {
    if a != [] && b != [] {
      if a[0] == b[0] {
        LeqExactly(a[1..], b[1..]);
        assert a == [a[0]] + a[1..] && b == [b[0]] + b[1..];
        forall n: nat ensures LessAt(a[1..], b[1..], n) <==> LessAt(a, b, n + 1) { LessAtNext(a, b, n); }
        if n: nat :| LessAt(a, b, n) {
          assert n > 0;
          assert LessAt(a[1..], b[1..], n - 1);
        }
        if n: nat :| LessAt(a[1..], b[1..], n) { assert LessAt(a, b, n + 1); }
      } else {
        assert a[..0] == b[..0];
        if a[0] < b[0] { assert LessAt(a, b, 0); }
        if n: nat :| LessAt(a, b, n) { if n > 0 { assert a[..n][0] == b[..n][0]; } }
      }
    }
  }

  lemma LessAtNext(a: string, b: string, n: nat)
    requires a != [] && b != [] && a[0] == b[0]
    ensures LessAt(a[1..], b[1..], n) <==> LessAt(a, b, n + 1)
  {
    if n + 1 < |a| && n + 1 < |b| {
      assert a[..n + 1] == [a[0]] + a[1..][..n] && b[..n + 1] == [b[0]] + b[1..][..n];
      assert a[..n + 1][1..] == a[1..][..n] && b[..n + 1][1..] == b[1..][..n];
    }
  }

  // ---------------------------------------------------------------- sorting

  ghost predicate TotalPreorder<T(!new)>(leq: (T, T) -> bool) {
    && (forall x, y :: leq(x, y) || leq(y, x))
    && (forall x, y, z :: leq(x, y) && leq(y, z) ==> leq(x, z))
  }

  ghost predicate SortedBy<T>(s: seq<T>, leq: (T, T) -> bool) {
    forall i, j :: 0 <= i < j < |s| ==> leq(s[i], s[j])
  }

  /** Put `x` before the first element that it does not exceed. */
  function Insert<T>(x: T, s: seq<T>, leq: (T, T) -> bool): seq<T> {
    if s == [] || leq(x, s[0]) then [x] + s else [s[0]] + Insert(x, s[1..], leq)
  }

  function Sort<T>(s: seq<T>, leq: (T, T) -> bool): seq<T> {
    if s == [] then [] else Insert(s[0], Sort(s[1..], leq), leq)
  }

  lemma {:induction false} InsertPermutes<T>(x: T, s: seq<T>, leq: (T, T) -> bool)
    ensures multiset(Insert(x, s, leq)) == multiset([x] + s)
  {
    if s != [] && !leq(x, s[0]) {
      InsertPermutes(x, s[1..], leq);
      assert s == [s[0]] + s[1..];
    }
  }

  lemma {:induction false} SortPermutes<T>(s: seq<T>, leq: (T, T) -> bool)
    ensures multiset(Sort(s, leq)) == multiset(s)
    ensures |Sort(s, leq)| == |s|
    ensures forall x :: x in Sort(s, leq) <==> x in s
  {
    if s != [] {
      SortPermutes(s[1..], leq);
      InsertPermutes(s[0], Sort(s[1..], leq), leq);
      assert s == [s[0]] + s[1..];
    }
    assert |multiset(s)| == |s| && |multiset(Sort(s, leq))| == |Sort(s, leq)|;
    forall x ensures x in Sort(s, leq) <==> x in s {
      assert x in s <==> x in multiset(s);
      assert x in Sort(s, leq) <==> x in multiset(Sort(s, leq));
    }
  }

  lemma {:induction false} InsertSorts<T(!new)>(x: T, s: seq<T>, leq: (T, T) -> bool)
    requires TotalPreorder(leq) && SortedBy(s, leq)
    ensures SortedBy(Insert(x, s, leq), leq)
  {
    if s != [] && !leq(x, s[0]) {
      InsertSorts(x, s[1..], leq);
      InsertPermutes(x, s[1..], leq);
      var rest := Insert(x, s[1..], leq);
      forall j | 0 <= j < |rest| ensures leq(s[0], rest[j]) {
        assert rest[j] in multiset(rest);
        assert rest[j] in multiset([x] + s[1..]);
      }
    }
  }

  lemma {:induction false} SortSorts<T(!new)>(s: seq<T>, leq: (T, T) -> bool)
    requires TotalPreorder(leq)
    ensures SortedBy(Sort(s, leq), leq)
  {
    if s != [] {
      SortSorts(s[1..], leq);
      InsertSorts(s[0], Sort(s[1..], leq), leq);
    }
  }

  /** Two strictly sorted listings of the same elements are equal. */
  lemma {:induction false} SortedUnique<T>(a: seq<T>, b: seq<T>, leq: (T, T) -> bool)
    requires SortedBy(a, leq) && SortedBy(b, leq) && NoDup(a) && NoDup(b)
    requires forall x :: x in a <==> x in b
    requires forall x, y :: x in a && y in a && leq(x, y) && leq(y, x) ==> x == y
    ensures a == b
  {
    NoDupSize(a);
    NoDupSize(b);
    assert ToSet(a) == ToSet(b);
    if a != [] {
      assert a[0] in b && b[0] in a;
      assert a[0] == b[0];
      forall x ensures x in a[1..] <==> x in b[1..] {
        assert x in a <==> x == a[0] || x in a[1..];
        assert x in b <==> x == b[0] || x in b[1..];
      }
      SortedUnique(a[1..], b[1..], leq);
    }
  }

  /** The elements of a set of strings in ascending order. */
  ghost predicate Lists(r: seq<string>, s: set<string>) {
    NoDup(r) && SortedBy(r, Leq) && forall x :: x in r <==> x in s
  }

  lemma LeqIsTotalPreorder()
    ensures TotalPreorder(Leq)
  {
    forall x, y ensures Leq(x, y) || Leq(y, x) { LeqTotal(x, y); }
    forall x, y, z | Leq(x, y) && Leq(y, z) ensures Leq(x, z) { LeqTransitive(x, y, z); }
  }

  /** There is one ascending listing of a set. */
  lemma ListsUnique(a: seq<string>, b: seq<string>, s: set<string>)
    requires Lists(a, s) && Lists(b, s)
    ensures a == b
  {
    forall x, y | x in a && y in a && Leq(x, y) && Leq(y, x) ensures x == y { LeqAntisymmetric(x, y); }
    SortedUnique(a, b, Leq);
  }

  lemma {:induction false} ListsExist(s: set<string>)
    ensures exists r :: Lists(r, s)
    decreases |s|
  {
    if s == {} {
      assert Lists([], s);
    } else {
      var x :| x in s;
      ListsExist(s - {x});
      var r :| Lists(r, s - {x});
      LeqIsTotalPreorder();
      InsertSorts(x, r, Leq);
      InsertNew(x, r, Leq);
      assert Lists(Insert(x, r, Leq), s);
    }
  }

  ghost function SortedKeys(s: set<string>): (r: seq<string>)
    ensures Lists(r, s)
  {
    ListsExist(s);
    var r :| Lists(r, s);
    r
  }

  lemma ListsSize(r: seq<string>, s: set<string>)
    requires Lists(r, s)
    ensures |r| == |s|
  {
    assert ToSet(r) == s;
    NoDupSize(r);
  }

  /** `sorted` of a set. */
  method SortSet(s: set<string>) returns (r: seq<string>)
    ensures Lists(r, s)
  {
    LeqIsTotalPreorder();
    r := [];
    var left := s;
    while left != {}
      invariant left <= s
      invariant NoDup(r) && SortedBy(r, Leq)
      invariant forall x :: x in r <==> x in s - left
      decreases |left|
    {
      var x :| x in left;
      InsertSorts(x, r, Leq);
      InsertNew(x, r, Leq);
      r := Insert(x, r, Leq);
      left := left - {x};
    }
  }

  lemma {:induction false} InsertNew<T>(x: T, s: seq<T>, leq: (T, T) -> bool)
    requires NoDup(s) && x !in s
    ensures NoDup(Insert(x, s, leq))
    ensures forall y :: y in Insert(x, s, leq) <==> y == x || y in s
  {
    if s != [] && !leq(x, s[0]) {
      InsertNew(x, s[1..], leq);
      assert s[0] !in s[1..];
      forall y ensures y in Insert(x, s, leq) <==> y == x || y in s {
        assert y in s <==> y == s[0] || y in s[1..];
      }
    }
  }
}
