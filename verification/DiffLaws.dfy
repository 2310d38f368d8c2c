/** What the difference of two documents says about them. */
module DiffLaws {
  import opened Collections
  import opened StringOrder
  import opened Trees
  import opened Paths
  import opened Diff

  // ---------------------------------------------------------------- the keys that are compared

  ghost predicate SameContainer(a: Tree, b: Tree) {
    (a.Dict? && b.Dict?) || (a.Lst? && b.Lst?)
  }

  /** The compared keys are the children of either document, once each. */
  lemma KeysAre(a: Tree, b: Tree)
    requires TypeOf(a) == TypeOf(b)
    ensures NoDup(Keys(a, b))
    ensures forall e :: e in Keys(a, b) <==> Child(a, e).Some? || Child(b, e).Some?
  {
    if a.Dict? {
      var all := a.entries.Keys + b.entries.Keys;
      NamesAre(SortedKeys(all));
    } else if a.Lst? {
      IndicesAre(Max(|a.items|, |b.items|));
    }
  }

  lemma NamesAre(ks: seq<string>)
    requires NoDup(ks)
    ensures NoDup(Names(ks))
    ensures forall e :: e in Names(ks) <==> e.Name? && e.name in ks
  {
    forall k | k in ks ensures Name(k) in Names(ks) {
      var i :| 0 <= i < |ks| && ks[i] == k;
      assert Names(ks)[i] == Name(k);
    }
  }

  lemma IndicesAre(n: nat)
    ensures NoDup(Indices(n))
    ensures forall e :: e in Indices(n) <==> e.Index? && e.index < n
  {
    forall i: nat | i < n ensures Index(i) in Indices(n) { assert Indices(n)[i] == Index(i); }
  }

  lemma {:induction false} InAll(a: Tree, b: Tree, es: seq<Key>, c: Change)
    ensures c in DiffAll(a, b, es) <==> exists e :: e in es && c in DiffAt(a, b, e)
    decreases |es|
  {
    hide DiffAt;
    if es != [] {
      InAll(a, b, es[1..], c);
      var d, rest := DiffAt(a, b, es[0]), DiffAll(a, b, es[1..]);
      assert c in d + rest <==> c in d || c in rest;
      assert forall e :: e in es <==> e == es[0] || e in es[1..];
      if e :| e in es && c in DiffAt(a, b, e) {
        if e != es[0] { assert e in es[1..]; }
      }
    }
  }

  /** The changes of two dictionaries or two lists are those of their children. */
  lemma InDiff(a: Tree, b: Tree, c: Change)
    requires SameContainer(a, b)
    ensures c in DiffOf(a, b) <==> exists e :: c in DiffAt(a, b, e)
  {
    hide DiffAt, Keys;
    KeysAre(a, b);
    InAll(a, b, Keys(a, b), c);
    forall e | c in DiffAt(a, b, e) ensures e in Keys(a, b) { OnlyChildren(a, b, e); }
  }

  lemma OnlyChildren(a: Tree, b: Tree, e: Key)
    ensures DiffAt(a, b, e) != [] ==> Child(a, e).Some? || Child(b, e).Some?
    ensures forall c :: c in DiffAt(a, b, e) ==> c.path != [] && c.path[0] == e
  {
  }

  // ---------------------------------------------------------------- every change is true

  /** What a change says of the documents. */
  ghost predicate Holds(c: Change, a: Tree, b: Tree) {
    match c.kind
    case Added => Look(a, c.path) == None && Look(b, c.path) == Some(c.after) && c.before == NONE
    case Removed => Look(a, c.path) == Some(c.before) && Look(b, c.path) == None && c.after == NONE
    case Modified => Look(a, c.path) == Some(c.before) && Look(b, c.path) == Some(c.after) && c.before != c.after
  }

  lemma {:induction false} ChangesHold(a: Tree, b: Tree, c: Change)
    requires c in DiffOf(a, b)
    ensures Holds(c, a, b)
    decreases a, 1
  {
    hide DiffAt;
    if SameContainer(a, b) {
      InDiff(a, b, c);
      var e :| c in DiffAt(a, b, e);
      ChangeAtHolds(a, b, c, e);
    }
  }

  lemma {:induction false} ChangeAtHolds(a: Tree, b: Tree, c: Change, e: Key)
    requires c in DiffAt(a, b, e)
    ensures Holds(c, a, b)
    decreases a, 0
  {
    hide DiffOf;
    match (Child(a, e), Child(b, e))
    case (Some(x), Some(y)) =>
      var cs := DiffOf(x, y);
      var i :| 0 <= i < |cs| && c == Under([e], cs)[i];
      ChangesHold(x, y, cs[i]);
      LookUnder(a, e, cs[i].path);
      LookUnder(b, e, cs[i].path);
    case _ =>
      LookOne(a, e);
      LookOne(b, e);
  }

  lemma LookOne(t: Tree, e: Key)
    ensures Look(t, [e]) == Child(t, e)
  {
  }

  lemma LookUnder(t: Tree, e: Key, p: Path)
    requires Child(t, e).Some?
    ensures Look(t, [e] + p) == Look(Child(t, e).value, p)
  {
    assert ([e] + p)[1..] == p;
  }

  lemma {:induction false} LookAppend(t: Tree, p: Path, q: Path)
    ensures Look(t, p + q) == match Look(t, p) case Some(c) => Look(c, q) case None => None
    decreases |p|
  {
    if p == [] {
      assert p + q == q;
    } else {
      assert (p + q)[1..] == p[1..] + q;
      match Child(t, p[0])
      case Some(c) => LookAppend(c, p[1..], q);
      case None =>
    }
  }

  /** The documents differ at a changed path and at every prefix of it. */
  lemma DiffersAbove(a: Tree, b: Tree, c: Change, q: Path)
    requires c in DiffOf(a, b) && Prefix(q, c.path)
    ensures Look(a, q) != Look(b, q)
  {
    ChangesHold(a, b, c);
    assert c.path == q + c.path[|q|..];
    LookAppend(a, q, c.path[|q|..]);
    LookAppend(b, q, c.path[|q|..]);
  }

  // ---------------------------------------------------------------- no change is inside another

  ghost predicate Apart(cs: seq<Change>) {
    forall i, j :: 0 <= i < j < |cs| ==> !Comparable(cs[i].path, cs[j].path)
  }

  /** No changed path is a prefix of another. */
  lemma {:induction false} ChangesApart(a: Tree, b: Tree)
    ensures Apart(DiffOf(a, b))
    decreases a, 2
  {
    if SameContainer(a, b) {
      KeysAre(a, b);
      AllApart(a, b, Keys(a, b));
    }
  }

  lemma {:induction false} AllApart(a: Tree, b: Tree, es: seq<Key>)
    requires NoDup(es)
    ensures Apart(DiffAll(a, b, es))
    decreases a, 1, |es|
  {
    hide DiffAt, DiffOf;
    if es != [] {
      AtApart(a, b, es[0]);
      AllApart(a, b, es[1..]);
      var c, d := DiffAt(a, b, es[0]), DiffAll(a, b, es[1..]);
      forall i, j | 0 <= i < |c| && 0 <= j < |d| ensures !Comparable(c[i].path, d[j].path) {
        InAll(a, b, es[1..], d[j]);
        var e :| e in es[1..] && d[j] in DiffAt(a, b, e);
        OnlyChildren(a, b, e);
        OnlyChildren(a, b, es[0]);
        HeadsDiffer(c[i].path, d[j].path);
      }
      ApartAppend(c, d);
    }
  }

  lemma ApartAppend(c: seq<Change>, d: seq<Change>)
    requires Apart(c) && Apart(d)
    requires forall i, j :: 0 <= i < |c| && 0 <= j < |d| ==> !Comparable(c[i].path, d[j].path)
    ensures Apart(c + d)
  {
    hide Comparable;
    var s := c + d;
    forall i, j | 0 <= i < j < |s| ensures !Comparable(s[i].path, s[j].path) {
      assert s[i] == if i < |c| then c[i] else d[i - |c|];
      assert s[j] == if j < |c| then c[j] else d[j - |c|];
    }
  }

  lemma {:induction false} AtApart(a: Tree, b: Tree, e: Key)
    ensures Apart(DiffAt(a, b, e))
    decreases a, 0
  {
    match (Child(a, e), Child(b, e))
    case (Some(x), Some(y)) =>
      ChangesApart(x, y);
      var cs := DiffOf(x, y);
      forall i, j | 0 <= i < j < |cs| ensures !Comparable([e] + cs[i].path, [e] + cs[j].path) {
        ComparableUnder(e, cs[i].path, cs[j].path);
      }
    case _ =>
  }

  // ---------------------------------------------------------------- patching

  /** `t` with `v` at child `e`; a list grows only at its end. */
  function Set(t: Tree, e: Key, v: Tree): Tree {
    match (t, e)
    case (Dict(m), Name(k)) => Dict(m[k := v])
    case (Lst(xs), Index(i)) => if i < |xs| then Lst(xs[i := v]) else if i == |xs| then Lst(xs + [v]) else t
    case _ => t
  }

  /** `t` without child `e`; later list items move up. */
  function Drop(t: Tree, e: Key): Tree {
    match (t, e)
    case (Dict(m), Name(k)) => Dict(m - {k})
    case (Lst(xs), Index(i)) => if i < |xs| then Lst(xs[..i] + xs[i + 1..]) else t
    case _ => t
  }

  function Put(t: Tree, p: Path, v: Tree): Tree
    decreases |p|
  {
    if p == [] then v
    else match Child(t, p[0])
      case Some(c) => Set(t, p[0], Put(c, p[1..], v))
      case None => if |p| == 1 then Set(t, p[0], v) else t
  }

  function Del(t: Tree, p: Path): Tree
    decreases |p|
  {
    if p == [] then t
    else if |p| == 1 then Drop(t, p[0])
    else match Child(t, p[0])
      case Some(c) => Set(t, p[0], Del(c, p[1..]))
      case None => t
  }

  /** Apply the changes one by one: additions and modifications first to last, removals last to first,
      so that removing list items does not move those still to be removed. */
  function Patch(t: Tree, cs: seq<Change>): Tree
    decreases |cs|
  {
    if cs == [] then t
    else if cs[0].kind == Removed then Del(Patch(t, cs[1..]), cs[0].path)
    else Patch(Put(t, cs[0].path, cs[0].after), cs[1..])
  }

  lemma SetChild(t: Tree, e: Key, v: Tree)
    requires Child(t, e).Some?
    ensures forall e' :: Child(Set(t, e, v), e') == if e' == e then Some(v) else Child(t, e')
    ensures SameContainer(t, Set(t, e, v)) && TypeOf(Set(t, e, v)) == TypeOf(t)
  {
  }

  lemma SetTwice(t: Tree, e: Key, v: Tree, w: Tree)
    requires Child(t, e).Some?
    ensures Set(Set(t, e, v), e, w) == Set(t, e, w)
  {
    SetChild(t, e, v);
    SetChild(t, e, w);
    SetChild(Set(t, e, v), e, w);
    SameChildren(Set(Set(t, e, v), e, w), Set(t, e, w));
  }

  /** Documents of one type are equal when their children are. */
  lemma SameChildren(a: Tree, b: Tree)
    requires SameContainer(a, b) && forall e :: Child(a, e) == Child(b, e)
    ensures a == b
  {
    match a
    case Dict(m) =>
      forall k ensures (k in m <==> k in b.entries) && (k in m ==> m[k] == b.entries[k]) {
        assert Child(a, Name(k)) == Child(b, Name(k));
      }
      assert m == b.entries;
    case Lst(xs) =>
      SameLength(a, b);
      forall i: nat | i < |xs| ensures xs[i] == b.items[i] {
        assert Child(a, Index(i)) == Child(b, Index(i));
      }
  }

  lemma SameLength(a: Tree, b: Tree)
    requires a.Lst? && b.Lst? && forall e :: Child(a, e) == Child(b, e)
    ensures |a.items| == |b.items|
  {
    assert Child(a, Index(|a.items|)) == Child(b, Index(|a.items|));
    assert Child(a, Index(|b.items|)) == Child(b, Index(|b.items|));
  }

  // ---------------------------------------------------------------- changes below one child

  ghost predicate NoRootRemoval(cs: seq<Change>) {
    forall i :: 0 <= i < |cs| && cs[i].kind == Removed ==> cs[i].path != []
  }

  lemma PutUnder(t: Tree, e: Key, v: Tree, p: Path, x: Tree)
    requires Child(t, e).Some?
    ensures Put(Set(t, e, v), [e] + p, x) == Set(t, e, Put(v, p, x))
  {
    assert ([e] + p)[1..] == p;
    SetChild(t, e, v);
    SetTwice(t, e, v, Put(v, p, x));
  }

  lemma DelUnder(t: Tree, e: Key, v: Tree, p: Path)
    requires Child(t, e).Some? && p != []
    ensures Del(Set(t, e, v), [e] + p) == Set(t, e, Del(v, p))
  {
    assert ([e] + p)[1..] == p;
    SetChild(t, e, v);
    SetTwice(t, e, v, Del(v, p));
  }

  /** If `rest` turns `t` into `r` whatever child `e` holds, then changes below `e` before it only patch that child. */
  lemma {:induction false} PatchUnder(t: Tree, r: Tree, e: Key, v: Tree, cs: seq<Change>, rest: seq<Change>)
    requires Child(t, e).Some? && Child(r, e).Some? && NoRootRemoval(cs)
    requires forall w :: Patch(Set(t, e, w), rest) == Set(r, e, w)
    ensures Patch(Set(t, e, v), Under([e], cs) + rest) == Set(r, e, Patch(v, cs))
    decreases |cs|
  {
    hide Put, Del, Set, Child;
    var all := Under([e], cs) + rest;
    if cs == [] {
      assert all == rest;
    } else {
      var c := cs[0];
      assert all[0] == c.(path := [e] + c.path);
      assert all[1..] == Under([e], cs[1..]) + rest;
      if c.kind == Removed {
        PatchUnder(t, r, e, v, cs[1..], rest);
        DelUnder(r, e, Patch(v, cs[1..]), c.path);
      } else {
        PutUnder(t, e, v, c.path, c.after);
        PatchUnder(t, r, e, Put(v, c.path, c.after), cs[1..], rest);
      }
    }
  }

  lemma RootKept(a: Tree, b: Tree)
    ensures NoRootRemoval(DiffOf(a, b))
  {
    var cs := DiffOf(a, b);
    forall i | 0 <= i < |cs| && cs[i].kind == Removed ensures cs[i].path != [] {
      ChangesHold(a, b, cs[i]);
    }
  }

  // ---------------------------------------------------------------- patching a dictionary or a list

  /** The keys still to be treated: for a list, the positions from one that the list has reached. */
  ghost predicate Ready(t: Tree, b: Tree, es: seq<Key>)
    requires SameContainer(t, b)
  {
    match t
    case Dict(_) => NoDup(es) && forall e :: e in es ==> Child(t, e).Some? || Child(b, e).Some?
    case Lst(xs) =>
      var n := Max(|xs|, |b.items|);
      |es| <= n && n - |es| <= |xs| && forall j :: 0 <= j < |es| ==> es[j] == Index(n - |es| + j)
  }

  /** `r` holds the children of `b` at `es` and those of `t` elsewhere. */
  ghost predicate Mixed(r: Tree, t: Tree, b: Tree, es: seq<Key>) {
    SameContainer(r, t) && forall e :: Child(r, e) == if e in es then Child(b, e) else Child(t, e)
  }

  lemma ReadyHead(t: Tree, b: Tree, es: seq<Key>)
    requires SameContainer(t, b) && es != [] && Ready(t, b, es)
    ensures Child(t, es[0]).Some? || Child(b, es[0]).Some?
    ensures es[0] !in es[1..] && (Child(t, es[0]).Some? ==> Ready(t, b, es[1..]))
  {
    assert es[0] in es;
  }

  lemma ReadySet(t: Tree, b: Tree, e: Key, v: Tree, es: seq<Key>)
    requires SameContainer(t, b) && Child(t, e).Some? && Ready(t, b, es) && e !in es
    ensures SameContainer(Set(t, e, v), b) && Ready(Set(t, e, v), b, es)
  {
    SetChild(t, e, v);
  }

  /** Adding the first missing key. */
  lemma ReadyAdd(t: Tree, b: Tree, es: seq<Key>)
    requires SameContainer(t, b) && es != [] && Ready(t, b, es) && Child(t, es[0]).None?
    ensures Child(b, es[0]).Some?
    ensures var t' := Set(t, es[0], Child(b, es[0]).value);
      SameContainer(t', b) && Ready(t', b, es[1..]) &&
      forall e :: Child(t', e) == if e == es[0] then Child(b, e) else Child(t, e)
  {
    ReadyHead(t, b, es);
  }

  /** Removing the first key once the later ones are done. */
  lemma DropMixed(r: Tree, t: Tree, b: Tree, es: seq<Key>)
    requires SameContainer(t, b) && es != [] && Ready(t, b, es) && Mixed(r, t, b, es[1..])
    requires Child(t, es[0]).Some? && Child(b, es[0]).None?
    ensures Mixed(Drop(r, es[0]), t, b, es)
  {
    ReadyHead(t, b, es);
    var e0 := es[0];
    assert forall e :: e in es <==> e == e0 || e in es[1..];
    if t.Lst? {
      var i := e0.index;
      assert Child(r, Index(i)).Some?;
      ShorterList(r, t, b, es);
    }
  }

  lemma ShorterList(r: Tree, t: Tree, b: Tree, es: seq<Key>)
    requires t.Lst? && b.Lst? && es != [] && Ready(t, b, es) && Mixed(r, t, b, es[1..])
    requires Child(t, es[0]).Some? && Child(b, es[0]).None?
    ensures |r.items| == es[0].index + 1
  {
    var i := es[0].index;
    ReadyHead(t, b, es);
    assert Child(r, Index(i)).Some?;
    assert Child(r, Index(i + 1)).None? by {
      if i + 1 < |t.items| { assert es[1] == Index(i + 1) && es[1] == es[1..][0]; }
    }
  }

  /** The later changes act alike whatever child `e` holds. */
  lemma MixedSet(m: Tree, r: Tree, t: Tree, b: Tree, e: Key, w: Tree, es: seq<Key>)
    requires Child(t, e).Some? && e !in es && SameContainer(t, b)
    requires Mixed(m, t, b, es) && Mixed(r, Set(t, e, w), b, es)
    ensures Child(m, e).Some? && r == Set(m, e, w)
  {
    SetChild(t, e, w);
    SetChild(m, e, w);
    SameChildren(r, Set(m, e, w));
  }

  lemma MixedNone(t: Tree, b: Tree)
    requires SameContainer(t, b)
    ensures Mixed(t, t, b, [])
  {
  }

  lemma MixedCons(r: Tree, t': Tree, t: Tree, b: Tree, es: seq<Key>)
    requires es != [] && SameContainer(t', t) && Mixed(r, t', b, es[1..])
    requires forall e :: Child(t', e) == if e == es[0] then Child(b, e) else Child(t, e)
    ensures Mixed(r, t, b, es)
  {
    assert forall e :: e in es <==> e == es[0] || e in es[1..];
  }

  lemma MixedSetLast(m: Tree, t: Tree, b: Tree, es: seq<Key>)
    requires es != [] && Mixed(m, t, b, es[1..]) && Child(m, es[0]).Some? && Child(b, es[0]).Some?
    ensures Mixed(Set(m, es[0], Child(b, es[0]).value), t, b, es)
  {
    SetChild(m, es[0], Child(b, es[0]).value);
    assert forall e :: e in es <==> e == es[0] || e in es[1..];
  }

  lemma PatchAdded(t: Tree, e: Key, y: Tree, rest: seq<Change>)
    requires Child(t, e).None?
    ensures Patch(t, [Change([e], Added, NONE, y)] + rest) == Patch(Set(t, e, y), rest)
  {
    hide Child, Set;
    assert ([Change([e], Added, NONE, y)] + rest)[1..] == rest;
    assert Put(t, [e], y) == Set(t, e, y);
  }

  lemma PatchRemoved(t: Tree, e: Key, x: Tree, rest: seq<Change>)
    ensures Patch(t, [Change([e], Removed, x, NONE)] + rest) == Drop(Patch(t, rest), e)
  {
    hide Drop;
    assert ([Change([e], Removed, x, NONE)] + rest)[1..] == rest;
    assert Del(Patch(t, rest), [e]) == Drop(Patch(t, rest), e);
  }

  lemma SetSame(t: Tree, e: Key)
    requires Child(t, e).Some?
    ensures Set(t, e, Child(t, e).value) == t
  {
    SetChild(t, e, Child(t, e).value);
    SameChildren(Set(t, e, Child(t, e).value), t);
  }

  lemma {:induction false} PatchAll(a: Tree, t: Tree, b: Tree, es: seq<Key>)
    requires SameContainer(a, t) && SameContainer(t, b) && Ready(t, b, es)
    requires forall e :: e in es ==> Child(t, e) == Child(a, e)
    ensures Mixed(Patch(t, DiffAll(a, b, es)), t, b, es)
    decreases a, 1, |es|
  {
    hide Ready, Mixed, Child, Set, Drop, Patch, DiffOf;
    if es == [] {
      PatchNone(t);
      MixedNone(t, b);
    } else {
      var e, rest := es[0], es[1..];
      var tail := DiffAll(a, b, rest);
      ReadyHead(t, b, es);
      assert Child(t, e) == Child(a, e);
      if Child(t, e).None? {
        ReadyAdd(t, b, es);
        var y := Child(b, e).value;
        PatchAdded(t, e, y, tail);
        PatchAll(a, Set(t, e, y), b, rest);
        MixedCons(Patch(Set(t, e, y), tail), Set(t, e, y), t, b, es);
      } else if Child(b, e).None? {
        PatchAll(a, t, b, rest);
        PatchRemoved(t, e, Child(t, e).value, tail);
        DropMixed(Patch(t, tail), t, b, es);
      } else {
        PatchBoth(a, t, b, es);
      }
    }
  }

  lemma PatchNone(t: Tree)
    ensures Patch(t, []) == t
  {
  }

  /** The first key is in both documents: its changes patch that child alone. */
  lemma {:induction false} PatchBoth(a: Tree, t: Tree, b: Tree, es: seq<Key>)
    requires SameContainer(a, t) && SameContainer(t, b) && es != [] && Ready(t, b, es)
    requires forall e :: e in es ==> Child(t, e) == Child(a, e)
    requires Child(a, es[0]).Some? && Child(b, es[0]).Some?
    ensures Mixed(Patch(t, DiffAll(a, b, es)), t, b, es)
    decreases a, 1, |es|, 0
  {
    hide Ready, Mixed, Set, Patch, DiffOf;
    var e, rest := es[0], es[1..];
    var tail := DiffAll(a, b, rest);
    var x, y := Child(a, e).value, Child(b, e).value;
    ReadyHead(t, b, es);
    PatchAll(a, t, b, rest);
    var m := Patch(t, tail);
    SetSame(t, e);
    MixedSet(m, Patch(Set(t, e, x), tail), t, b, e, x, rest);
    forall w ensures Patch(Set(t, e, w), tail) == Set(m, e, w) {
      ReadySet(t, b, e, w, rest);
      SetChild(t, e, w);
      PatchAll(a, Set(t, e, w), b, rest);
      MixedSet(m, Patch(Set(t, e, w), tail), t, b, e, w, rest);
    }
    RootKept(x, y);
    PatchUnder(t, m, e, x, DiffOf(x, y), tail);
    PatchYieldsNew(x, y);
    MixedSetLast(m, t, b, es);
  }

  /** Patching the old document with the changes yields the new one. */
  lemma {:induction false} PatchYieldsNew(a: Tree, b: Tree)
    ensures Patch(a, DiffOf(a, b)) == b
    decreases a, 2
  {
    if SameContainer(a, b) {
      var es := Keys(a, b);
      KeysAre(a, b);
      KeysReady(a, b);
      PatchAll(a, a, b, es);
      AllMixed(Patch(a, DiffAll(a, b, es)), a, b);
    } else if a != b {
      assert DiffOf(a, b) == [Change([], Modified, a, b)];
    }
  }

  lemma KeysReady(a: Tree, b: Tree)
    requires SameContainer(a, b)
    ensures Ready(a, b, Keys(a, b))
  {
    KeysAre(a, b);
  }

  lemma AllMixed(r: Tree, a: Tree, b: Tree)
    requires SameContainer(a, b) && Mixed(r, a, b, Keys(a, b))
    ensures r == b
  {
    KeysAre(a, b);
    SameChildren(r, b);
  }

  // ---------------------------------------------------------------- main results

  lemma {:induction false} NoChangeWithinItself(a: Tree)
    ensures DiffOf(a, a) == []
    decreases a, 1
  {
    NoneAll(a, Keys(a, a));
  }

  lemma {:induction false} NoneAll(a: Tree, es: seq<Key>)
    ensures DiffAll(a, a, es) == []
    decreases a, 0, |es|
  {
    if es != [] {
      NoneAll(a, es[1..]);
      match Child(a, es[0])
      case Some(x) => NoChangeWithinItself(x);
      case None =>
    }
  }

  /** The difference is empty if and only if the documents are equal. */
  lemma EmptyIffEqual(a: Tree, b: Tree)
    ensures DiffOf(a, b) == [] <==> a == b
  {
    PatchYieldsNew(a, b);
    NoChangeWithinItself(a);
  }

  ghost predicate Touches(cs: seq<Change>, q: Path) {
    exists i :: 0 <= i < |cs| && Comparable(cs[i].path, q)
  }

  /** Lookups differ only at paths comparable with a changed one. */
  lemma {:induction false} DiffersOnlyWhereChanged(a: Tree, b: Tree, q: Path)
    requires Look(a, q) != Look(b, q)
    ensures Touches(DiffOf(a, b), q)
    decreases |q|
  {
    var cs := DiffOf(a, b);
    EmptyIffEqual(a, b);
    if q == [] || !SameContainer(a, b) {
      assert Comparable(cs[0].path, q);
    } else {
      var e := q[0];
      var c := TouchedChild(a, b, q);
      InDiff(a, b, c);
      var i :| 0 <= i < |cs| && cs[i] == c;
      assert Comparable(cs[i].path, q);
    }
  }

  lemma {:induction false} TouchedChild(a: Tree, b: Tree, q: Path) returns (c: Change)
    requires q != [] && SameContainer(a, b) && Look(a, q) != Look(b, q)
    ensures c in DiffAt(a, b, q[0]) && Comparable(c.path, q)
    decreases |q|, 0
  {
    hide DiffOf;
    var e := q[0];
    assert q == [e] + q[1..];
    match (Child(a, e), Child(b, e))
    case (Some(x), Some(y)) =>
      DiffersOnlyWhereChanged(x, y, q[1..]);
      var i :| 0 <= i < |DiffOf(x, y)| && Comparable(DiffOf(x, y)[i].path, q[1..]);
      c := Under([e], DiffOf(x, y))[i];
      ComparableUnder(e, DiffOf(x, y)[i].path, q[1..]);
    case _ =>
      c := DiffAt(a, b, e)[0];
  }

  // ---------------------------------------------------------------- exactly the changes

  /** Both documents have a dictionary, or both a list, at the path. */
  ghost predicate Shared(a: Tree, b: Tree, q: Path) {
    Look(a, q).Some? && Look(b, q).Some? && SameContainer(Look(a, q).value, Look(b, q).value)
  }

  /** ... at every proper prefix of the path. */
  ghost predicate Along(a: Tree, b: Tree, p: Path) {
    forall n :: 0 <= n < |p| ==> Shared(a, b, p[..n])
  }

  lemma SharedCons(a: Tree, b: Tree, q: Path)
    requires q != []
    ensures Shared(a, b, q) <==>
      && Child(a, q[0]).Some? && Child(b, q[0]).Some?
      && Shared(Child(a, q[0]).value, Child(b, q[0]).value, q[1..])
  {
  }

  lemma AlongCons(a: Tree, b: Tree, p: Path)
    requires p != [] && SameContainer(a, b)
    ensures Along(a, b, p) <==>
      |p| == 1 || (Child(a, p[0]).Some? && Child(b, p[0]).Some? &&
                   Along(Child(a, p[0]).value, Child(b, p[0]).value, p[1..]))
  {
    hide Shared;
    assert p[..0] == [] && Shared(a, b, []) by { SharedHere(a, b); }
    forall n | 0 < n < |p|
      ensures Shared(a, b, p[..n]) <==>
        Child(a, p[0]).Some? && Child(b, p[0]).Some? &&
        Shared(Child(a, p[0]).value, Child(b, p[0]).value, p[1..][..n - 1])
    {
      assert p[..n][1..] == p[1..][..n - 1] && p[..n][0] == p[0];
      SharedCons(a, b, p[..n]);
    }
    if |p| > 1 {
      if Along(a, b, p) {
        assert Shared(a, b, p[..1]);
        forall n | 0 <= n < |p| - 1 ensures Shared(Child(a, p[0]).value, Child(b, p[0]).value, p[1..][..n]) {
          assert Shared(a, b, p[..n + 1]);
        }
      } else {
        var n :| 0 <= n < |p| && !Shared(a, b, p[..n]);
        if Child(a, p[0]).Some? && Child(b, p[0]).Some? {
          assert !Shared(Child(a, p[0]).value, Child(b, p[0]).value, p[1..][..n - 1]);
        }
      }
    }
  }

  lemma SharedHere(a: Tree, b: Tree)
    ensures Shared(a, b, []) <==> SameContainer(a, b)
  {
  }

  /** A true change, as deep as the documents allow: what it replaces is not a pair of dictionaries or of lists. */
  ghost predicate Deep(c: Change, a: Tree, b: Tree) {
    && Holds(c, a, b) && Along(a, b, c.path)
    && (c.kind == Modified ==> !SameContainer(c.before, c.after))
  }

  /** The difference consists of exactly the deep changes. */
  lemma {:induction false} ChangesExactly(a: Tree, b: Tree, c: Change)
    ensures c in DiffOf(a, b) <==> Deep(c, a, b)
    decreases a, 1
  {
    hide DiffAt, Keys;
    if SameContainer(a, b) {
      InDiff(a, b, c);
      if c.path == [] {
        if e :| c in DiffAt(a, b, e) { OnlyChildren(a, b, e); }
      } else {
        ChangeAtExactly(a, b, c);
        if e :| c in DiffAt(a, b, e) { OnlyChildren(a, b, e); }
      }
    } else {
      SharedHere(a, b);
      assert c.path != [] ==> c.path[..0] == [];
      if c in DiffOf(a, b) { ChangesHold(a, b, c); }
    }
  }

  lemma {:induction false} ChangeAtExactly(a: Tree, b: Tree, c: Change)
    requires SameContainer(a, b) && c.path != []
    ensures c in DiffAt(a, b, c.path[0]) <==> Deep(c, a, b)
    decreases a, 0
  {
    hide DiffOf, SameContainer;
    var e, p := c.path[0], c.path[1..];
    assert c.path == [e] + p;
    AlongCons(a, b, c.path);
    LookOne(a, e);
    LookOne(b, e);
    match (Child(a, e), Child(b, e))
    case (Some(x), Some(y)) =>
      var inner := c.(path := p);
      ChangesExactly(x, y, inner);
      LookUnder(a, e, p);
      LookUnder(b, e, p);
      UnderIn(e, DiffOf(x, y), c);
    case _ =>
      if p == [] { assert c.path == [e]; }
  }

  lemma UnderIn(e: Key, cs: seq<Change>, c: Change)
    requires c.path != [] && c.path[0] == e
    ensures c in Under([e], cs) <==> c.(path := c.path[1..]) in cs
  {
    var inner := c.(path := c.path[1..]);
    assert [e] + c.path[1..] == c.path;
    if inner in cs {
      var i :| 0 <= i < |cs| && cs[i] == inner;
      assert Under([e], cs)[i] == c;
    }
    if c in Under([e], cs) {
      var i :| 0 <= i < |cs| && Under([e], cs)[i] == c;
      assert ([e] + cs[i].path)[1..] == cs[i].path;
    }
  }

  // ---------------------------------------------------------------- in order

  predicate KeyBefore(d: Key, e: Key) {
    match (d, e)
    case (Name(x), Name(y)) => x != y && Leq(x, y)
    case (Index(i), Index(j)) => i < j
    case _ => false
  }

  /** Where the paths part, the first has the smaller key. */
  ghost predicate PathBefore(p: Path, q: Path) {
    exists n :: 0 <= n < |p| && n < |q| && p[..n] == q[..n] && KeyBefore(p[n], q[n])
  }

  ghost predicate InOrder(cs: seq<Change>) {
    forall i, j :: 0 <= i < j < |cs| ==> PathBefore(cs[i].path, cs[j].path)
  }

  ghost predicate Ascending(es: seq<Key>) {
    forall i, j :: 0 <= i < j < |es| ==> KeyBefore(es[i], es[j])
  }

  lemma KeysAscend(a: Tree, b: Tree)
    ensures Ascending(Keys(a, b))
  {
    if a.Dict? && b.Dict? {
      var ks := SortedKeys(a.entries.Keys + b.entries.Keys);
      forall i, j | 0 <= i < j < |ks| ensures KeyBefore(Names(ks)[i], Names(ks)[j]) { assert Leq(ks[i], ks[j]); }
    }
  }

  /** The changes are listed in ascending order of keys and positions. */
  lemma {:induction false} ChangesInOrder(a: Tree, b: Tree)
    ensures InOrder(DiffOf(a, b))
    decreases a, 2
  {
    hide PathBefore;
    KeysAscend(a, b);
    AllInOrder(a, b, Keys(a, b));
  }

  lemma {:induction false} AllInOrder(a: Tree, b: Tree, es: seq<Key>)
    requires Ascending(es)
    ensures InOrder(DiffAll(a, b, es))
    decreases a, 1, |es|
  {
    hide DiffAt, DiffOf, PathBefore, KeyBefore;
    if es != [] {
      AtInOrder(a, b, es[0]);
      AllInOrder(a, b, es[1..]);
      var c, d := DiffAt(a, b, es[0]), DiffAll(a, b, es[1..]);
      forall i, j | 0 <= i < |c| && 0 <= j < |d| ensures PathBefore(c[i].path, d[j].path) {
        InAll(a, b, es[1..], d[j]);
        var e :| e in es[1..] && d[j] in DiffAt(a, b, e);
        OnlyChildren(a, b, e);
        OnlyChildren(a, b, es[0]);
        var k :| 0 <= k < |es[1..]| && es[1..][k] == e;
        assert es[k + 1] == e;
        BeforeAtOnce(c[i].path, d[j].path);
      }
      OrderAppend(c, d);
    }
  }

  lemma BeforeAtOnce(p: Path, q: Path)
    requires p != [] && q != [] && KeyBefore(p[0], q[0])
    ensures PathBefore(p, q)
  {
    assert p[..0] == q[..0];
  }

  lemma OrderAppend(c: seq<Change>, d: seq<Change>)
    requires InOrder(c) && InOrder(d)
    requires forall i, j :: 0 <= i < |c| && 0 <= j < |d| ==> PathBefore(c[i].path, d[j].path)
    ensures InOrder(c + d)
  {
    hide PathBefore;
    var s := c + d;
    forall i, j | 0 <= i < j < |s| ensures PathBefore(s[i].path, s[j].path) {
      assert s[i] == if i < |c| then c[i] else d[i - |c|];
      assert s[j] == if j < |c| then c[j] else d[j - |c|];
    }
  }

  lemma {:induction false} AtInOrder(a: Tree, b: Tree, e: Key)
    ensures InOrder(DiffAt(a, b, e))
    decreases a, 0
  {
    hide PathBefore, DiffOf;
    match (Child(a, e), Child(b, e))
    case (Some(x), Some(y)) =>
      ChangesInOrder(x, y);
      var cs := DiffOf(x, y);
      forall i, j | 0 <= i < j < |cs| ensures PathBefore([e] + cs[i].path, [e] + cs[j].path) {
        BeforeUnder(e, cs[i].path, cs[j].path);
      }
    case _ =>
  }

  lemma BeforeUnder(e: Key, p: Path, q: Path)
    requires PathBefore(p, q)
    ensures PathBefore([e] + p, [e] + q)
  {
    var n :| 0 <= n < |p| && n < |q| && p[..n] == q[..n] && KeyBefore(p[n], q[n]);
    var p', q' := [e] + p, [e] + q;
    assert p'[..n + 1] == [e] + p[..n] && q'[..n + 1] == [e] + q[..n];
    assert p'[n + 1] == p[n] && q'[n + 1] == q[n];
  }
}
