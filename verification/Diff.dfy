/** The structural difference of two documents, tm/app/wiring.py. */
module Diff {
  import opened Collections
  import opened StringOrder
  import opened Trees

  datatype Key = Name(name: string) | Index(index: nat)
  type Path = seq<Key>
  datatype Kind = Added | Removed | Modified
  datatype Change = Change(path: Path, kind: Kind, before: Tree, after: Tree)

  // ---------------------------------------------------------------- reading a document

  function Child(t: Tree, e: Key): Option<Tree> {
    match (t, e)
    case (Dict(m), Name(k)) => if k in m then Some(m[k]) else None
    case (Lst(xs), Index(i)) => if i < |xs| then Some(xs[i]) else None
    case _ => None
  }

  function Look(t: Tree, p: Path): Option<Tree> {
    if p == [] then Some(t)
    else match Child(t, p[0])
      case Some(c) => Look(c, p[1..])
      case None => None
  }

  /** The runtime type of a document. */
  function TypeOf(t: Tree): nat {
    match t
    case Leaf(Null) => 0
    case Leaf(Bool(_)) => 1
    case Leaf(Int(_)) => 2
    case Leaf(Real(_)) => 3
    case Leaf(Text(_)) => 4
    case Lst(_) => 5
    case Dict(_) => 6
  }

  // ---------------------------------------------------------------- specification

  /** The changes with `p` put in front of every path. */
  function Under(p: Path, cs: seq<Change>): (r: seq<Change>)
    ensures |r| == |cs|
    ensures forall i :: 0 <= i < |r| ==> r[i] == cs[i].(path := p + cs[i].path)
  {
    if cs == [] then [] else [cs[0].(path := p + cs[0].path)] + Under(p, cs[1..])
  }

  function Names(ks: seq<string>): seq<Key> { seq(|ks|, i requires 0 <= i < |ks| => Name(ks[i])) }

  function Indices(n: nat): seq<Key> { seq(n, i requires 0 <= i < n => Index(i)) }

  function Max(a: nat, b: nat): nat { if a < b then b else a }

  /** The keys of either document: names in ascending order, or positions. */
  ghost function Keys(a: Tree, b: Tree): seq<Key> {
    if a.Dict? && b.Dict? then Names(SortedKeys(a.entries.Keys + b.entries.Keys))
    else if a.Lst? && b.Lst? then Indices(Max(|a.items|, |b.items|))
    else []
  }

  /** The difference with paths relative to the documents. */
  ghost function DiffOf(a: Tree, b: Tree): seq<Change>
    decreases a, 2
  {
    if TypeOf(a) != TypeOf(b) || (a.Leaf? && a != b) then [Change([], Modified, a, b)]
    else DiffAll(a, b, Keys(a, b))
  }

  ghost function DiffAll(a: Tree, b: Tree, es: seq<Key>): seq<Change>
    decreases a, 1, |es|
  {
    if es == [] then [] else DiffAt(a, b, es[0]) + DiffAll(a, b, es[1..])
  }

  ghost function DiffAt(a: Tree, b: Tree, e: Key): seq<Change>
    decreases a, 0
  {
    match (Child(a, e), Child(b, e))
    case (None, Some(y)) => [Change([e], Added, NONE, y)]
    case (Some(x), None) => [Change([e], Removed, x, NONE)]
    case (Some(x), Some(y)) => Under([e], DiffOf(x, y))
    case (None, None) => []
  }

  // ---------------------------------------------------------------- the code

  /** `_diff_json`: absolute paths, keys in ascending order, items by position. */
  method DiffJson(a: Tree, b: Tree, path: Path) returns (changes: seq<Change>)
    ensures changes == Under(path, DiffOf(a, b))
    decreases a, 1
  {
    if TypeOf(a) != TypeOf(b) {
      assert path + [] == path;
      return [Change(path, Modified, a, b)];
    }
    match a
    case Dict(_) => changes := DiffDict(a, b, path);
    case Lst(_) => changes := DiffList(a, b, path);
    case Leaf(_) =>
      assert path + [] == path;
      changes := if a != b then [Change(path, Modified, a, b)] else [];
  }

  /** The branch for dictionaries. */
  method DiffDict(a: Tree, b: Tree, path: Path) returns (changes: seq<Change>)
    requires a.Dict? && b.Dict?
    ensures changes == Under(path, DiffOf(a, b))
    decreases a, 0
  {
    hide DiffOf, DiffAll, SortedKeys, Under, Keys, Names, TypeOf;
    var m, n := a.entries, b.entries;
    changes := [];
    var keys := SortSet(m.Keys + n.Keys);
    ghost var es := Names(keys);
    DictKeys(a, b, keys);
    var i := 0;
    while i < |keys|
      invariant 0 <= i <= |keys|
      invariant changes + Under(path, DiffAll(a, b, es[i..])) == Under(path, DiffAll(a, b, es))
    {
      var key := keys[i];
      assert es[i] == Name(key);
      assert key in m || key in n by { assert key in keys; }
      var found;
      if key !in m {
        found := [Change(path + [Name(key)], Added, NONE, n[key])];
        UnderOne(path, found[0].(path := [Name(key)]));
      } else if key !in n {
        found := [Change(path + [Name(key)], Removed, m[key], NONE)];
        UnderOne(path, found[0].(path := [Name(key)]));
      } else {
        found := DiffJson(m[key], n[key], path + [Name(key)]);
        UnderUnder(path, [Name(key)], DiffOf(m[key], n[key]));
      }
      NextKey(path, a, b, es, i, changes);
      changes := changes + found;
      i := i + 1;
    }
    assert es[i..] == [];
    NoKeys(path, a, b, changes);
  }

  lemma DictKeys(a: Tree, b: Tree, keys: seq<string>)
    requires a.Dict? && b.Dict? && Lists(keys, a.entries.Keys + b.entries.Keys)
    ensures |Names(keys)| == |keys| && forall i :: 0 <= i < |keys| ==> Names(keys)[i] == Name(keys[i])
    ensures DiffOf(a, b) == DiffAll(a, b, Names(keys))
  {
    hide SortedKeys;
    var all := a.entries.Keys + b.entries.Keys;
    ListsUnique(keys, SortedKeys(all), all);
  }

  /** The branch for lists. */
  method DiffList(a: Tree, b: Tree, path: Path) returns (changes: seq<Change>)
    requires a.Lst? && b.Lst?
    ensures changes == Under(path, DiffOf(a, b))
    decreases a, 0
  {
    hide DiffOf, DiffAll, Under, Indices, TypeOf;
    var xs, ys := a.items, b.items;
    changes := [];
    ghost var es := Indices(Max(|xs|, |ys|));
    ListKeys(a, b);
    var length := Max(|xs|, |ys|);
    var i := 0;
    while i < length
      invariant 0 <= i <= length == |es|
      invariant changes + Under(path, DiffAll(a, b, es[i..])) == Under(path, DiffAll(a, b, es))
    {
      assert es[i] == Index(i);
      var found;
      if i >= |xs| {
        found := [Change(path + [Index(i)], Added, NONE, ys[i])];
        UnderOne(path, found[0].(path := [Index(i)]));
      } else if i >= |ys| {
        found := [Change(path + [Index(i)], Removed, xs[i], NONE)];
        UnderOne(path, found[0].(path := [Index(i)]));
      } else {
        found := DiffJson(xs[i], ys[i], path + [Index(i)]);
        UnderUnder(path, [Index(i)], DiffOf(xs[i], ys[i]));
      }
      NextKey(path, a, b, es, i, changes);
      changes := changes + found;
      i := i + 1;
    }
    assert es[i..] == [];
    NoKeys(path, a, b, changes);
  }

  lemma ListKeys(a: Tree, b: Tree)
    requires a.Lst? && b.Lst?
    ensures var es := Indices(Max(|a.items|, |b.items|));
      && |es| == Max(|a.items|, |b.items|) && DiffOf(a, b) == DiffAll(a, b, es)
      && forall j :: 0 <= j < |es| ==> es[j] == Index(j)
  {
  }

  /** One turn of either loop. */
  lemma NextKey(path: Path, a: Tree, b: Tree, es: seq<Key>, i: nat, changes: seq<Change>)
    requires i < |es|
    ensures (changes + Under(path, DiffAt(a, b, es[i]))) + Under(path, DiffAll(a, b, es[i + 1..])) ==
            changes + Under(path, DiffAll(a, b, es[i..]))
  {
    hide Under, DiffAt;
    assert es[i..][1..] == es[i + 1..];
    UnderPlus(path, DiffAt(a, b, es[i]), DiffAll(a, b, es[i + 1..]));
    SeqPlus(changes, Under(path, DiffAt(a, b, es[i])), Under(path, DiffAll(a, b, es[i + 1..])));
  }

  lemma NoKeys(path: Path, a: Tree, b: Tree, changes: seq<Change>)
    ensures changes + Under(path, DiffAll(a, b, [])) == changes
  {
  }

  lemma UnderOne(p: Path, c: Change)
    ensures Under(p, [c]) == [c.(path := p + c.path)]
  {
  }

  lemma UnderPlus(p: Path, a: seq<Change>, b: seq<Change>)
    ensures Under(p, a + b) == Under(p, a) + Under(p, b)
  {
  }

  lemma UnderUnder(p: Path, q: Path, cs: seq<Change>)
    ensures Under(p, Under(q, cs)) == Under(p + q, cs)
  {
    forall i | 0 <= i < |cs| ensures p + (q + cs[i].path) == (p + q) + cs[i].path {
      SeqPlus(p, q, cs[i].path);
    }
  }
}
