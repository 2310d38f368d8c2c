/** The canonical form of documents, tm/ast/canonical.py, and the equivalence it decides. */
module Canonical {
  import opened Collections
  import opened StringOrder
  import opened Json

  /** Positions whose lists are sets; "*" stands for any list index. */
  const SET_LIKE: set<seq<string>> := {
    ["metadata", "trace_links", "related_intents"],
    ["spec", "trace_links", "related_intents"],
    ["spec", "intent_refs"],
    ["spec", "impacted_intents"],
    ["spec", "tests", "*", "intent_refs"]
  }

  predicate IsSetLike(path: seq<string>) { path in SET_LIKE }

  // ---------------------------------------------------------------- the positions as they are written

  /** `str.split` at dots, which keeps empty parts. */
  function SplitDots(text: string, part: string): seq<string>
    decreases |text|
  {
    if text == "" then [part]
    else if text[0] == '.' then [part] + SplitDots(text[1..], "")
    else SplitDots(text[1..], part + [text[0]])
  }

  /** The tokens of one part: a part that ends in `[*]` is a key, if it has one, and any index. */
  function Tokens(part: string): seq<string> {
    if |part| >= 3 && part[|part| - 3..] == "[*]"
    then (if |part| == 3 then [] else [part[..|part| - 3]]) + ["*"]
    else [part]
  }

  function AllTokens(parts: seq<string>): seq<string> {
    if parts == [] then [] else Tokens(parts[0]) + AllTokens(parts[1..])
  }

  /** `_parse_path`. */
  function ParsePath(text: string): seq<string> { AllTokens(SplitDots(text, "")) }

  lemma {:induction false} SplitSkip(word: string, rest: string, part: string)
    requires '.' !in word
    ensures SplitDots(word + rest, part) == SplitDots(rest, part + word)
    decreases |word|
  {
    if word == "" {
      assert word + rest == rest && part + word == part;
    } else {
      assert (word + rest)[1..] == word[1..] + rest && (word + rest)[0] == word[0];
      SeqShift(part, word);
      SplitSkip(word[1..], rest, part + [word[0]]);
    }
  }

  /** The first part ends at the first dot. */
  lemma SplitFirst(word: string, rest: string)
    requires '.' !in word
    ensures SplitDots(word + "." + rest, "") == [word] + SplitDots(rest, "")
  {
    SeqPlus(word, ".", rest);
    SplitSkip(word, "." + rest, "");
    assert "" + word == word && ("." + rest)[1..] == rest;
  }

  lemma SplitLast(word: string)
    requires '.' !in word
    ensures SplitDots(word, "") == [word]
  {
    SplitSkip(word, "", "");
    assert word + "" == word && "" + word == word;
  }

  lemma TwoParts(a: string, b: string)
    requires '.' !in a && '.' !in b
    ensures ParsePath(a + "." + b) == Tokens(a) + Tokens(b)
  {
    hide Tokens;
    SplitFirst(a, b);
    SplitLast(b);
    assert [a, b][1..] == [b] && [b][1..] == [] && [a] + [b] == [a, b];
    assert AllTokens([b]) == Tokens(b) + [] == Tokens(b);
    assert AllTokens([a, b]) == Tokens(a) + AllTokens([b]);
  }

  lemma ThreeParts(a: string, b: string, c: string)
    requires '.' !in a && '.' !in b && '.' !in c
    ensures ParsePath(a + "." + (b + "." + c)) == Tokens(a) + (Tokens(b) + Tokens(c))
  {
    hide Tokens;
    SplitFirst(a, b + "." + c);
    TwoParts(b, c);
    var rest := SplitDots(b + "." + c, "");
    assert ([a] + rest)[1..] == rest;
  }

  lemma Plain(part: string)
    requires part != "" && part[|part| - 1] != ']'
    ensures Tokens(part) == [part]
  {
    if |part| >= 3 { assert part[|part| - 3..][2] == part[|part| - 1]; }
  }

  /** The positions are those that the source writes as dotted texts. */
  lemma SetLikeFromTexts()
    ensures SET_LIKE == {
      ParsePath("metadata.trace_links.related_intents"), ParsePath("spec.trace_links.related_intents"),
      ParsePath("spec.intent_refs"), ParsePath("spec.impacted_intents"), ParsePath("spec.tests[*].intent_refs")}
  {
    hide ParsePath;
    MetadataLinks();
    SpecLinks();
    SpecIntents();
    SpecImpacts();
    TestRefs();
  }

  lemma MetadataLinks()
    ensures ParsePath("metadata.trace_links.related_intents") == ["metadata", "trace_links", "related_intents"]
  {
    hide ParsePath;
    TraceLinks("metadata");
    assert "metadata" + ".trace_links.related_intents" == "metadata.trace_links.related_intents";
  }

  lemma SpecLinks()
    ensures ParsePath("spec.trace_links.related_intents") == ["spec", "trace_links", "related_intents"]
  {
    hide ParsePath;
    TraceLinks("spec");
    assert "spec" + ".trace_links.related_intents" == "spec.trace_links.related_intents";
  }

  lemma TraceLinks(part: string)
    requires part != "" && part[|part| - 1] != ']' && '.' !in part
    ensures ParsePath(part + ".trace_links.related_intents") == [part, "trace_links", "related_intents"]
  {
    hide ParsePath, Tokens;
    Plain(part);
    Plain("trace_links");
    Plain("related_intents");
    ThreeParts(part, "trace_links", "related_intents");
    assert "." + ("trace_links" + "." + "related_intents") == ".trace_links.related_intents";
    SeqPlus(part, ".", "trace_links" + "." + "related_intents");
  }

  lemma SpecIntents()
    ensures ParsePath("spec.intent_refs") == ["spec", "intent_refs"]
  {
    hide ParsePath, Tokens;
    Plain("spec");
    Plain("intent_refs");
    TwoParts("spec", "intent_refs");
    assert "spec" + "." + "intent_refs" == "spec.intent_refs";
  }

  lemma SpecImpacts()
    ensures ParsePath("spec.impacted_intents") == ["spec", "impacted_intents"]
  {
    hide ParsePath, Tokens;
    Plain("spec");
    Plain("impacted_intents");
    TwoParts("spec", "impacted_intents");
    assert "spec" + "." + "impacted_intents" == "spec.impacted_intents";
  }

  lemma TestRefs()
    ensures ParsePath("spec.tests[*].intent_refs") == ["spec", "tests", "*", "intent_refs"]
  {
    hide ParsePath, Tokens;
    Plain("spec");
    Plain("intent_refs");
    IndexedTests();
    ThreeParts("spec", "tests[*]", "intent_refs");
    assert "spec" + "." + ("tests[*]" + "." + "intent_refs") == "spec.tests[*].intent_refs";
  }

  lemma IndexedTests()
    ensures Tokens("tests[*]") == ["tests", "*"]
  {
    assert "tests[*]"[5..] == "[*]" && "tests[*]"[..5] == "tests";
  }

  // ---------------------------------------------------------------- order of set-like items

  /** Scalars come first, then the compact text decides. */
  function SortKey(v: Value): (nat, string) {
    (if v.Arr? || v.Obj? then 1 else 0, Print(v))
  }

  predicate KeyLeq(a: Value, b: Value) {
    SortKey(a).0 < SortKey(b).0 || (SortKey(a).0 == SortKey(b).0 && Leq(SortKey(a).1, SortKey(b).1))
  }

  predicate FieldLeq(a: Field, b: Field) { Leq(a.key, b.key) }

  lemma KeyLeqIsTotalPreorder()
    ensures TotalPreorder(KeyLeq)
  {
    hide Print, Leq;
    forall x, y ensures KeyLeq(x, y) || KeyLeq(y, x) { LeqTotal(Print(x), Print(y)); }
    forall x, y, z | KeyLeq(x, y) && KeyLeq(y, z) ensures KeyLeq(x, z) {
      if SortKey(x).0 == SortKey(y).0 == SortKey(z).0 { LeqTransitive(Print(x), Print(y), Print(z)); }
    }
  }

  lemma FieldLeqIsTotalPreorder()
    ensures TotalPreorder(FieldLeq)
  {
    hide Leq;
    forall x: Field, y: Field ensures FieldLeq(x, y) || FieldLeq(y, x) { LeqTotal(x.key, y.key); }
    forall x: Field, y: Field, z: Field | FieldLeq(x, y) && FieldLeq(y, z) ensures FieldLeq(x, z) {
      LeqTransitive(x.key, y.key, z.key);
    }
  }

  /** Well-formed values with the same sort key are equal. */
  lemma KeyDetermines(a: Value, b: Value)
    requires WellFormed(a) && WellFormed(b) && SortKey(a) == SortKey(b)
    ensures a == b
  {
    PrintInjective(a, b);
  }

  lemma KeyLeqAntisymmetric(a: Value, b: Value)
    requires WellFormed(a) && WellFormed(b) && KeyLeq(a, b) && KeyLeq(b, a)
    ensures a == b
  {
    LeqAntisymmetric(Print(a), Print(b));
    KeyDetermines(a, b);
  }

  // ---------------------------------------------------------------- set-like lists

  /** Keep the first item of every sort key. */
  function DedupFrom(items: seq<Value>, seen: set<(nat, string)>): seq<Value>
    decreases items
  {
    if items == [] then []
    else if SortKey(items[0]) in seen then DedupFrom(items[1..], seen)
    else [items[0]] + DedupFrom(items[1..], seen + {SortKey(items[0])})
  }

  function SetForm(items: seq<Value>): seq<Value> {
    Sort(DedupFrom(items, {}), KeyLeq)
  }

  method CanonicalizeSetLikeList(items: seq<Value>) returns (r: seq<Value>)
    ensures r == SetForm(items)
  {
    var seen: set<(nat, string)> := {};
    var deduped: seq<Value> := [];
    var i := 0;
    while i < |items|
      invariant 0 <= i <= |items|
      invariant deduped + DedupFrom(items[i..], seen) == DedupFrom(items, {})
    {
      var key := SortKey(items[i]);
      if key !in seen {
        SeqPlus(deduped, [items[i]], DedupFrom(items[i + 1..], seen + {key}));
        seen := seen + {key};
        deduped := deduped + [items[i]];
      }
      i := i + 1;
    }
    assert deduped + [] == deduped;
    r := Sort(deduped, KeyLeq);
  }

  lemma {:induction false} DedupIs(items: seq<Value>, seen: set<(nat, string)>)
    requires AllWellFormed(items)
    ensures forall x :: x in DedupFrom(items, seen) <==> x in items && SortKey(x) !in seen
    ensures NoDup(DedupFrom(items, seen))
    decreases items
  {
    if items != [] {
      var x0, rest := items[0], items[1..];
      assert forall i :: 0 <= i < |rest| ==> rest[i] == items[i + 1];
      var k := SortKey(x0);
      DedupIs(rest, seen);
      DedupIs(rest, seen + {k});
      forall x ensures x in items <==> x == x0 || x in rest {}
      forall x | x in rest && SortKey(x) == k ensures x == x0 {
        var i :| 0 <= i < |rest| && rest[i] == x;
        KeyDetermines(x, x0);
      }
    }
  }

  /** The set form lists the items once each, in key order. */
  lemma SetFormIs(items: seq<Value>)
    requires AllWellFormed(items)
    ensures forall x :: x in SetForm(items) <==> x in items
    ensures NoDup(SetForm(items)) && SortedBy(SetForm(items), KeyLeq)
  {
    var d := DedupFrom(items, {});
    DedupIs(items, {});
    KeyLeqIsTotalPreorder();
    SortSorts(d, KeyLeq);
    SortPermutes(d, KeyLeq);
    PermutedNoDup(d, Sort(d, KeyLeq));
  }

  lemma PermutedNoDup<T>(a: seq<T>, b: seq<T>)
    requires NoDup(a) && multiset(a) == multiset(b)
    ensures NoDup(b)
  {
    forall i, j | 0 <= i < j < |b| ensures b[i] != b[j] {
      if b[i] == b[j] {
        CountsTwo(b, i, j);
        CountsOnce(a, b[i]);
        assert false;
      }
    }
  }

  lemma CountsTwo<T>(b: seq<T>, i: nat, j: nat)
    requires i < j < |b| && b[i] == b[j]
    ensures multiset(b)[b[i]] >= 2
  {
    assert b == b[..i] + [b[i]] + b[i + 1..j] + [b[j]] + b[j + 1..];
  }

  /** Set forms are equal exactly when the items are the same set. */
  lemma SetFormDecides(a: seq<Value>, b: seq<Value>)
    requires AllWellFormed(a) && AllWellFormed(b)
    ensures SetForm(a) == SetForm(b) <==> forall x :: x in a <==> x in b
  {
    SetFormIs(a);
    SetFormIs(b);
    if forall x :: x in a <==> x in b {
      forall x, y | x in SetForm(a) && y in SetForm(a) && KeyLeq(x, y) && KeyLeq(y, x) ensures x == y {
        InWellFormed(a, x);
        InWellFormed(a, y);
        KeyLeqAntisymmetric(x, y);
      }
      SortedUnique(SetForm(a), SetForm(b), KeyLeq);
    } else {
      var x :| !(x in a <==> x in b);
      assert x in SetForm(a) <==> x in a;
      assert x in SetForm(b) <==> x in b;
    }
  }

  lemma InWellFormed(items: seq<Value>, x: Value)
    requires AllWellFormed(items) && x in items
    ensures WellFormed(x)
  {
  }

  // ---------------------------------------------------------------- canonical form

  /** Objects sorted by key, set-like lists sorted and without repetition, everything else kept. */
  function Canon(v: Value, path: seq<string>): Value
    decreases v, 1
  {
    match v
    case Obj(fields) => Obj(Sort(CanonFields(fields, path), FieldLeq))
    case Arr(items) =>
      var canonical := CanonItems(items, path + ["*"]);
      Arr(if IsSetLike(path) then SetForm(canonical) else canonical)
    case _ => v
  }

  function CanonItems(items: seq<Value>, path: seq<string>): (r: seq<Value>)
    ensures |r| == |items| && forall i :: 0 <= i < |items| ==> r[i] == Canon(items[i], path)
    decreases items, 0
  {
    if items == [] then [] else [Canon(items[0], path)] + CanonItems(items[1..], path)
  }

  function CanonFields(fields: seq<Field>, path: seq<string>): (r: seq<Field>)
    ensures |r| == |fields| && forall i :: 0 <= i < |fields| ==> r[i] == CanonField(fields[i], path)
    decreases fields, 0
  {
    if fields == [] then [] else [CanonField(fields[0], path)] + CanonFields(fields[1..], path)
  }

  function CanonField(f: Field, path: seq<string>): Field
    decreases f, 2
  {
    Field(f.key, Canon(f.value, path + [f.key]))
  }

  /** Sorting the fields first, as the source does, gives the same object. */
  lemma {:induction false} SortThenCanon(fields: seq<Field>, path: seq<string>)
    ensures CanonFields(Sort(fields, FieldLeq), path) == Sort(CanonFields(fields, path), FieldLeq)
  {
    if fields != [] {
      SortThenCanon(fields[1..], path);
      InsertThenCanon(fields[0], Sort(fields[1..], FieldLeq), path);
    }
  }

  lemma {:induction false} InsertThenCanon(f: Field, fields: seq<Field>, path: seq<string>)
    ensures CanonFields(Insert(f, fields, FieldLeq), path) ==
            Insert(CanonField(f, path), CanonFields(fields, path), FieldLeq)
  {
    if fields != [] && !FieldLeq(f, fields[0]) {
      InsertThenCanon(f, fields[1..], path);
    }
  }

  // ---------------------------------------------------------------- well-formedness

  lemma SortedFieldsAre(fields: seq<Field>)
    requires UniqueKeys(fields)
    ensures var s := Sort(fields, FieldLeq);
            && UniqueKeys(s) && NoDup(s) && SortedBy(s, FieldLeq)
            && forall f :: f in s <==> f in fields
  {
    var s := Sort(fields, FieldLeq);
    FieldLeqIsTotalPreorder();
    SortSorts(fields, FieldLeq);
    SortPermutes(fields, FieldLeq);
    assert NoDup(fields);
    PermutedNoDup(fields, s);
    forall i, j | 0 <= i < j < |s| ensures s[i].key != s[j].key {
      assert s[i] in fields && s[j] in fields;
    }
  }

  lemma {:induction false} CanonWellFormed(v: Value, path: seq<string>)
    requires WellFormed(v)
    ensures WellFormed(Canon(v, path))
    decreases v, 1
  {
    match v
    case Obj(fields) =>
      var cs := CanonFields(fields, path);
      forall i | 0 <= i < |fields| ensures FieldWellFormed(cs[i]) { CanonFieldWellFormed(fields[i], path); }
      SortedFieldsAre(cs);
      var s := Sort(cs, FieldLeq);
      forall i | 0 <= i < |s| ensures FieldWellFormed(s[i]) { assert s[i] in cs; }
    case Arr(items) =>
      CanonItemsWellFormed(items, path + ["*"]);
      var cs := CanonItems(items, path + ["*"]);
      SetFormIs(cs);
      var s := SetForm(cs);
      forall i | 0 <= i < |s| ensures WellFormed(s[i]) { assert s[i] in cs; InWellFormed(cs, s[i]); }
    case _ =>
  }

  lemma {:induction false} CanonItemsWellFormed(items: seq<Value>, path: seq<string>)
    requires AllWellFormed(items)
    ensures AllWellFormed(CanonItems(items, path))
    decreases items, 0
  {
    forall i | 0 <= i < |items| ensures WellFormed(CanonItems(items, path)[i]) { CanonWellFormed(items[i], path); }
  }

  lemma {:induction false} CanonFieldWellFormed(f: Field, path: seq<string>)
    requires FieldWellFormed(f)
    ensures FieldWellFormed(CanonField(f, path))
    decreases f, 2
  {
    CanonWellFormed(f.value, path + [f.key]);
  }

  // ---------------------------------------------------------------- the equivalence

  ghost function KeySet(fields: seq<Field>): set<string> {
    set i | 0 <= i < |fields| :: fields[i].key
  }

  /** Equal up to the order of object keys and the order and multiplicity of set-like items. */
  ghost predicate Equiv(a: Value, b: Value, path: seq<string>)
    decreases a, 1
  {
    match a
    case Obj(fs) =>
      b.Obj? && KeySet(fs) == KeySet(b.fields) &&
      forall i, j :: 0 <= i < |fs| && 0 <= j < |b.fields| && fs[i].key == b.fields[j].key ==>
        FieldEquiv(fs[i], b.fields[j], path)
    case Arr(xs) =>
      b.Arr? &&
      var p, ys := path + ["*"], b.items;
      if IsSetLike(path) then
        && (forall i :: 0 <= i < |xs| ==> Matches(xs[i], ys, p))
        && (forall j :: 0 <= j < |ys| ==> MatchedBy(xs, ys[j], p))
      else |xs| == |ys| && forall i :: 0 <= i < |xs| ==> Equiv(xs[i], ys[i], p)
    case _ => a == b
  }

  ghost predicate Matches(x: Value, ys: seq<Value>, path: seq<string>)
    decreases x, 2
  {
    exists j :: 0 <= j < |ys| && Equiv(x, ys[j], path)
  }

  ghost predicate MatchedBy(xs: seq<Value>, y: Value, path: seq<string>)
    decreases xs, 2
  {
    exists i :: 0 <= i < |xs| && Equiv(xs[i], y, path)
  }

  ghost predicate FieldEquiv(f: Field, g: Field, path: seq<string>)
    decreases f, 2
  {
    Equiv(f.value, g.value, path + [f.key])
  }

  /** Sorted objects are equal exactly when they hold the same fields. */
  lemma SortedFieldsDecide(a: seq<Field>, b: seq<Field>)
    requires UniqueKeys(a) && UniqueKeys(b)
    ensures Sort(a, FieldLeq) == Sort(b, FieldLeq) <==> forall f :: f in a <==> f in b
  {
    SortedFieldsAre(a);
    SortedFieldsAre(b);
    var s, t := Sort(a, FieldLeq), Sort(b, FieldLeq);
    if forall f :: f in a <==> f in b {
      forall x, y | x in s && y in s && FieldLeq(x, y) && FieldLeq(y, x) ensures x == y {
        LeqAntisymmetric(x.key, y.key);
        var i :| 0 <= i < |s| && s[i] == x;
        var j :| 0 <= j < |s| && s[j] == y;
      }
      SortedUnique(s, t, FieldLeq);
    } else {
      var f :| !(f in a <==> f in b);
      assert f in s <==> f in a;
      assert f in t <==> f in b;
    }
  }

  /** Documents have equal canonical forms if and only if they are equivalent. */
  lemma {:induction false} CanonDecides(a: Value, b: Value, path: seq<string>)
    requires WellFormed(a) && WellFormed(b)
    ensures Canon(a, path) == Canon(b, path) <==> Equiv(a, b, path)
    decreases a, 1
  {
    match a
    case Obj(fs) =>
      if b.Obj? {
        forall i, j | 0 <= i < |fs| && 0 <= j < |b.fields| && fs[i].key == b.fields[j].key
          ensures CanonField(fs[i], path) == CanonField(b.fields[j], path) <==> FieldEquiv(fs[i], b.fields[j], path)
        {
          CanonFieldDecides(fs[i], b.fields[j], path);
        }
        ObjDecides(fs, b.fields, path);
      }
    case Arr(xs) =>
      if b.Arr? {
        var p, ys := path + ["*"], b.items;
        forall i, j | 0 <= i < |xs| && 0 <= j < |ys|
          ensures Canon(xs[i], p) == Canon(ys[j], p) <==> Equiv(xs[i], ys[j], p)
        {
          CanonDecides(xs[i], ys[j], p);
        }
        ArrDecides(xs, ys, path);
      }
    case _ =>
  }

  lemma {:induction false} CanonFieldDecides(f: Field, g: Field, path: seq<string>)
    requires FieldWellFormed(f) && FieldWellFormed(g) && f.key == g.key
    ensures CanonField(f, path) == CanonField(g, path) <==> FieldEquiv(f, g, path)
    decreases f, 2
  {
    CanonDecides(f.value, g.value, path + [f.key]);
  }

  /** The pairwise hypothesis of the two list cases. */
  ghost predicate Decided(xs: seq<Value>, ys: seq<Value>, p: seq<string>) {
    forall i, j :: 0 <= i < |xs| && 0 <= j < |ys| ==> (Canon(xs[i], p) == Canon(ys[j], p) <==> Equiv(xs[i], ys[j], p))
  }

  ghost predicate SameSet(xs: seq<Value>, ys: seq<Value>, p: seq<string>) {
    && (forall i :: 0 <= i < |xs| ==> Matches(xs[i], ys, p))
    && (forall j :: 0 <= j < |ys| ==> MatchedBy(xs, ys[j], p))
  }

  ghost predicate SameList(xs: seq<Value>, ys: seq<Value>, p: seq<string>) {
    |xs| == |ys| && forall i :: 0 <= i < |xs| ==> Equiv(xs[i], ys[i], p)
  }

  lemma EquivArr(xs: seq<Value>, ys: seq<Value>, path: seq<string>)
    ensures Equiv(Arr(xs), Arr(ys), path) <==>
      if IsSetLike(path) then SameSet(xs, ys, path + ["*"]) else SameList(xs, ys, path + ["*"])
  {
    hide IsSetLike, Matches, MatchedBy;
  }

  lemma CanonArr(xs: seq<Value>, path: seq<string>)
    ensures var cs := CanonItems(xs, path + ["*"]);
      Canon(Arr(xs), path) == Arr(if IsSetLike(path) then SetForm(cs) else cs)
  {
    hide IsSetLike, SetForm;
  }

  lemma ArrDecides(xs: seq<Value>, ys: seq<Value>, path: seq<string>)
    requires AllWellFormed(xs) && AllWellFormed(ys) && Decided(xs, ys, path + ["*"])
    ensures Canon(Arr(xs), path) == Canon(Arr(ys), path) <==> Equiv(Arr(xs), Arr(ys), path)
  {
    hide Canon, Equiv, IsSetLike, SetForm, SameSet, SameList, Decided, AllWellFormed;
    CanonArr(xs, path);
    CanonArr(ys, path);
    EquivArr(xs, ys, path);
    if IsSetLike(path) { SetDecides(xs, ys, path + ["*"]); } else { ListDecides(xs, ys, path + ["*"]); }
  }

  lemma SetDecides(xs: seq<Value>, ys: seq<Value>, p: seq<string>)
    requires AllWellFormed(xs) && AllWellFormed(ys) && Decided(xs, ys, p)
    ensures SetForm(CanonItems(xs, p)) == SetForm(CanonItems(ys, p)) <==> SameSet(xs, ys, p)
  {
    hide Canon, Equiv, SetForm, Matches, MatchedBy, AllWellFormed;
    var cx, cy := CanonItems(xs, p), CanonItems(ys, p);
    CanonItemsWellFormed(xs, p);
    CanonItemsWellFormed(ys, p);
    SetFormDecides(cx, cy);
    SameItems(cx, cy);
    forall i | 0 <= i < |xs| ensures Matches(xs[i], ys, p) <==> cx[i] in cy { RowMatches(xs, ys, i, p); }
    forall j | 0 <= j < |ys| ensures MatchedBy(xs, ys[j], p) <==> cy[j] in cx { ColumnMatches(xs, ys, j, p); }
  }

  lemma ListDecides(xs: seq<Value>, ys: seq<Value>, p: seq<string>)
    requires Decided(xs, ys, p)
    ensures CanonItems(xs, p) == CanonItems(ys, p) <==> SameList(xs, ys, p)
  {
    hide Canon, Equiv;
    var cx, cy := CanonItems(xs, p), CanonItems(ys, p);
    if SameList(xs, ys, p) {
      assert forall i :: 0 <= i < |cx| ==> cx[i] == cy[i];
    }
    if cx == cy {
      forall i | 0 <= i < |xs| ensures Equiv(xs[i], ys[i], p) { assert cx[i] == cy[i]; }
    }
  }

  lemma RowMatches(xs: seq<Value>, ys: seq<Value>, i: nat, p: seq<string>)
    requires i < |xs|
    requires forall j :: 0 <= j < |ys| ==> (Canon(xs[i], p) == Canon(ys[j], p) <==> Equiv(xs[i], ys[j], p))
    ensures Matches(xs[i], ys, p) <==> CanonItems(xs, p)[i] in CanonItems(ys, p)
  {
    hide Equiv, Canon;
    var cx, cy := CanonItems(xs, p), CanonItems(ys, p);
    if cx[i] in cy {
      var j :| 0 <= j < |cy| && cy[j] == cx[i];
      assert Equiv(xs[i], ys[j], p);
    }
    if Matches(xs[i], ys, p) {
      var j :| 0 <= j < |ys| && Equiv(xs[i], ys[j], p);
      assert cy[j] == cx[i];
    }
  }

  lemma ColumnMatches(xs: seq<Value>, ys: seq<Value>, j: nat, p: seq<string>)
    requires j < |ys|
    requires forall i :: 0 <= i < |xs| ==> (Canon(xs[i], p) == Canon(ys[j], p) <==> Equiv(xs[i], ys[j], p))
    ensures MatchedBy(xs, ys[j], p) <==> CanonItems(ys, p)[j] in CanonItems(xs, p)
  {
    hide Equiv, Canon;
    var cx, cy := CanonItems(xs, p), CanonItems(ys, p);
    if cy[j] in cx {
      var i :| 0 <= i < |cx| && cx[i] == cy[j];
      assert Equiv(xs[i], ys[j], p);
    }
    if MatchedBy(xs, ys[j], p) {
      var i :| 0 <= i < |xs| && Equiv(xs[i], ys[j], p);
      assert cx[i] == cy[j];
    }
  }

  lemma SameItems<T>(cx: seq<T>, cy: seq<T>)
    ensures (forall x :: x in cx <==> x in cy) <==>
      (forall i :: 0 <= i < |cx| ==> cx[i] in cy) && (forall j :: 0 <= j < |cy| ==> cy[j] in cx)
  {
  }

  lemma ObjDecides(fs: seq<Field>, gs: seq<Field>, path: seq<string>)
    requires UniqueKeys(fs) && UniqueKeys(gs)
    requires forall i, j :: 0 <= i < |fs| && 0 <= j < |gs| && fs[i].key == gs[j].key ==>
      (CanonField(fs[i], path) == CanonField(gs[j], path) <==> FieldEquiv(fs[i], gs[j], path))
    ensures Canon(Obj(fs), path) == Canon(Obj(gs), path) <==> Equiv(Obj(fs), Obj(gs), path)
  {
    var cf, cg := CanonFields(fs, path), CanonFields(gs, path);
    SortedFieldsDecide(cf, cg);
    if Equiv(Obj(fs), Obj(gs), path) {
      EquivFieldsSame(fs, gs, path);
      EquivFieldsSame(gs, fs, path);
    } else if forall f :: f in cf <==> f in cg {
      SameFieldsEquiv(fs, gs, path);
    }
  }

  /** Every canonical field of the one is a canonical field of the other. */
  lemma EquivFieldsSame(fs: seq<Field>, gs: seq<Field>, path: seq<string>)
    requires KeySet(fs) == KeySet(gs)
    requires forall i, j :: 0 <= i < |fs| && 0 <= j < |gs| && fs[i].key == gs[j].key ==>
      CanonField(fs[i], path) == CanonField(gs[j], path)
    ensures forall f :: f in CanonFields(fs, path) ==> f in CanonFields(gs, path)
  {
    var cf, cg := CanonFields(fs, path), CanonFields(gs, path);
    forall f | f in cf ensures f in cg {
      var i :| 0 <= i < |fs| && cf[i] == f;
      assert fs[i].key in KeySet(gs);
      var j :| 0 <= j < |gs| && gs[j].key == fs[i].key;
      assert cg[j] == f;
    }
  }

  ghost predicate Included(a: seq<Field>, b: seq<Field>) { forall f :: f in a ==> f in b }

  lemma SameFieldsEquiv(fs: seq<Field>, gs: seq<Field>, path: seq<string>)
    requires UniqueKeys(fs) && UniqueKeys(gs)
    requires Included(CanonFields(fs, path), CanonFields(gs, path))
    requires Included(CanonFields(gs, path), CanonFields(fs, path))
    ensures KeySet(fs) == KeySet(gs)
    ensures forall i, j :: 0 <= i < |fs| && 0 <= j < |gs| && fs[i].key == gs[j].key ==>
      CanonField(fs[i], path) == CanonField(gs[j], path)
  {
    hide CanonFields, CanonField, KeySet, Included;
    KeysWithin(fs, gs, path);
    KeysWithin(gs, fs, path);
    forall i, j | 0 <= i < |fs| && 0 <= j < |gs| && fs[i].key == gs[j].key
      ensures CanonField(fs[i], path) == CanonField(gs[j], path)
    {
      SameKeySameField(fs, i, gs, j, path);
    }
  }

  lemma SameKeySameField(fs: seq<Field>, i: nat, gs: seq<Field>, j: nat, path: seq<string>)
    requires UniqueKeys(gs) && i < |fs| && j < |gs| && fs[i].key == gs[j].key
    requires Included(CanonFields(fs, path), CanonFields(gs, path))
    ensures CanonField(fs[i], path) == CanonField(gs[j], path)
  {
    hide Canon, CanonFields;
    var cf, cg := CanonFields(fs, path), CanonFields(gs, path);
    assert cf[i] in cf;
    var m :| 0 <= m < |cg| && cg[m] == cf[i];
    assert gs[m].key == cg[m].key == gs[j].key;
    assert m == j;
  }

  lemma KeysWithin(fs: seq<Field>, gs: seq<Field>, path: seq<string>)
    requires Included(CanonFields(fs, path), CanonFields(gs, path))
    ensures KeySet(fs) <= KeySet(gs)
  {
    hide Canon;
    var cf, cg := CanonFields(fs, path), CanonFields(gs, path);
    forall k | k in KeySet(fs) ensures k in KeySet(gs) {
      var i :| 0 <= i < |fs| && fs[i].key == k;
      assert cf[i] in cg;
      var j :| 0 <= j < |cg| && cg[j] == cf[i];
      assert gs[j].key == k;
    }
  }

  // ---------------------------------------------------------------- idempotence

  /** A document is equivalent to its canonical form. */
  lemma {:induction false} CanonIsEquivalent(v: Value, path: seq<string>)
    requires WellFormed(v)
    ensures Equiv(Canon(v, path), v, path)
    decreases v, 1
  {
    match v
    case Obj(fields) =>
      var cs := CanonFields(fields, path);
      SortedFieldsAre(cs);
      var s := Sort(cs, FieldLeq);
      forall i | 0 <= i < |fields| ensures FieldEquiv(cs[i], fields[i], path) {
        CanonFieldIsEquivalent(fields[i], path);
      }
      SortedEquiv(s, cs, fields, path);
    case Arr(items) =>
      var p := path + ["*"];
      var cs := CanonItems(items, p);
      forall i | 0 <= i < |items| ensures Equiv(cs[i], items[i], p) { CanonIsEquivalent(items[i], p); }
      if IsSetLike(path) {
        CanonItemsWellFormed(items, p);
        SetFormIs(cs);
        SetFormMatches(SetForm(cs), cs, items, p);
      }
    case _ =>
  }

  lemma SetFormMatches(s: seq<Value>, cs: seq<Value>, items: seq<Value>, p: seq<string>)
    requires |cs| == |items| && forall i :: 0 <= i < |items| ==> Equiv(cs[i], items[i], p)
    requires forall x :: x in s <==> x in cs
    ensures forall i :: 0 <= i < |s| ==> Matches(s[i], items, p)
    ensures forall j :: 0 <= j < |items| ==> MatchedBy(s, items[j], p)
  {
    hide Equiv;
    forall i | 0 <= i < |s| ensures Matches(s[i], items, p) {
      assert s[i] in cs;
      var j :| 0 <= j < |cs| && cs[j] == s[i];
      assert Equiv(s[i], items[j], p);
    }
    forall j | 0 <= j < |items| ensures MatchedBy(s, items[j], p) {
      assert cs[j] in s;
      var i :| 0 <= i < |s| && s[i] == cs[j];
      assert Equiv(s[i], items[j], p);
    }
  }

  lemma {:induction false} CanonFieldIsEquivalent(f: Field, path: seq<string>)
    requires FieldWellFormed(f)
    ensures FieldEquiv(CanonField(f, path), f, path)
    decreases f, 2
  {
    CanonIsEquivalent(f.value, path + [f.key]);
  }

  lemma SortedEquiv(s: seq<Field>, cs: seq<Field>, fields: seq<Field>, path: seq<string>)
    requires |cs| == |fields| && UniqueKeys(fields)
    requires forall i :: 0 <= i < |cs| ==> cs[i].key == fields[i].key && FieldEquiv(cs[i], fields[i], path)
    requires forall f :: f in s <==> f in cs
    ensures Equiv(Obj(s), Obj(fields), path)
  {
    hide FieldEquiv;
    forall k ensures k in KeySet(s) <==> k in KeySet(fields) {
      if k in KeySet(s) {
        var i :| 0 <= i < |s| && s[i].key == k;
        assert s[i] in cs;
        var j :| 0 <= j < |cs| && cs[j] == s[i];
        assert fields[j].key == k;
      }
      if k in KeySet(fields) {
        var i :| 0 <= i < |fields| && fields[i].key == k;
        assert cs[i] in s;
        var j :| 0 <= j < |s| && s[j] == cs[i];
      }
    }
    forall i, j | 0 <= i < |s| && 0 <= j < |fields| && s[i].key == fields[j].key
      ensures FieldEquiv(s[i], fields[j], path)
    {
      assert s[i] in cs;
      var m :| 0 <= m < |cs| && cs[m] == s[i];
      assert m == j;
    }
  }

  /** Canonicalizing twice is canonicalizing once. */
  lemma CanonIdempotent(v: Value, path: seq<string>)
    requires WellFormed(v)
    ensures Canon(Canon(v, path), path) == Canon(v, path)
  {
    CanonWellFormed(v, path);
    CanonIsEquivalent(v, path);
    CanonDecides(Canon(v, path), v, path);
  }

  // ---------------------------------------------------------------- the order of what comes out

  /** The keys of a canonical object ascend by code point, without repetition. */
  lemma CanonKeysAscend(fields: seq<Field>, path: seq<string>, i: nat, j: nat)
    requires UniqueKeys(fields)
    requires var c := Canon(Obj(fields), path); c.Obj? && i < j < |c.fields|
    ensures var c := Canon(Obj(fields), path);
      c.fields[i].key != c.fields[j].key &&
      (c.fields[i].key <= c.fields[j].key || exists n: nat :: LessAt(c.fields[i].key, c.fields[j].key, n))
  {
    hide CanonField, Leq;
    var cs := CanonFields(fields, path);
    assert UniqueKeys(cs) by { KeysKept(fields, path); }
    SortedFieldsAre(cs);
    var s := Sort(cs, FieldLeq);
    assert FieldLeq(s[i], s[j]);
    LeqExactly(s[i].key, s[j].key);
  }

  lemma KeysKept(fields: seq<Field>, path: seq<string>)
    requires UniqueKeys(fields)
    ensures UniqueKeys(CanonFields(fields, path))
  {
  }

  predicate Scalar(v: Value) { !v.Arr? && !v.Obj? }

  /** In a set-like list scalars come before containers, and each kind ascends by its compact text. */
  lemma SetFormOrder(items: seq<Value>, i: nat, j: nat)
    requires AllWellFormed(items) && i < j < |SetForm(items)|
    ensures var a, b := SetForm(items)[i], SetForm(items)[j];
      && (Scalar(b) ==> Scalar(a))
      && (Scalar(a) == Scalar(b) ==> Print(a) <= Print(b) || exists n: nat :: LessAt(Print(a), Print(b), n))
  {
    hide Print, Leq, SetForm;
    SetFormIs(items);
    var a, b := SetForm(items)[i], SetForm(items)[j];
    assert KeyLeq(a, b);
    LeqExactly(Print(a), Print(b));
  }
}
