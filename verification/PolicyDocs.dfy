/** Dotted paths into policy documents and the changes made at them, tm/ai/proposals.py and `PolicyStore.get`. */
module PolicyDocs {
  import opened Collections
  import opened Trees
  import opened Paths

  type Doc = map<string, Tree>
  type Path = seq<string>

  // ---------------------------------------------------------------- dotted paths

  function Flush(current: string): seq<string> { if current == "" then [] else [current] }

  function SegmentsFrom(text: string, current: string): seq<string>
    decreases |text|
  {
    if text == "" then Flush(current)
    else if text[0] == '.' then Flush(current) + SegmentsFrom(text[1..], "")
    else SegmentsFrom(text[1..], current + [text[0]])
  }

  /** The non-empty parts of a dotted path. */
  function Segments(text: string): seq<string> { SegmentsFrom(text, "") }

  predicate Segment(s: string) { s != "" && '.' !in s }

  predicate Proper(p: Path) { forall i :: 0 <= i < |p| ==> Segment(p[i]) }

  function Dotted(p: Path): string {
    if p == [] then "" else if |p| == 1 then p[0] else p[0] + "." + Dotted(p[1..])
  }

  lemma {:induction false} SegmentsProper(text: string, current: string)
    requires '.' !in current
    ensures Proper(SegmentsFrom(text, current))
    decreases |text|
  {
    if text != "" {
      if text[0] == '.' { SegmentsProper(text[1..], ""); } else { SegmentsProper(text[1..], current + [text[0]]); }
    }
  }

  /** Characters up to a dot extend the current part. */
  lemma {:induction false} SegmentsSkip(word: string, rest: string, current: string)
    requires '.' !in word
    ensures SegmentsFrom(word + rest, current) == SegmentsFrom(rest, current + word)
    decreases |word|
  {
    if word == "" {
      assert word + rest == rest && current + word == current;
    } else {
      assert (word + rest)[1..] == word[1..] + rest && (word + rest)[0] == word[0];
      SeqShift(current, word);
      SegmentsSkip(word[1..], rest, current + [word[0]]);
    }
  }

  /** Every sequence of segments is written by a dotted path. */
  lemma {:induction false} SegmentsOfDotted(p: Path)
    requires Proper(p)
    ensures Segments(Dotted(p)) == p
  {
    if |p| == 1 {
      assert p[0] + "" == p[0] && "" + p[0] == p[0];
      SegmentsSkip(p[0], "", "");
    } else if |p| > 1 {
      var rest := "." + Dotted(p[1..]);
      SeqPlus(p[0], ".", Dotted(p[1..]));
      SegmentsSkip(p[0], rest, "");
      assert "" + p[0] == p[0] && rest[1..] == Dotted(p[1..]);
      SegmentsOfDotted(p[1..]);
    }
  }

  /** Dotted paths denote exactly the sequences of non-empty, dot-free parts. */
  lemma SegmentsExactly(p: Path)
    ensures (exists text :: Segments(text) == p) <==> Proper(p)
  {
    if Proper(p) {
      SegmentsOfDotted(p);
    } else if text :| Segments(text) == p {
      SegmentsProper(text, "");
    }
  }

  ghost predicate OnlyDots(text: string) { forall i :: 0 <= i < |text| ==> text[i] == '.' }

  /** A path has no parts exactly when it is made of dots. */
  lemma {:induction false} NoSegments(text: string, current: string)
    ensures SegmentsFrom(text, current) == [] <==> current == "" && OnlyDots(text)
    decreases |text|
  {
    if text != "" {
      assert OnlyDots(text) <==> text[0] == '.' && OnlyDots(text[1..]) by {
        assert forall i :: 0 < i < |text| ==> text[i] == text[1..][i - 1];
      }
      if text[0] == '.' { NoSegments(text[1..], ""); } else { NoSegments(text[1..], current + [text[0]]); }
    }
  }

  // ---------------------------------------------------------------- reading and writing

  /** The node at a path, if there is one. */
  function Read(node: Tree, p: Path): Option<Tree>
    decreases |p|
  {
    if p == [] then Some(node)
    else if node.Dict? && p[0] in node.entries then Read(node.entries[p[0]], p[1..])
    else None
  }

  datatype Op = Set(value: Tree) | Remove

  /** The dictionary below `seg`, or an empty one in place of anything else. */
  function Below(doc: Doc, seg: string): Doc {
    if seg in doc && doc[seg].Dict? then doc[seg].entries else map[]
  }

  /** `Change.apply`: dictionaries are made along the way, for removals too. */
  function Write(doc: Doc, p: Path, op: Op): Doc
    requires p != []
    decreases |p|
  {
    if |p| == 1 then
      match op
      case Set(v) => doc[p[0] := v]
      case Remove => doc - {p[0]}
    else doc[p[0] := Dict(Write(Below(doc, p[0]), p[1..], op))]
  }

  function Entries(t: Option<Tree>): Doc {
    match t
    case Some(Dict(m)) => m
    case _ => map[]
  }

  /** Every lookup after a change: at or below the path, above it, and anywhere else. */
  lemma {:induction false} ReadAfterWrite(doc: Doc, p: Path, op: Op, q: Path)
    requires p != []
    ensures var after := Read(Dict(Write(doc, p, op)), q);
      if Prefix(p, q) then after == (match op case Set(v) => Read(v, q[|p|..]) case Remove => None)
      else if Prefix(q, p) then after == Some(Dict(Write(Entries(Read(Dict(doc), q)), p[|q|..], op)))
      else after == Read(Dict(doc), q)
    decreases |p|
  {
    if q == [] {
      assert p[|q|..] == p;
    } else if p[0] != q[0] {
      HeadsDiffer(p, q);
    } else {
      PrefixTail(p, q);
      PrefixTail(q, p);
      if |p| == 1 {
        assert q[|p|..] == q[1..];
      } else {
        var sub := Below(doc, p[0]);
        ReadAfterWrite(sub, p[1..], op, q[1..]);
        BelowRead(doc, q);
        assert p[1..] != [];
        if |p| <= |q| { assert q[1..][|p[1..]|..] == q[|p|..]; }
        if |q| <= |p| { assert p[1..][|q[1..]|..] == p[|q|..]; }
      }
    }
  }

  /** Replacing a missing or scalar node by an empty dictionary changes no lookup below it. */
  lemma BelowRead(doc: Doc, q: Path)
    requires q != []
    ensures |q| > 1 ==> Read(Dict(Below(doc, q[0])), q[1..]) == Read(Dict(doc), q)
    ensures Entries(Read(Dict(Below(doc, q[0])), q[1..])) == Entries(Read(Dict(doc), q))
  {
    var d := Dict(doc);
    if |q| == 1 {
      assert Read(d, q) == if q[0] in doc then Some(doc[q[0]]) else None;
    }
  }

  // ---------------------------------------------------------------- laws

  lemma GetAfterSet(doc: Doc, p: Path, v: Tree)
    requires p != []
    ensures Read(Dict(Write(doc, p, Set(v))), p) == Some(v)
  {
    ReadAfterWrite(doc, p, Set(v), p);
    assert p[..|p|] == p && p[|p|..] == [];
  }

  lemma GetAfterRemove(doc: Doc, p: Path)
    requires p != []
    ensures Read(Dict(Write(doc, p, Remove)), p) == None
  {
    ReadAfterWrite(doc, p, Remove, p);
    assert p[..|p|] == p;
  }

  lemma ElsewhereUnchanged(doc: Doc, p: Path, op: Op, q: Path)
    requires p != [] && !Comparable(p, q)
    ensures Read(Dict(Write(doc, p, op)), q) == Read(Dict(doc), q)
  {
    ReadAfterWrite(doc, p, op, q);
  }

  /** Changes at incomparable paths commute. */
  lemma {:induction false} WritesCommute(doc: Doc, p: Path, x: Op, q: Path, y: Op)
    requires p != [] && q != [] && !Comparable(p, q)
    ensures Write(Write(doc, p, x), q, y) == Write(Write(doc, q, y), p, x)
    decreases |p|
  {
    if p[0] == q[0] {
      PrefixTail(p, q);
      PrefixTail(q, p);
      assert |p| > 1 && |q| > 1;
      WritesCommute(Below(doc, p[0]), p[1..], x, q[1..], y);
    } else {
      WriteLocal(doc, p, x, q[0]);
      WriteLocal(doc, q, y, p[0]);
      WriteHeads(doc, p, x, q, y);
    }
  }

  /** A change touches only the entry its path starts with. */
  lemma WriteLocal(doc: Doc, p: Path, op: Op, k: string)
    requires p != [] && k != p[0]
    ensures var w := Write(doc, p, op); (k in w <==> k in doc) && (k in doc ==> w[k] == doc[k])
  {
  }

  /** What a change leaves at the entry its path starts with depends on that entry alone. */
  lemma WriteHead(doc: Doc, other: Doc, p: Path, op: Op)
    requires p != [] && Lookup(doc, p[0]) == Lookup(other, p[0])
    ensures Lookup(Write(doc, p, op), p[0]) == Lookup(Write(other, p, op), p[0])
  {
  }

  lemma WriteHeads(doc: Doc, p: Path, x: Op, q: Path, y: Op)
    requires p != [] && q != [] && p[0] != q[0]
    ensures Write(Write(doc, p, x), q, y) == Write(Write(doc, q, y), p, x)
  {
    var a, b := Write(doc, p, x), Write(doc, q, y);
    var l, r := Write(a, q, y), Write(b, p, x);
    forall k ensures Lookup(l, k) == Lookup(r, k) {
      if k != p[0] { WriteLocal(doc, p, x, k); WriteLocal(b, p, x, k); }
      if k != q[0] { WriteLocal(doc, q, y, k); WriteLocal(a, q, y, k); }
      if k == p[0] { WriteHead(doc, b, p, x); }
      if k == q[0] { WriteHead(doc, a, q, y); }
    }
    SameLookups(l, r);
  }

  /** A change at a path makes earlier changes at or below it irrelevant. */
  lemma {:induction false} LastWriteWins(doc: Doc, p: Path, x: Op, q: Path, y: Op)
    requires q != [] && Prefix(q, p)
    ensures Write(Write(doc, p, x), q, y) == Write(doc, q, y)
    decreases |q|
  {
    assert p[0] == p[..|q|][0] == q[0];
    if |q| > 1 {
      PrefixTail(q, p);
      LastWriteWins(Below(doc, q[0]), p[1..], x, q[1..], y);
    }
  }
}
