/** The versioned policy store with its append-only history, tm/ai/policy_store.py. */
module PolicyStore {
  import opened Collections
  import opened Trees
  import opened Paths
  import opened PolicyDocs

  datatype Change = Change(path: string, op: Op)
  datatype Proposal = Proposal(id: string, changes: seq<Change>)
  datatype Entry = Entry(version: nat, actor: string, reason: string, proposal: Proposal)
  datatype Snapshot = Snapshot(version: nat, policies: Doc, history: seq<Entry>)

  const EMPTY: Snapshot := Snapshot(0, map[], [])

  /** A path without parts is an error. */
  function ApplyChange(doc: Doc, c: Change): Option<Doc> {
    var p := Segments(c.path);
    if p == [] then None else Some(Write(doc, p, c.op))
  }

  /** All changes in order; the first error ends it. */
  function ApplyChanges(doc: Doc, cs: seq<Change>): Option<Doc>
    decreases |cs|
  {
    if cs == [] then Some(doc)
    else match ApplyChange(doc, cs[0])
      case Some(d) => ApplyChanges(d, cs[1..])
      case None => None
  }

  /** Every path of the proposal has a part. */
  ghost predicate Acceptable(p: Proposal) {
    forall i :: 0 <= i < |p.changes| ==> !OnlyDots(p.changes[i].path)
  }

  /** The store accepts a proposal, in any state, exactly when it is acceptable. */
  lemma AppliedIff(s: Snapshot, p: Proposal, actor: string, reason: string)
    ensures Applied(s, p, actor, reason).Some? <==> Acceptable(p)
  {
    AppliesIff(s.policies, p.changes);
  }

  /** A proposal can be applied, to any document, if and only if each of its paths has a part. */
  lemma {:induction false} AppliesIff(doc: Doc, cs: seq<Change>)
    ensures ApplyChanges(doc, cs).Some? <==> forall i :: 0 <= i < |cs| ==> !OnlyDots(cs[i].path)
    decreases |cs|
  {
    if cs != [] {
      NoSegments(cs[0].path, "");
      match ApplyChange(doc, cs[0])
      case Some(d) =>
        AppliesIff(d, cs[1..]);
        assert forall i :: 0 < i < |cs| ==> cs[i] == cs[1..][i - 1];
      case None =>
    }
  }

  // ---------------------------------------------------------------- what the changes do

  /** What is read at the path of a change that has just been made. */
  function ReadBack(op: Op): Option<Tree> {
    match op
    case Set(v) => Some(v)
    case Remove => None
  }

  /** No change from `i` on touches the path, an ancestor or a descendant of it. */
  ghost predicate Untouched(cs: seq<Change>, i: nat, q: Path) {
    forall j :: i <= j < |cs| ==> !Comparable(Segments(cs[j].path), q)
  }

  /** After all changes: each that no later one touches is in force, and what none touches is as before. */
  ghost predicate TakeEffect(before: Doc, cs: seq<Change>, after: Doc) {
    && (forall i :: 0 <= i < |cs| && Untouched(cs, i + 1, Segments(cs[i].path)) ==>
          Read(Dict(after), Segments(cs[i].path)) == ReadBack(cs[i].op))
    && (forall q: Path :: Untouched(cs, 0, q) ==> Read(Dict(after), q) == Read(Dict(before), q))
  }

  lemma UntouchedNext(cs: seq<Change>, i: nat, q: Path)
    requires cs != [] && i < |cs|
    ensures Untouched(cs, i + 1, q) <==> Untouched(cs[1..], i, q)
  {
    assert forall j :: i <= j < |cs| - 1 ==> cs[1..][j] == cs[j + 1];
    if Untouched(cs[1..], i, q) {
      forall j | i + 1 <= j < |cs| ensures !Comparable(Segments(cs[j].path), q) { assert cs[1..][j - 1] == cs[j]; }
    }
  }

  /** An accepted list of changes is in force afterwards, in its order. */
  lemma {:induction false} ChangesTakeEffect(doc: Doc, cs: seq<Change>)
    requires ApplyChanges(doc, cs).Some?
    ensures TakeEffect(doc, cs, ApplyChanges(doc, cs).value)
    decreases |cs|
  {
    hide Write, Read, Segments, Comparable;
    if cs != [] {
      var p, op, rest := Segments(cs[0].path), cs[0].op, cs[1..];
      var mid, after := Write(doc, p, op), ApplyChanges(doc, cs).value;
      ChangesTakeEffect(mid, rest);
      forall i | 0 <= i < |cs| && Untouched(cs, i + 1, Segments(cs[i].path))
        ensures Read(Dict(after), Segments(cs[i].path)) == ReadBack(cs[i].op)
      {
        UntouchedNext(cs, i, Segments(cs[i].path));
        if i == 0 {
          match op { case Set(v) => GetAfterSet(doc, p, v); case Remove => GetAfterRemove(doc, p); }
        } else {
          assert rest[i - 1] == cs[i];
          UntouchedNext(cs, i, Segments(cs[i].path));
          assert Untouched(rest, i - 1 + 1, Segments(rest[i - 1].path));
        }
      }
      forall q: Path | Untouched(cs, 0, q) ensures Read(Dict(after), q) == Read(Dict(doc), q) {
        assert Untouched(cs, 0 + 1, q);
        UntouchedNext(cs, 0, q);
        assert !Comparable(Segments(cs[0].path), q);
        ElsewhereUnchanged(doc, p, op, q);
      }
    }
  }

  /** The snapshot after applying a proposal; `None` when a change fails. */
  function Applied(s: Snapshot, p: Proposal, actor: string, reason: string): Option<Snapshot> {
    match ApplyChanges(s.policies, p.changes)
    case Some(doc) => Some(Snapshot(s.version + 1, doc, s.history + [Entry(s.version + 1, actor, reason, p)]))
    case None => None
  }

  // ---------------------------------------------------------------- consistency with the history

  /** The document obtained by applying all recorded proposals to the empty one. */
  function Replay(h: seq<Entry>): Option<Doc>
    decreases |h|
  {
    if h == [] then Some(map[])
    else match Replay(h[..|h| - 1])
      case Some(doc) => ApplyChanges(doc, h[|h| - 1].proposal.changes)
      case None => None
  }

  /** Versions are gap-free and count the history; the policies are its replay. */
  ghost predicate Consistent(s: Snapshot) {
    && s.version == |s.history|
    && (forall i :: 0 <= i < |s.history| ==> s.history[i].version == i + 1)
    && Replay(s.history) == Some(s.policies)
  }

  lemma AppliedConsistent(s: Snapshot, p: Proposal, actor: string, reason: string)
    requires Consistent(s) && Applied(s, p, actor, reason).Some?
    ensures Consistent(Applied(s, p, actor, reason).value)
  {
    var h := Applied(s, p, actor, reason).value.history;
    assert h[..|h| - 1] == s.history;
  }

  class Store {
    var snapshot: Snapshot

    ghost predicate Valid()
      reads this
    {
      Consistent(snapshot)
    }

    constructor ()
      ensures Valid() && snapshot == EMPTY
    {
      snapshot := EMPTY;
    }

    /** The node at a dotted path, or the default. */
    method Get(path: Option<string>, default_: Tree) returns (r: Tree)
      ensures path.None? ==> r == Dict(snapshot.policies)
      ensures path.Some? ==>
        r == match Read(Dict(snapshot.policies), Segments(path.value)) case Some(t) => t case None => default_
    {
      if path.None? { return Dict(snapshot.policies); }
      var parts := Segments(path.value);
      var node := Dict(snapshot.policies);
      var i := 0;
      while i < |parts|
        invariant 0 <= i <= |parts|
        invariant Read(node, parts[i..]) == Read(Dict(snapshot.policies), parts)
      {
        if !node.Dict? || parts[i] !in node.entries { return default_; }
        node := node.entries[parts[i]];
        i := i + 1;
      }
      return node;
    }

    /** `data[-limit:]`: the last `limit` entries, all of them for 0, all but the first `-limit` for a
        negative limit. */
    method History(limit: Option<int>) returns (r: seq<Entry>)
      ensures limit.None? ==> r == snapshot.history
      ensures limit.Some? ==>
        exists k :: 0 <= k <= |snapshot.history| && snapshot.history[..k] + r == snapshot.history &&
          (0 < limit.value <= |snapshot.history| ==> |r| == limit.value) &&
          (limit.value == 0 || limit.value > |snapshot.history| ==> k == 0) &&
          (limit.value < 0 ==> k == -limit.value || (k == |snapshot.history| && k < -limit.value))
    {
      var data := snapshot.history;
      if limit.None? { return data; }
      var start := if limit.value > 0 then |data| - limit.value else -limit.value;
      var k := if start < 0 then 0 else if start > |data| then |data| else start;
      r := data[k..];
      assert data[..k] + r == data;
    }

    /** `apply`: a new snapshot, or an error that leaves the store as it was. */
    method Apply(p: Proposal, actor: string, reason: string) returns (r: Option<nat>)
      requires Valid()
      modifies this
      ensures Valid()
      ensures match Applied(old(snapshot), p, actor, reason)
        case Some(s) => snapshot == s && r == Some(s.version)
        case None => snapshot == old(snapshot) && r == None
      ensures r.Some? ==> TakeEffect(old(snapshot.policies), p.changes, snapshot.policies)
      ensures r.Some? ==> snapshot.history == old(snapshot.history) + [Entry(r.value, actor, reason, p)]
    {
      var policies := snapshot.policies;
      var i := 0;
      while i < |p.changes|
        invariant 0 <= i <= |p.changes|
        invariant snapshot == old(snapshot)
        invariant ApplyChanges(policies, p.changes[i..]) == ApplyChanges(snapshot.policies, p.changes)
      {
        var next := ApplyChange(policies, p.changes[i]);
        if next.None? { return None; }
        policies := next.value;
        i := i + 1;
      }
      AppliedConsistent(snapshot, p, actor, reason);
      ChangesTakeEffect(snapshot.policies, p.changes);
      var version := snapshot.version + 1;
      snapshot := Snapshot(version, policies, snapshot.history + [Entry(version, actor, reason, p)]);
      return Some(version);
    }
  }
}
