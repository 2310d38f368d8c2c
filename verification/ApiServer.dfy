/** The in-memory API server, extensions/k8s/fake_apiserver.py: resources, outages and merging patches. */
module ApiServer {
  import opened Collections
  import opened Trees

  type Doc = map<string, Tree>
  type ResourceId = (string, string, string)

  datatype Resource = Resource(spec: Doc, status: Doc, labels: map<string, string>, revision: int)

  datatype Error = Invalid | NotFound | AlreadyExists | Unavailable | Unsupported

  datatype Result<+T> = Ok(value: T) | Fail(error: Error)

  /** How values become label text. */
  type Render = Tree -> string

  // ---------------------------------------------------------------- merging

  /** Nested dictionaries merge, anything else is replaced. */
  function Merge(target: Doc, patch: Tree): Doc
    requires patch.Dict?
    decreases patch
  {
    map k | k in target.Keys + patch.entries.Keys :: MergeAt(target, patch, k)
  }

  function MergeAt(target: Doc, patch: Tree, k: string): Tree
    requires patch.Dict? && (k in target || k in patch.entries)
    decreases patch, 0
  {
    if k !in patch.entries then target[k]
    else if patch.entries[k].Dict? && k in target && target[k].Dict?
    then Dict(Merge(target[k].entries, patch.entries[k]))
    else patch.entries[k]
  }

  method StrategicMerge(target: Doc, patch: Tree) returns (merged: Doc)
    requires patch.Dict?
    ensures merged == Merge(target, patch)
    decreases patch
  {
    hide Merge, MergeAt;
    merged := target;
    var left := patch.entries.Keys;
    MergeStart(target, patch);
    while left != {}
      invariant left <= patch.entries.Keys
      invariant Merging(merged, target, patch, left)
      decreases |left|
    {
      var key :| key in left;
      var value := patch.entries[key];
      MergeKey(merged, target, patch, left, key);
      if value.Dict? && key in merged && merged[key].Dict? {
        var inner := StrategicMerge(merged[key].entries, value);
        merged := merged[key := Dict(inner)];
      } else {
        merged := merged[key := value];
      }
      left := left - {key};
    }
    MergeDone(merged, target, patch);
  }

  /** The loop has merged all keys of the patch but those in `left`. */
  ghost predicate Merging(merged: Doc, target: Doc, patch: Tree, left: set<string>)
    requires patch.Dict? && left <= patch.entries.Keys
  {
    forall k :: Lookup(merged, k) ==
      if k in left || (k !in patch.entries && k !in target) then Lookup(target, k) else Some(MergeAt(target, patch, k))
  }

  lemma MergeStart(target: Doc, patch: Tree)
    requires patch.Dict?
    ensures Merging(target, target, patch, patch.entries.Keys)
  {
  }

  lemma MergeKey(merged: Doc, target: Doc, patch: Tree, left: set<string>, key: string)
    requires patch.Dict? && key in left && left <= patch.entries.Keys && Merging(merged, target, patch, left)
    ensures Lookup(merged, key) == Lookup(target, key)
    ensures MergeAt(target, patch, key) ==
      if patch.entries[key].Dict? && key in merged && merged[key].Dict?
      then Dict(Merge(merged[key].entries, patch.entries[key])) else patch.entries[key]
    ensures Merging(merged[key := MergeAt(target, patch, key)], target, patch, left - {key})
  {
    hide Merge;
    assert Lookup(merged, key) == Lookup(target, key);
  }

  lemma MergeDone(merged: Doc, target: Doc, patch: Tree)
    requires patch.Dict? && Merging(merged, target, patch, {})
    ensures merged == Merge(target, patch)
  {
    hide MergeAt;
    forall k ensures Lookup(merged, k) == Lookup(Merge(target, patch), k) {}
    SameLookups(merged, Merge(target, patch));
  }

  /** `doc` holds everything the patch asks for. */
  ghost predicate Holds(doc: Doc, patch: Tree)
    requires patch.Dict?
    decreases patch
  {
    forall k :: k in patch.entries ==> HoldsAt(doc, patch, k)
  }

  ghost predicate HoldsAt(doc: Doc, patch: Tree, k: string)
    requires patch.Dict? && k in patch.entries
    decreases patch, 0
  {
    k in doc &&
    if patch.entries[k].Dict? && doc[k].Dict? then Holds(doc[k].entries, patch.entries[k])
    else doc[k] == patch.entries[k]
  }

  lemma {:induction false} MergeHolds(target: Doc, patch: Tree)
    requires patch.Dict?
    ensures Holds(Merge(target, patch), patch)
    decreases patch
  {
    forall k | k in patch.entries ensures HoldsAt(Merge(target, patch), patch, k) {
      var p := patch.entries[k];
      if p.Dict? {
        if k in target && target[k].Dict? { MergeHolds(target[k].entries, p); } else { HoldsItself(p); }
      }
    }
  }

  lemma {:induction false} HoldsItself(patch: Tree)
    requires patch.Dict?
    ensures Holds(patch.entries, patch)
    decreases patch
  {
    forall k | k in patch.entries ensures HoldsAt(patch.entries, patch, k) {
      if patch.entries[k].Dict? { HoldsItself(patch.entries[k]); }
    }
  }

  /** Merging changes nothing if and only if the document already holds the patch. */
  lemma {:induction false} MergeFixedIff(doc: Doc, patch: Tree)
    requires patch.Dict?
    ensures Merge(doc, patch) == doc <==> Holds(doc, patch)
    decreases patch
  {
    forall k | k in patch.entries && k in doc ensures HoldsAt(doc, patch, k) <==> MergeAt(doc, patch, k) == doc[k] {
      if patch.entries[k].Dict? && doc[k].Dict? { MergeFixedIff(doc[k].entries, patch.entries[k]); }
    }
    var m := Merge(doc, patch);
    if Holds(doc, patch) {
      forall k | k in patch.entries ensures k in doc { assert HoldsAt(doc, patch, k); }
      assert m.Keys == doc.Keys;
      forall k | k in doc ensures m[k] == doc[k] {
        if k in patch.entries { assert HoldsAt(doc, patch, k); }
        assert m[k] == MergeAt(doc, patch, k);
      }
      assert m == doc;
    } else {
      var k :| k in patch.entries && !HoldsAt(doc, patch, k);
      assert k in m;
      if k in doc { assert m[k] != doc[k]; }
    }
  }

  /** Merging the same patch twice equals merging it once. */
  lemma MergeTwice(target: Doc, patch: Tree)
    requires patch.Dict?
    ensures Merge(Merge(target, patch), patch) == Merge(target, patch)
  {
    MergeHolds(target, patch);
    MergeFixedIff(Merge(target, patch), patch);
  }

  // ---------------------------------------------------------------- the server

  function Section(patch: Doc, name: string): Tree {
    if name in patch && patch[name].Dict? then patch[name] else Dict(map[])
  }

  function Labels(m: Doc, render: Render): map<string, string> { map k | k in m :: render(m[k]) }

  /** A resource after a patch; the revision counts patches. */
  function Patched(r: Resource, patch: Doc, render: Render): Resource {
    Resource(
      Merge(r.spec, Section(patch, "spec")), Merge(r.status, Section(patch, "status")),
      r.labels + Labels(Section(patch, "labels").entries, render), r.revision + 1)
  }

  lemma MergeNothing(doc: Doc)
    ensures Merge(doc, Dict(map[])) == doc
  {
  }

  /** A key that the patch does not have keeps its value. */
  lemma MergeElsewhere(target: Doc, patch: Tree, k: string)
    requires patch.Dict? && k !in patch.entries
    ensures Lookup(Merge(target, patch), k) == Lookup(target, k)
  {
  }

  /** A patch of one value that is no dictionary sets that value. */
  lemma MergeOne(doc: Doc, k: string, v: Tree)
    requires !v.Dict?
    ensures Merge(doc, Dict(map[k := v])) == doc[k := v]
  {
  }

  /** Applying a patch again changes the revision and nothing else. */
  lemma PatchedTwice(r: Resource, patch: Doc, render: Render)
    ensures var once := Patched(r, patch, render);
      Patched(once, patch, render) == once.(revision := once.revision + 1)
  {
    MergeTwice(r.spec, Section(patch, "spec"));
    MergeTwice(r.status, Section(patch, "status"));
    var labels := Labels(Section(patch, "labels").entries, render);
    MapPlus(r.labels, labels, labels);
    MapTwice(Labels(Section(patch, "labels").entries, render));
  }

  lemma MapTwice<K, V>(m: map<K, V>)
    ensures m + m == m
  {
  }

  datatype Cluster = Cluster(resources: map<ResourceId, Resource>, outage: bool)

  /** An outage comes before everything else; then the resource must exist. */
  function PatchIn(c: Cluster, id: ResourceId, patch: Doc, render: Render): (Cluster, Result<Resource>) {
    if c.outage then (c, Fail(Unavailable))
    else if id !in c.resources then (c, Fail(NotFound))
    else
      var r := Patched(c.resources[id], patch, render);
      (c.(resources := c.resources[id := r]), Ok(r))
  }

  function ScalePatch(replicas: Tree): Doc { map["spec" := Dict(map["replicas" := replicas])] }

  function ScaleIn(c: Cluster, id: ResourceId, replicas: Tree, render: Render): (Cluster, Result<Resource>) {
    if c.outage then (c, Fail(Unavailable))
    else if !Count(replicas) then (c, Fail(Invalid))
    else PatchIn(c, id, ScalePatch(replicas), render)
  }

  /** Booleans are integers in the source. */
  predicate IsInt(t: Tree) { t.Leaf? && (t.scalar.Int? || t.scalar.Bool?) }

  /** A non-negative integer. */
  predicate Count(t: Tree) { IsInt(t) && (t.scalar.Int? ==> t.scalar.i >= 0) }

  class Server {
    var resources: map<ResourceId, Resource>
    var outage: bool
    const render: Render

    function State(): Cluster
      reads this
    {
      Cluster(resources, outage)
    }

    constructor (render: Render)
      ensures State() == Cluster(map[], false) && this.render == render
    {
      resources := map[];
      outage := false;
      this.render := render;
    }

    method SetOutage(on: bool)
      modifies this
      ensures State() == old(State()).(outage := on)
    {
      outage := on;
    }

    method CreateResource(id: ResourceId, r: Resource) returns (result: Result<Resource>)
      modifies this
      ensures old(outage) ==> result == Fail(Unavailable)
      ensures !old(outage) && id in old(resources) ==> result == Fail(AlreadyExists)
      ensures result.Fail? ==> State() == old(State()) && (old(outage) || id in old(resources))
      ensures result.Ok? ==> !old(outage) && id !in old(resources) && result.value == r.(revision := 1)
      ensures result.Ok? ==> State() == old(State()).(resources := old(resources)[id := r.(revision := 1)])
    {
      if outage { return Fail(Unavailable); }
      if id in resources { return Fail(AlreadyExists); }
      resources := resources[id := r.(revision := 1)];
      return Ok(r.(revision := 1));
    }

    method PatchResource(id: ResourceId, patch: Doc) returns (result: Result<Resource>)
      modifies this
      ensures (State(), result) == PatchIn(old(State()), id, patch, render)
    {
      if outage { return Fail(Unavailable); }
      if id !in resources { return Fail(NotFound); }
      var r := resources[id];
      MergeNothing(r.spec);
      MergeNothing(r.status);
      MapEmpty(r.labels);
      assert Labels(map[], render) == map[];
      var spec, status, labels := r.spec, r.status, r.labels;
      if "spec" in patch && patch["spec"].Dict? { spec := StrategicMerge(spec, patch["spec"]); }
      if "status" in patch && patch["status"].Dict? { status := StrategicMerge(status, patch["status"]); }
      if "labels" in patch && patch["labels"].Dict? { labels := labels + Labels(patch["labels"].entries, render); }
      r := Resource(spec, status, labels, r.revision + 1);
      resources := resources[id := r];
      return Ok(r);
    }

    method ScaleResource(id: ResourceId, replicas: Tree) returns (result: Result<Resource>)
      modifies this
      ensures (State(), result) == ScaleIn(old(State()), id, replicas, render)
    {
      if outage { return Fail(Unavailable); }
      if !Count(replicas) { return Fail(Invalid); }
      result := PatchResource(id, ScalePatch(replicas));
    }
  }
}
