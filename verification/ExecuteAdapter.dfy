/** The idempotent execute adapter, extensions/k8s/adapters.py, over a server with outages. */
module ExecuteAdapter {
  import opened Collections
  import opened Trees
  import opened ApiServer

  /** An action is a document with fields kind, resource, payload and idempotency_key. */
  type Action = Doc

  datatype View = View(id: ResourceId, resource: Resource)
  type Response = Result<View>

  const SUPPORTED: set<string> := {"patch", "scale", "label", "delete"}

  // ---------------------------------------------------------------- reading an action

  /** A field that must be non-empty text. */
  function RequireStr(d: Doc, name: string): Option<string> {
    if name in d && d[name].Leaf? && d[name].scalar.Text? && d[name].scalar.s != ""
    then Some(d[name].scalar.s) else None
  }

  predicate Truthy(t: Tree) {
    match t
    case Leaf(Null) => false
    case Leaf(Bool(b)) => b
    case Leaf(Int(i)) => i != 0
    case Leaf(Real(x)) => x != 0.0
    case Leaf(Text(s)) => s != ""
    case Lst(xs) => xs != []
    case Dict(m) => m != map[]
  }

  /** `d.get(name) or {}`. */
  function OrEmpty(d: Doc, name: string): Tree {
    if name in d && Truthy(d[name]) then d[name] else Dict(map[])
  }

  function IdemKey(a: Action): Option<string> {
    if "idempotency_key" in a && a["idempotency_key"].Leaf? && a["idempotency_key"].scalar.Text?
    then Some(a["idempotency_key"].scalar.s) else None
  }

  function DeletePatch(): Doc { map["status" := Dict(map["deleted" := Leaf(Bool(true))])] }

  function LabelPatch(labels: Tree): Doc { map["labels" := labels] }

  // ---------------------------------------------------------------- specification

  function WithId(id: ResourceId, r: (Cluster, Result<Resource>)): (Cluster, Response) {
    match r.1
    case Ok(res) => (r.0, Ok(View(id, res)))
    case Fail(e) => (r.0, Fail(e))
  }

  /** What a supported action does to the server. */
  function Dispatch(c: Cluster, kind: string, resource: Doc, payload: Doc, render: Render): (Cluster, Response) {
    match (RequireStr(resource, "kind"), RequireStr(resource, "namespace"), RequireStr(resource, "name"))
    case (Some(k), Some(ns), Some(n)) =>
      var id := (k, ns, n);
      if kind == "patch" then WithId(id, PatchIn(c, id, payload, render))
      else if kind == "scale" then
        if "replicas" in payload && IsInt(payload["replicas"])
        then WithId(id, ScaleIn(c, id, payload["replicas"], render)) else (c, Fail(Invalid))
      else if kind == "label" then
        if "labels" in payload && payload["labels"].Dict?
        then WithId(id, PatchIn(c, id, LabelPatch(payload["labels"]), render)) else (c, Fail(Invalid))
      else WithId(id, PatchIn(c, id, DeletePatch(), render))
    case _ => (c, Fail(Invalid))
  }

  function Perform(c: Cluster, kind: string, a: Action, render: Render): (Cluster, Response) {
    var resource, payload := OrEmpty(a, "resource"), OrEmpty(a, "payload");
    if !resource.Dict? || !payload.Dict? then (c, Fail(Invalid))
    else Dispatch(c, kind, resource.entries, payload.entries, render)
  }

  /** An action without any memory of earlier ones. */
  function Direct(c: Cluster, a: Action, render: Render): (Cluster, Response) {
    match RequireStr(a, "kind")
    case None => (c, Fail(Invalid))
    case Some(kind) => if kind !in SUPPORTED then (c, Fail(Unsupported)) else Perform(c, kind, a, render)
  }

  predicate Supported(a: Action) {
    RequireStr(a, "kind").Some? && RequireStr(a, "kind").value in SUPPORTED
  }

  datatype State = State(cluster: Cluster, applied: map<string, Response>)

  /** The action is answered from memory. */
  predicate Repeats(done: set<string>, a: Action) {
    Supported(a) && IdemKey(a).Some? && IdemKey(a).value in done
  }

  predicate HasKey(a: Action, key: string) { key != "" && IdemKey(a) == Some(key) }

  function Remember(applied: map<string, Response>, a: Action, r: Response): map<string, Response> {
    match IdemKey(a)
    case Some(key) => if key != "" && r.Ok? then applied[key := r] else applied
    case None => applied
  }

  function Executed(s: State, a: Action, render: Render): (State, Response) {
    if Repeats(s.applied.Keys, a) then (s, s.applied[IdemKey(a).value])
    else
      var (c, r) := Direct(s.cluster, a, render);
      (State(c, Remember(s.applied, a, r)), r)
  }

  // ---------------------------------------------------------------- the code

  class Adapter {
    const server: Server
    var applied: map<string, Response>

    constructor (server: Server)
      ensures this.server == server && applied == map[]
    {
      this.server := server;
      applied := map[];
    }

    function Abstract(): State
      reads this, server
    {
      State(server.State(), applied)
    }

    method Execute(a: Action) returns (r: Response)
      modifies this, server
      ensures (Abstract(), r) == Executed(old(Abstract()), a, server.render)
    {
      hide Dispatch;
      var kind := RequireStr(a, "kind");
      if kind.None? { return Fail(Invalid); }
      if kind.value !in SUPPORTED { return Fail(Unsupported); }
      var idem := IdemKey(a);
      if idem.Some? && idem.value in applied { return applied[idem.value]; }
      var resource, payload := OrEmpty(a, "resource"), OrEmpty(a, "payload");
      if !resource.Dict? || !payload.Dict? { return Fail(Invalid); }
      r := DispatchAction(kind.value, resource.entries, payload.entries);
      if r.Fail? { return; }
      if idem.Some? && idem.value != "" { applied := applied[idem.value := r]; }
    }

    method DispatchAction(kind: string, resource: Doc, payload: Doc) returns (r: Response)
      requires kind in SUPPORTED
      modifies server
      ensures (server.State(), r) == Dispatch(old(server.State()), kind, resource, payload, server.render)
      ensures r.Fail? ==> server.State() == old(server.State())
    {
      hide PatchIn, ScaleIn;
      var k := RequireStr(resource, "kind");
      if k.None? { return Fail(Invalid); }
      var ns := RequireStr(resource, "namespace");
      if ns.None? { return Fail(Invalid); }
      var n := RequireStr(resource, "name");
      if n.None? { return Fail(Invalid); }
      var id := (k.value, ns.value, n.value);
      var result;
      DispatchFailureKeeps(server.State(), kind, resource, payload, server.render);
      if kind == "patch" {
        result := server.PatchResource(id, payload);
      } else if kind == "scale" {
        if "replicas" !in payload || !IsInt(payload["replicas"]) { return Fail(Invalid); }
        result := server.ScaleResource(id, payload["replicas"]);
      } else if kind == "label" {
        if "labels" !in payload || !payload["labels"].Dict? { return Fail(Invalid); }
        result := server.PatchResource(id, LabelPatch(payload["labels"]));
      } else {
        result := server.PatchResource(id, DeletePatch());
      }
      r := if result.Ok? then Ok(View(id, result.value)) else Fail(result.error);
    }
  }

  lemma DispatchFailureKeeps(c: Cluster, kind: string, resource: Doc, payload: Doc, render: Render)
    ensures var (c', r) := Dispatch(c, kind, resource, payload, render); r.Fail? ==> c' == c
  {
    hide Patched, RequireStr;
  }

  // ---------------------------------------------------------------- one action

  /** Only successes are remembered. */
  ghost predicate Sane(s: State) { forall key :: key in s.applied ==> s.applied[key].Ok? }

  /** An error leaves the server, and what is remembered, as they were. */
  lemma ErrorChangesNothing(s: State, a: Action, render: Render)
    requires Sane(s)
    ensures var (s', r) := Executed(s, a, render); r.Fail? ==> s' == s
  {
    hide Dispatch, RequireStr, Truthy;
    match RequireStr(a, "kind")
    case Some(kind) =>
      DispatchFailureKeeps(s.cluster, kind, Entries(OrEmpty(a, "resource")), Entries(OrEmpty(a, "payload")), render);
    case None =>
  }

  function Entries(t: Tree): Doc { if t.Dict? then t.entries else map[] }

  /** During an outage no action changes the server, and only repeats succeed. */
  lemma OutageFreezes(s: State, a: Action, render: Render)
    requires s.cluster.outage
    ensures Executed(s, a, render).0 == s
    ensures Executed(s, a, render).1.Ok? ==> Repeats(s.applied.Keys, a)
  {
    hide RequireStr, Truthy, Patched;
  }

  /** A success under a key changes one resource, whose revision grows by one. */
  lemma SuccessTouchesOne(c: Cluster, a: Action, render: Render)
    requires Direct(c, a, render).1.Ok?
    ensures var (c', r) := Direct(c, a, render);
      && r.value.id in c.resources && c' == c.(resources := c.resources[r.value.id := r.value.resource])
      && r.value.resource.revision == c.resources[r.value.id].revision + 1
  {
    hide RequireStr, Truthy, Merge, Labels;
  }

  /** What a successful action changes in its resource: scaling sets the replicas, labelling adds labels and deleting
      marks the status, each leaving the rest; a patch merges its sections. */
  lemma ActionEffects(c: Cluster, a: Action, render: Render)
    requires Direct(c, a, render).1.Ok?
    ensures var kind, payload := RequireStr(a, "kind").value, Entries(OrEmpty(a, "payload"));
      var view := Direct(c, a, render).1.value;
      view.id in c.resources &&
      var before := c.resources[view.id];
      var next := before.(revision := before.revision + 1);
      && (kind == "scale" ==>
            && "replicas" in payload && Count(payload["replicas"])
            && view.resource == next.(spec := before.spec["replicas" := payload["replicas"]]))
      && (kind == "label" ==>
            && "labels" in payload && payload["labels"].Dict?
            && view.resource == next.(labels := before.labels + Labels(payload["labels"].entries, render)))
      && (kind == "delete" ==> view.resource == next.(status := before.status["deleted" := Leaf(Bool(true))]))
      && (kind == "patch" ==> view.resource == Patched(before, payload, render))
  {
    hide RequireStr, Truthy, Merge, Labels, Patched;
    var payload := Entries(OrEmpty(a, "payload"));
    var id := Direct(c, a, render).1.value.id;
    var before := c.resources[id];
    DeleteEffect(before, render);
    if "replicas" in payload && IsInt(payload["replicas"]) { ScaleEffect(before, payload["replicas"], render); }
    if "labels" in payload && payload["labels"].Dict? { LabelEffect(before, payload["labels"], render); }
  }

  lemma DeleteEffect(r: Resource, render: Render)
    ensures Patched(r, DeletePatch(), render) ==
      r.(status := r.status["deleted" := Leaf(Bool(true))], revision := r.revision + 1)
  {
    MergeNothing(r.spec);
    MergeOne(r.status, "deleted", Leaf(Bool(true)));
    assert Labels(map[], render) == map[];
    MapEmpty(r.labels);
  }

  lemma ScaleEffect(r: Resource, replicas: Tree, render: Render)
    requires IsInt(replicas)
    ensures Patched(r, ScalePatch(replicas), render) ==
      r.(spec := r.spec["replicas" := replicas], revision := r.revision + 1)
  {
    MergeNothing(r.status);
    MergeOne(r.spec, "replicas", replicas);
    assert Labels(map[], render) == map[];
    MapEmpty(r.labels);
  }

  lemma LabelEffect(r: Resource, labels: Tree, render: Render)
    requires labels.Dict?
    ensures Patched(r, LabelPatch(labels), render) ==
      r.(labels := r.labels + Labels(labels.entries, render), revision := r.revision + 1)
  {
    MergeNothing(r.spec);
    MergeNothing(r.status);
  }

  /** The text of a field. */
  ghost predicate Says(d: Doc, name: string, text: string) {
    text != "" && name in d && d[name] == Leaf(Text(text))
  }

  /** The action names a resource by kind, namespace and name. */
  ghost predicate Names(a: Action, id: ResourceId) {
    && "resource" in a && a["resource"].Dict?
    && Says(a["resource"].entries, "kind", id.0)
    && Says(a["resource"].entries, "namespace", id.1)
    && Says(a["resource"].entries, "name", id.2)
  }

  /** The payload fits the kind of the action; a missing or empty one counts as an empty dictionary. */
  ghost predicate Fits(a: Action, kind: string) {
    && ("payload" in a && Truthy(a["payload"]) ==> a["payload"].Dict?)
    && (kind == "scale" ==> "payload" in a && a["payload"].Dict? && "replicas" in a["payload"].entries &&
                            Count(a["payload"].entries["replicas"]))
    && (kind == "label" ==> "payload" in a && a["payload"].Dict? && "labels" in a["payload"].entries &&
                            a["payload"].entries["labels"].Dict?)
  }

  /** An action succeeds if and only if the server is up, the kind is supported, the payload fits it and the
      resource that it names exists; the answer is about that resource. */
  lemma SucceedsExactly(c: Cluster, a: Action, render: Render, kind: string, id: ResourceId)
    requires Says(a, "kind", kind) && Names(a, id)
    ensures Direct(c, a, render).1.Ok? <==> !c.outage && kind in SUPPORTED && Fits(a, kind) && id in c.resources
    ensures Direct(c, a, render).1.Ok? ==> Direct(c, a, render).1.value.id == id
  {
    hide Patched, ScalePatch, LabelPatch, DeletePatch;
    assert RequireStr(a, "kind") == Some(kind) && OrEmpty(a, "resource") == a["resource"];
    assert Dict(map[]).entries == map[];
  }

  /** Without a kind or without naming a resource no action succeeds. */
  lemma UnnamedFails(c: Cluster, a: Action, render: Render)
    requires Direct(c, a, render).1.Ok?
    ensures exists kind, id :: Says(a, "kind", kind) && Names(a, id)
  {
    hide Patched, PatchIn, ScaleIn, Fits;
    var kind := RequireStr(a, "kind").value;
    var d := OrEmpty(a, "resource").entries;
    var id := (RequireStr(d, "kind").value, RequireStr(d, "namespace").value, RequireStr(d, "name").value);
    assert Says(a, "kind", kind) && Names(a, id);
  }

  // ---------------------------------------------------------------- runs

  /** Actions mixed with outages and with what others do to the server. */
  datatype Event = Act(action: Action) | SetOutage(on: bool) | External(id: ResourceId, change: Option<Resource>)

  function Others(c: Cluster, e: Event): Cluster {
    match e
    case SetOutage(on) => c.(outage := on)
    case External(id, Some(r)) => c.(resources := c.resources[id := r])
    case External(id, None) => c.(resources := c.resources - {id})
    case Act(_) => c
  }

  function Step(s: State, e: Event, render: Render): State {
    if e.Act? then Executed(s, e.action, render).0 else s.(cluster := Others(s.cluster, e))
  }

  function Run(s: State, es: seq<Event>, render: Render): State
    decreases |es|
  {
    if es == [] then s else Run(Step(s, es[0], render), es[1..], render)
  }

  /** The same event on the server alone, an action always carried out. */
  function DirectStep(c: Cluster, e: Event, render: Render): Cluster {
    if e.Act? then Direct(c, e.action, render).0 else Others(c, e)
  }

  function DirectRun(c: Cluster, es: seq<Event>, render: Render): Cluster
    decreases |es|
  {
    if es == [] then c else DirectRun(DirectStep(c, es[0], render), es[1..], render)
  }

  /** The event succeeds on the server under a key. */
  predicate Succeeds(c: Cluster, e: Event, key: string, render: Render) {
    e.Act? && HasKey(e.action, key) && Direct(c, e.action, render).1.Ok?
  }

  function Achieved(c: Cluster, e: Event, render: Render): set<string> {
    if e.Act? && IdemKey(e.action).Some? && Succeeds(c, e, IdemKey(e.action).value, render)
    then {IdemKey(e.action).value} else {}
  }

  /** The events without repeats: a supported action is dropped when a kept one with its key succeeded before. */
  function WithoutRepeats(c: Cluster, done: set<string>, es: seq<Event>, render: Render): seq<Event>
    decreases |es|
  {
    if es == [] then []
    else if es[0].Act? && Repeats(done, es[0].action) then WithoutRepeats(c, done, es[1..], render)
    else
      [es[0]] + WithoutRepeats(DirectStep(c, es[0], render), done + Achieved(c, es[0], render), es[1..], render)
  }

  /** How often actions with a key change the server during a run. */
  function Mutations(s: State, es: seq<Event>, key: string, render: Render): nat
    decreases |es|
  {
    if es == [] then 0
    else
      var t := Step(s, es[0], render);
      var now := if es[0].Act? && HasKey(es[0].action, key) && t.cluster != s.cluster then 1 else 0;
      now + Mutations(t, es[1..], key, render)
  }

  lemma {:induction false} RunSane(s: State, es: seq<Event>, render: Render)
    requires Sane(s)
    ensures Sane(Run(s, es, render))
    decreases |es|
  {
    hide Direct;
    if es != [] { RunSane(Step(s, es[0], render), es[1..], render); }
  }

  /** In every run from an empty memory, an action that fails leaves server and memory as they were. */
  lemma RunErrorChangesNothing(c: Cluster, es: seq<Event>, a: Action, render: Render)
    ensures var s := Run(State(c, map[]), es, render);
      var (s', r) := Executed(s, a, render);
      r.Fail? ==> s' == s
  {
    hide Direct;
    RunSane(State(c, map[]), es, render);
    ErrorChangesNothing(Run(State(c, map[]), es, render), a, render);
  }

  lemma StepKeys(s: State, e: Event, render: Render)
    requires !(e.Act? && Repeats(s.applied.Keys, e.action))
    ensures Step(s, e, render).cluster == DirectStep(s.cluster, e, render)
    ensures Step(s, e, render).applied.Keys == s.applied.Keys + Achieved(s.cluster, e, render)
  {
    hide Direct, Supported;
  }

  /** The server ends as if the repeats had been dropped and no action been remembered. */
  lemma {:induction false} RunDropsRepeats(s: State, es: seq<Event>, render: Render)
    ensures Run(s, es, render).cluster ==
      DirectRun(s.cluster, WithoutRepeats(s.cluster, s.applied.Keys, es, render), render)
    decreases |es|
  {
    hide Direct, Achieved, DirectStep, Supported;
    if es != [] {
      var t := Step(s, es[0], render);
      RunDropsRepeats(t, es[1..], render);
      if !(es[0].Act? && Repeats(s.applied.Keys, es[0].action)) {
        StepKeys(s, es[0], render);
        var kept := WithoutRepeats(s.cluster, s.applied.Keys, es, render);
        assert kept[0] == es[0] && kept[1..] == WithoutRepeats(t.cluster, t.applied.Keys, es[1..], render);
      }
    }
  }

  /** Each key causes at most one mutation, and none once a success under it is remembered. */
  lemma {:induction false} AtMostOneMutation(s: State, es: seq<Event>, key: string, render: Render)
    ensures Mutations(s, es, key, render) <= if key in s.applied then 0 else 1
    decreases |es|
  {
    hide Executed;
    if es != [] {
      AtMostOneMutation(Step(s, es[0], render), es[1..], key, render);
      if es[0].Act? && HasKey(es[0].action, key) { MutationIsRemembered(s, es[0].action, key, render); }
      if key in s.applied {
        RememberedStays(s, [es[0]], key, render);
        assert Run(s, [es[0]], render) == Step(s, es[0], render);
      }
    }
  }

  lemma MutationIsRemembered(s: State, a: Action, key: string, render: Render)
    requires HasKey(a, key)
    ensures var (t, _) := Executed(s, a, render);
      t.cluster != s.cluster ==> key !in s.applied && key in t.applied
  {
    hide Dispatch, RequireStr, Truthy;
    match RequireStr(a, "kind")
    case Some(kind) =>
      DispatchFailureKeeps(s.cluster, kind, Entries(OrEmpty(a, "resource")), Entries(OrEmpty(a, "payload")), render);
    case None =>
  }

  /** A remembered response stays. */
  lemma {:induction false} RememberedStays(s: State, es: seq<Event>, key: string, render: Render)
    requires key in s.applied
    ensures key in Run(s, es, render).applied && Run(s, es, render).applied[key] == s.applied[key]
    decreases |es|
  {
    hide Perform, RequireStr;
    if es != [] { RememberedStays(Step(s, es[0], render), es[1..], key, render); }
  }

  /** After a success under a key, whatever happens, a supported action with that key changes nothing and
      returns that first success. */
  lemma RepeatReturnsFirst(s: State, a: Action, es: seq<Event>, b: Action, key: string, render: Render)
    requires HasKey(a, key) && HasKey(b, key) && Supported(b)
    requires Executed(s, a, render).1.Ok?
    ensures var later := Run(Executed(s, a, render).0, es, render);
      Executed(later, b, render) == (later, Executed(s, a, render).1)
  {
    hide Direct;
    RememberedStays(Executed(s, a, render).0, es, key, render);
  }

  /** Actions under different keys are never dropped. */
  ghost predicate DistinctKeys(done: set<string>, es: seq<Event>) {
    && (forall i :: 0 <= i < |es| && es[i].Act? && IdemKey(es[i].action).Some? ==> IdemKey(es[i].action).value !in done)
    && forall i, j :: 0 <= i < j < |es| && es[i].Act? && es[j].Act? && IdemKey(es[i].action).Some? ==>
         IdemKey(es[i].action) != IdemKey(es[j].action)
  }

  lemma {:induction false} DistinctKeysKept(c: Cluster, done: set<string>, es: seq<Event>, render: Render)
    requires DistinctKeys(done, es)
    ensures WithoutRepeats(c, done, es, render) == es
    decreases |es|
  {
    hide Direct, DirectStep, IdemKey;
    if es != [] {
      var done' := done + Achieved(c, es[0], render);
      assert forall i :: 0 <= i < |es| - 1 ==> es[1..][i] == es[i + 1];
      assert DistinctKeys(done', es[1..]);
      DistinctKeysKept(DirectStep(c, es[0], render), done', es[1..], render);
    }
  }
}
