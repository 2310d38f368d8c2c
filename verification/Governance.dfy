/** Proposals submitted, approved and rejected, tm/ai/controller.py, under every interleaving of the
    sections that its locks delimit. */
module Governance {
  import opened Collections
  import opened Trees
  import opened PolicyDocs
  import opened PolicyStore

  // ---------------------------------------------------------------- the code, one caller at a time

  datatype Outcome = Submitted(id: string) | Approved(version: nat) | Rejected | UnknownProposal | BadChange

  class Controller {
    const store: Store
    var pending: map<string, Proposal>

    constructor (store: Store)
      ensures this.store == store && pending == map[]
    {
      this.store := store;
      pending := map[];
    }

    method Submit(p: Proposal) returns (r: Outcome)
      modifies this`pending
      ensures pending == old(pending)[p.id := p] && r == Submitted(p.id)
    {
      pending := pending[p.id := p];
      r := Submitted(p.id);
    }

    method PopPending(id: string) returns (r: Option<Proposal>)
      modifies this`pending
      ensures r == Lookup(old(pending), id) && pending == old(pending) - {id}
    {
      if id !in pending { return None; }
      r := Some(pending[id]);
      pending := pending - {id};
    }

    /** The version and the policies; other callers may apply a proposal between the two reads, see `ListedPolicies`. */
    method ListPolicies() returns (version: nat, policies: Tree)
      ensures version == store.snapshot.version && policies == Dict(store.snapshot.policies)
    {
      version := store.snapshot.version;
      policies := store.Get(None, NONE);
    }

    /** The proposal leaves the pending ones even when the store refuses it. */
    method Approve(id: string, actor: string, reason: string) returns (r: Outcome)
      requires store.Valid()
      modifies this`pending, store
      ensures store.Valid() && pending == old(pending) - {id}
      ensures id !in old(pending) ==> r == UnknownProposal && store.snapshot == old(store.snapshot)
      ensures id in old(pending) ==>
        match Applied(old(store.snapshot), old(pending)[id], actor, reason)
        case Some(s) => store.snapshot == s && r == Approved(s.version)
        case None => store.snapshot == old(store.snapshot) && r == BadChange
      ensures r == BadChange <==> id in old(pending) && !Acceptable(old(pending)[id])
      ensures r.Approved? ==> id in old(pending)
      ensures r.Approved? ==>
        TakeEffect(old(store.snapshot.policies), old(pending)[id].changes, store.snapshot.policies)
      ensures r.Approved? ==>
        store.snapshot.history == old(store.snapshot.history) + [Entry(r.version, actor, reason, old(pending)[id])]
    {
      hide Applied, Acceptable, TakeEffect;
      if id in pending { AppliedIff(store.snapshot, pending[id], actor, reason); }
      var p := PopPending(id);
      if p.None? { return UnknownProposal; }
      var version := store.Apply(p.value, actor, reason);
      r := if version.Some? then Approved(version.value) else BadChange;
    }

    method Reject(id: string) returns (r: Outcome)
      modifies this`pending
      ensures pending == old(pending) - {id}
      ensures r == if id in old(pending) then Rejected else UnknownProposal
    {
      var p := PopPending(id);
      r := if p.Some? then Rejected else UnknownProposal;
    }
  }

  // ---------------------------------------------------------------- many callers

  /** An approval between its two locked sections. */
  datatype Flight = Flight(proposal: Proposal, actor: string, reason: string)

  datatype Step =
    | Submit(p: Proposal)
    | PopForApproval(caller: nat, id: string, actor: string, reason: string)
    | ApplyPopped(caller: nat)
    | PopForRejection(id: string)

  /** What became of a submission. */
  datatype Fate = Waiting(id: string) | Flying(caller: nat) | InForce(version: nat) | Replaced | Dismissed | Refused

  /** Submissions are numbered in order; every one has one fate. */
  datatype Ledger = Ledger(
    submitted: seq<Proposal>, fates: seq<Fate>, waiting: map<string, nat>, flying: map<nat, nat>, applied: seq<nat>)

  /** What the callers share, and a ledger that no step reads. */
  datatype State = State(
    pending: map<string, Proposal>, flights: map<nat, Flight>, snapshot: Snapshot, ledger: Ledger)

  const START: State := State(map[], map[], EMPTY, Ledger([], [], map[], map[], []))

  function Settle(fates: seq<Fate>, n: nat, fate: Fate): seq<Fate> {
    if n < |fates| then fates[n := fate] else fates
  }

  /** A submission under an identifier that is still waiting replaces the earlier one. */
  function RecordSubmit(l: Ledger, p: Proposal): Ledger {
    var fates := if p.id in l.waiting then Settle(l.fates, l.waiting[p.id], Replaced) else l.fates;
    l.(submitted := l.submitted + [p], fates := fates + [Waiting(p.id)],
       waiting := l.waiting[p.id := |l.submitted|])
  }

  function RecordTakeOff(l: Ledger, id: string, c: nat): Ledger
    requires id in l.waiting
  {
    l.(waiting := l.waiting - {id}, flying := l.flying[c := l.waiting[id]],
       fates := Settle(l.fates, l.waiting[id], Flying(c)))
  }

  function RecordLanding(l: Ledger, c: nat, ok: bool): Ledger
    requires c in l.flying
  {
    var n := l.flying[c];
    if ok
    then l.(flying := l.flying - {c}, applied := l.applied + [n], fates := Settle(l.fates, n, InForce(|l.applied| + 1)))
    else l.(flying := l.flying - {c}, fates := Settle(l.fates, n, Refused))
  }

  function RecordRejection(l: Ledger, id: string): Ledger
    requires id in l.waiting
  {
    l.(waiting := l.waiting - {id}, fates := Settle(l.fates, l.waiting[id], Dismissed))
  }

  /** One locked section. A caller already inside an approval cannot start another. */
  function Next(s: State, step: Step): State {
    var l := s.ledger;
    match step
    case Submit(p) => s.(pending := s.pending[p.id := p], ledger := RecordSubmit(l, p))
    case PopForApproval(c, id, actor, reason) =>
      if c in s.flights || id !in s.pending then s
      else s.(pending := s.pending - {id}, flights := s.flights[c := Flight(s.pending[id], actor, reason)],
              ledger := if id in l.waiting then RecordTakeOff(l, id, c) else l)
    case ApplyPopped(c) =>
      if c !in s.flights then s
      else
        var f := s.flights[c];
        var after := Applied(s.snapshot, f.proposal, f.actor, f.reason);
        s.(flights := s.flights - {c}, snapshot := if after.Some? then after.value else s.snapshot,
           ledger := if c in l.flying then RecordLanding(l, c, after.Some?) else l)
    case PopForRejection(id) =>
      s.(pending := s.pending - {id}, ledger := if id in l.waiting then RecordRejection(l, id) else l)
  }

  function Run(s: State, steps: seq<Step>): State
    decreases |steps|
  {
    if steps == [] then s else Run(Next(s, steps[0]), steps[1..])
  }

  function Submissions(steps: seq<Step>): seq<Proposal>
    decreases |steps|
  {
    if steps == [] then []
    else (if steps[0].Submit? then [steps[0].p] else []) + Submissions(steps[1..])
  }

  // ---------------------------------------------------------------- the ledger is right

  /** The ledger's maps are the inverse of the fates. */
  ghost predicate Exact(l: Ledger) {
    && |l.fates| == |l.submitted|
    && (forall id :: id in l.waiting ==> l.waiting[id] < |l.fates| && l.fates[l.waiting[id]] == Waiting(id))
    && (forall c :: c in l.flying ==> l.flying[c] < |l.fates| && l.fates[l.flying[c]] == Flying(c))
    && (forall i :: 0 <= i < |l.applied| ==> l.applied[i] < |l.fates| && l.fates[l.applied[i]] == InForce(i + 1))
    && (forall n :: 0 <= n < |l.fates| ==> Located(l, n))
  }

  ghost predicate Located(l: Ledger, n: nat)
    requires n < |l.fates|
  {
    match l.fates[n]
    case Waiting(id) => id in l.waiting && l.waiting[id] == n
    case Flying(c) => c in l.flying && l.flying[c] == n
    case InForce(v) => 0 < v <= |l.applied| && l.applied[v - 1] == n
    case _ => true
  }

  /** What the ledger lists is what the callers share. */
  ghost predicate Tracks(s: State) {
    && TracksPending(s.ledger, s.pending) && TracksFlights(s.ledger, s.flights)
    && TracksHistory(s.ledger, s.snapshot.history)
  }

  ghost predicate TracksPending(l: Ledger, pending: map<string, Proposal>) {
    && l.waiting.Keys == pending.Keys
    && forall id :: id in pending ==> l.waiting[id] < |l.submitted| && l.submitted[l.waiting[id]] == pending[id]
  }

  ghost predicate TracksFlights(l: Ledger, flights: map<nat, Flight>) {
    && l.flying.Keys == flights.Keys
    && forall c :: c in flights ==> l.flying[c] < |l.submitted| && l.submitted[l.flying[c]] == flights[c].proposal
  }

  ghost predicate TracksHistory(l: Ledger, history: seq<Entry>) {
    && |l.applied| == |history|
    && forall i :: 0 <= i < |history| ==>
         l.applied[i] < |l.submitted| && l.submitted[l.applied[i]] == history[i].proposal
  }

  ghost predicate Inv(s: State) {
    Exact(s.ledger) && Tracks(s) && Consistent(s.snapshot)
  }

  lemma SubmitExact(l: Ledger, p: Proposal)
    requires Exact(l)
    ensures Exact(RecordSubmit(l, p))
  {
    hide Exact;
    if p.id in l.waiting { ReplaceExact(l, p.id); } else { assert l.waiting - {p.id} == l.waiting; }
    var cleared := l.(waiting := l.waiting - {p.id},
      fates := if p.id in l.waiting then Settle(l.fates, l.waiting[p.id], Replaced) else l.fates);
    EnterExact(cleared, p);
    assert cleared.waiting[p.id := |l.submitted|] == l.waiting[p.id := |l.submitted|];
  }

  lemma ReplaceExact(l: Ledger, id: string)
    requires Exact(l) && id in l.waiting
    ensures Exact(l.(waiting := l.waiting - {id}, fates := Settle(l.fates, l.waiting[id], Replaced)))
  {
    var l' := l.(waiting := l.waiting - {id}, fates := Settle(l.fates, l.waiting[id], Replaced));
    forall n | 0 <= n < |l'.fates| ensures Located(l', n) { assert Located(l, n); }
  }

  lemma EnterExact(l: Ledger, p: Proposal)
    requires Exact(l) && p.id !in l.waiting
    ensures Exact(l.(submitted := l.submitted + [p], fates := l.fates + [Waiting(p.id)],
                     waiting := l.waiting[p.id := |l.submitted|]))
  {
    var l' := l.(submitted := l.submitted + [p], fates := l.fates + [Waiting(p.id)],
                 waiting := l.waiting[p.id := |l.submitted|]);
    forall n | 0 <= n < |l'.fates| ensures Located(l', n) {
      if n < |l.fates| { assert Located(l, n); }
    }
  }

  lemma TakeOffExact(l: Ledger, id: string, c: nat)
    requires Exact(l) && id in l.waiting && c !in l.flying
    ensures Exact(RecordTakeOff(l, id, c))
  {
    var l' := RecordTakeOff(l, id, c);
    forall n | 0 <= n < |l'.fates| ensures Located(l', n) { assert Located(l, n); }
  }

  lemma LandingExact(l: Ledger, c: nat, ok: bool)
    requires Exact(l) && c in l.flying
    ensures Exact(RecordLanding(l, c, ok))
  {
    var l' := RecordLanding(l, c, ok);
    forall n | 0 <= n < |l'.fates| ensures Located(l', n) { assert Located(l, n); }
  }

  lemma RejectionExact(l: Ledger, id: string)
    requires Exact(l) && id in l.waiting
    ensures Exact(RecordRejection(l, id))
  {
    var l' := RecordRejection(l, id);
    forall n | 0 <= n < |l'.fates| ensures Located(l', n) { assert Located(l, n); }
  }

  /** Every locked section keeps the invariant. */
  lemma NextKeeps(s: State, step: Step)
    requires Inv(s)
    ensures Inv(Next(s, step))
  {
    hide Consistent, Exact, Applied, RecordSubmit, RecordTakeOff, RecordLanding, RecordRejection;
    NextExact(s, step);
    NextTracks(s, step);
    match step
    case ApplyPopped(c) =>
      if c in s.flights {
        var f := s.flights[c];
        if Applied(s.snapshot, f.proposal, f.actor, f.reason).Some? {
          AppliedConsistent(s.snapshot, f.proposal, f.actor, f.reason);
        }
      }
    case _ =>
  }

  lemma NextExact(s: State, step: Step)
    requires Exact(s.ledger) && Tracks(s)
    ensures Exact(Next(s, step).ledger)
  {
    hide Exact, Applied, RecordSubmit, RecordTakeOff, RecordLanding, RecordRejection;
    match step
    case Submit(p) => SubmitExact(s.ledger, p);
    case PopForApproval(c, id, _, _) =>
      if c !in s.flights && id in s.pending { TakeOffExact(s.ledger, id, c); }
    case ApplyPopped(c) =>
      if c in s.flights {
        var f := s.flights[c];
        LandingExact(s.ledger, c, Applied(s.snapshot, f.proposal, f.actor, f.reason).Some?);
      }
    case PopForRejection(id) =>
      if id in s.pending { RejectionExact(s.ledger, id); }
  }

  lemma NextTracks(s: State, step: Step)
    requires Tracks(s)
    ensures Tracks(Next(s, step))
  {
    hide TracksPending, TracksFlights, TracksHistory, Applied;
    hide RecordSubmit, RecordTakeOff, RecordLanding, RecordRejection;
    var l := s.ledger;
    match step
    case Submit(p) => SubmitTracks(s, p);
    case PopForApproval(c, id, actor, reason) =>
      TrackedKeys(s);
      if c !in s.flights && id in s.pending { TakeOffTracks(s, id, Flight(s.pending[id], actor, reason), c); }
    case ApplyPopped(c) =>
      TrackedKeys(s);
      if c in s.flights {
        var f := s.flights[c];
        LandingTracks(s, c, Applied(s.snapshot, f.proposal, f.actor, f.reason));
      }
    case PopForRejection(id) =>
      TrackedKeys(s);
      if id in s.pending { RejectionTracks(s, id); } else { assert s.pending - {id} == s.pending; }
  }

  lemma TrackedKeys(s: State)
    requires Tracks(s)
    ensures s.ledger.waiting.Keys == s.pending.Keys && s.ledger.flying.Keys == s.flights.Keys
  {
  }

  lemma SubmitTracks(s: State, p: Proposal)
    requires Tracks(s)
    ensures Tracks(s.(pending := s.pending[p.id := p], ledger := RecordSubmit(s.ledger, p)))
  {
  }

  lemma TakeOffTracks(s: State, id: string, f: Flight, c: nat)
    requires Tracks(s) && id in s.pending && f.proposal == s.pending[id]
    ensures id in s.ledger.waiting
    ensures Tracks(s.(pending := s.pending - {id}, flights := s.flights[c := f],
                      ledger := RecordTakeOff(s.ledger, id, c)))
  {
  }

  lemma LandingTracks(s: State, c: nat, after: Option<Snapshot>)
    requires Tracks(s) && c in s.flights
    requires var f := s.flights[c]; after == Applied(s.snapshot, f.proposal, f.actor, f.reason)
    ensures c in s.ledger.flying
    ensures Tracks(s.(flights := s.flights - {c}, snapshot := if after.Some? then after.value else s.snapshot,
                      ledger := RecordLanding(s.ledger, c, after.Some?)))
  {
    hide ApplyChanges;
  }

  lemma RejectionTracks(s: State, id: string)
    requires Tracks(s) && id in s.pending
    ensures id in s.ledger.waiting
    ensures Tracks(s.(pending := s.pending - {id}, ledger := RecordRejection(s.ledger, id)))
  {
  }

  lemma {:induction false} RunKeeps(s: State, steps: seq<Step>)
    requires Inv(s)
    ensures Inv(Run(s, steps))
    ensures Run(s, steps).ledger.submitted == s.ledger.submitted + Submissions(steps)
    decreases |steps|
  {
    hide Inv;
    if steps == [] {
      assert s.ledger.submitted + [] == s.ledger.submitted;
    } else {
      NextKeeps(s, steps[0]);
      RunKeeps(Next(s, steps[0]), steps[1..]);
      var one := if steps[0].Submit? then [steps[0].p] else [];
      assert Next(s, steps[0]).ledger.submitted == s.ledger.submitted + one;
      SeqPlus(s.ledger.submitted, one, Submissions(steps[1..]));
    }
  }

  // ---------------------------------------------------------------- main results

  /** The history entries are distinct submissions: each submission is applied at most once. */
  ghost predicate AppliedOnce(history: seq<Entry>, submissions: seq<Proposal>, which: seq<nat>) {
    && |which| == |history| && NoDup(which)
    && forall i :: 0 <= i < |which| ==> which[i] < |submissions| && submissions[which[i]] == history[i].proposal
  }

  lemma StartInv()
    ensures Inv(START)
  {
  }

  /** In every interleaving each submission is applied at most once, versions are gap-free and count the
      history, and the policies are the replay of the history from the empty document. */
  lemma EveryRunIsGoverned(steps: seq<Step>)
    ensures var s := Run(START, steps);
      Consistent(s.snapshot) && exists which :: AppliedOnce(s.snapshot.history, Submissions(steps), which)
  {
    hide Next, AppliedOnce;
    StartInv();
    RunKeeps(START, steps);
    EverySubmissionAccounted(steps);
  }

  /** An approval whose two sections follow each other is the sequential `Approve`. */
  lemma ApprovalUninterrupted(s: State, c: nat, id: string, actor: string, reason: string)
    requires c !in s.flights && id in s.pending
    ensures var t := Run(s, [PopForApproval(c, id, actor, reason), ApplyPopped(c)]);
      && t.pending == s.pending - {id} && t.flights == s.flights
      && t.snapshot ==
           match Applied(s.snapshot, s.pending[id], actor, reason) case Some(after) => after case None => s.snapshot
  {
    hide Applied, RecordTakeOff, RecordLanding;
    var pop, apply := PopForApproval(c, id, actor, reason), ApplyPopped(c);
    assert [pop, apply][1..] == [apply] && [apply][1..] == [];
    assert Run(s, [pop, apply]) == Run(Next(s, pop), [apply]) == Next(Next(s, pop), apply);
  }

  /** A submission and a rejection do to the shared state what the sequential calls do. */
  lemma StepsAreCalls(s: State, p: Proposal, id: string)
    ensures var t := Next(s, Submit(p));
      t.pending == s.pending[p.id := p] && t.flights == s.flights && t.snapshot == s.snapshot
    ensures var t := Next(s, PopForRejection(id));
      t.pending == s.pending - {id} && t.flights == s.flights && t.snapshot == s.snapshot
  {
  }

  lemma {:induction false} HistoryGrows(s: State, steps: seq<Step>)
    ensures |s.snapshot.history| <= |Run(s, steps).snapshot.history|
    ensures Run(s, steps).snapshot.history[..|s.snapshot.history|] == s.snapshot.history
    decreases |steps|
  {
    if steps != [] {
      HistoryGrows(Next(s, steps[0]), steps[1..]);
      var h, h1, h2 := s.snapshot.history, Next(s, steps[0]).snapshot.history, Run(s, steps).snapshot.history;
      assert h1[..|h|] == h;
      assert h2[..|h|] == h2[..|h1|][..|h|];
    }
  }

  /** Any policies that were ever in force are the replay of a prefix of the later history. */
  lemma PastPoliciesReplay(before: seq<Step>, after: seq<Step>)
    ensures var s := Run(START, before);
      var t := Run(s, after);
      s.snapshot.version <= t.snapshot.version == |t.snapshot.history| &&
      t.snapshot.history[..s.snapshot.version] == s.snapshot.history &&
      Replay(t.snapshot.history[..s.snapshot.version]) == Some(s.snapshot.policies)
  {
    StartInv();
    RunKeeps(START, before);
    RunKeeps(Run(START, before), after);
    HistoryGrows(Run(START, before), after);
  }

  // ---------------------------------------------------------------- what becomes of a submission

  /** A fate that no later step changes. */
  predicate Settled(f: Fate) { f.InForce? || f.Replaced? || f.Dismissed? || f.Refused? }

  /** A settled submission stays settled in every continuation. */
  lemma {:induction false} SettledStays(s: State, steps: seq<Step>, n: nat)
    requires Inv(s) && n < |s.ledger.fates| && Settled(s.ledger.fates[n])
    ensures n < |Run(s, steps).ledger.fates| && Run(s, steps).ledger.fates[n] == s.ledger.fates[n]
    decreases |steps|
  {
    hide Inv, Next;
    if steps != [] {
      SettledStep(s, steps[0], n);
      NextKeeps(s, steps[0]);
      SettledStays(Next(s, steps[0]), steps[1..], n);
    }
  }

  lemma SettledStep(s: State, step: Step, n: nat)
    requires Inv(s) && n < |s.ledger.fates| && Settled(s.ledger.fates[n])
    ensures n < |Next(s, step).ledger.fates| && Next(s, step).ledger.fates[n] == s.ledger.fates[n]
  {
    hide Consistent, Applied, Tracks;
    var l := s.ledger;
    assert forall id :: id in l.waiting ==> l.waiting[id] != n;
    assert forall c :: c in l.flying ==> l.flying[c] != n;
  }

  /** A submission that was replaced, dismissed or refused never enters the history, however the run goes on. */
  lemma GoneForGood(before: seq<Step>, after: seq<Step>, n: nat)
    requires var l := Run(START, before).ledger;
      n < |l.fates| && Settled(l.fates[n]) && !l.fates[n].InForce?
    ensures n !in Run(Run(START, before), after).ledger.applied
  {
    hide Consistent, Applied, Tracks, Next;
    StartInv();
    RunKeeps(START, before);
    var s := Run(START, before);
    RunKeeps(s, after);
    SettledStays(s, after, n);
    var l := Run(s, after).ledger;
    assert forall i :: 0 <= i < |l.applied| ==> l.fates[l.applied[i]].InForce?;
  }

  /** Every submission of a run has exactly one fate, and the ledger's list of applied ones is the history. */
  lemma EverySubmissionAccounted(steps: seq<Step>)
    ensures var s := Run(START, steps);
      && |s.ledger.fates| == |Submissions(steps)|
      && AppliedOnce(s.snapshot.history, Submissions(steps), s.ledger.applied)
      && forall n :: 0 <= n < |s.ledger.fates| ==> (n in s.ledger.applied <==> s.ledger.fates[n].InForce?)
  {
    hide Consistent, Next;
    StartInv();
    RunKeeps(START, steps);
    var s := Run(START, steps);
    assert [] + Submissions(steps) == Submissions(steps);
    var l := s.ledger;
    LedgerApplied(l);
    assert AppliedOnce(s.snapshot.history, Submissions(steps), l.applied);
  }

  lemma LedgerApplied(l: Ledger)
    requires Exact(l)
    ensures NoDup(l.applied)
    ensures forall n :: 0 <= n < |l.fates| ==> (n in l.applied <==> l.fates[n].InForce?)
  {
    forall i, j | 0 <= i < j < |l.applied| ensures l.applied[i] != l.applied[j] {
      assert l.fates[l.applied[i]] == InForce(i + 1) && l.fates[l.applied[j]] == InForce(j + 1);
    }
    forall n | 0 <= n < |l.fates| ensures n in l.applied <==> l.fates[n].InForce? {
      assert Located(l, n);
    }
  }

  // ---------------------------------------------------------------- listing the policies

  /** `list_policies` reads the version in one locked section and the policies in another; `between` is what others
      do meanwhile. The policies are those of the version read and the proposals applied since, so the two belong
      to one snapshot if and only if nothing was applied. */
  lemma ListedPolicies(before: seq<Step>, between: seq<Step>)
    ensures var s := Run(START, before);
      var t := Run(s, between);
      && s.snapshot.version <= t.snapshot.version == |t.snapshot.history|
      && Replay(t.snapshot.history[..s.snapshot.version]) == Some(s.snapshot.policies)
      && Replay(t.snapshot.history) == Some(t.snapshot.policies)
      && (s.snapshot == t.snapshot <==> s.snapshot.version == t.snapshot.version)
  {
    hide Next, Tracks, Exact;
    StartInv();
    RunKeeps(START, before);
    var s := Run(START, before);
    RunKeeps(s, between);
    var t := Run(s, between);
    PastPoliciesReplay(before, between);
    var h := t.snapshot.history;
    if s.snapshot.version == t.snapshot.version { assert h[..|h|] == h; }
  }

  /** An approval between the two sections: version 0 is listed with the policies of version 1. */
  lemma TornListing()
    ensures var p := Proposal("p", [Change("limit", Set(Leaf(Int(3))))]);
      var s := Run(START, [Submit(p)]);
      var t := Run(s, [PopForApproval(0, "p", "", ""), ApplyPopped(0)]);
      s.snapshot.version == 0 && t.snapshot.version == 1 && t.snapshot.policies != s.snapshot.policies
  {
    hide RecordSubmit, RecordTakeOff, RecordLanding, Segments;
    var c := Change("limit", Set(Leaf(Int(3))));
    var p := Proposal("p", [c]);
    assert [Submit(p)][1..] == [];
    var s := Run(START, [Submit(p)]);
    var first := Next(START, Submit(p));
    assert Run(first, []) == first && s == first;
    ApprovalUninterrupted(s, 0, "p", "", "");
    LimitPath();
    assert [c][1..] == [];
    var after: Doc := map["limit" := Leaf(Int(3))];
    assert ApplyChanges(map[], [c]) == Some(after) && "limit" in after;
  }

  lemma LimitPath()
    ensures Segments("limit") == ["limit"]
  {
    assert Dotted(["limit"]) == "limit";
    SegmentsOfDotted(["limit"]);
  }
}
