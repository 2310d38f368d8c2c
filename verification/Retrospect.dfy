/** The rolling-window aggregator, tm/ai/retrospect.py, against a filter over everything it was given.
    Times and amounts are real numbers. */
module Retrospect {
  import opened Collections

  datatype Record = Record(
    flow: string, binding: string, status: string, endTs: real, durationMs: Option<real>, costUsd: Option<real>)
  datatype Entry = Entry(ts: real, status: string, reward: real, latency: real, cost: real)
  datatype Metrics = Metrics(n: nat, okRate: real, avgReward: real, avgLatency: real, avgCost: real)

  const ZERO: Metrics := Metrics(0, 0.0, 0.0, 0.0, 0.0)

  function Max(a: real, b: real): real { if a < b then b else a }
  function Min(a: real, b: real): real { if a < b then a else b }

  function OrZero(x: Option<real>): real { if x.Some? then x.value else 0.0 }

  function Binding(r: Record): string { if r.binding != "" then r.binding else r.flow }

  /** A record as it is kept; `lower` is the lower-casing of text. */
  function EntryOf(r: Record, reward: Option<real>, lower: string -> string): Entry {
    var status := lower(if r.status != "" then r.status else "error");
    Entry(r.endTs, status, OrZero(reward), OrZero(r.durationMs), OrZero(r.costUsd))
  }

  // ---------------------------------------------------------------- what is kept and counted

  /** Without the leading entries older than the cutoff. */
  function Evict(runs: seq<Entry>, cutoff: real): seq<Entry> {
    if runs != [] && runs[0].ts < cutoff then Evict(runs[1..], cutoff) else runs
  }

  /** What is kept of a history: every entry evicts at its own time less the retention. */
  function Kept(h: seq<Entry>, retention: real): seq<Entry>
    decreases |h|
  {
    if h == [] then []
    else
      var n := |h| - 1;
      Evict(Kept(h[..n], retention) + [h[n]], h[n].ts - retention)
  }

  /** The largest time, or zero. */
  function Latest(h: seq<Entry>): real
    decreases |h|
  {
    if h == [] then 0.0 else Max(Latest(h[..|h| - 1]), h[|h| - 1].ts)
  }

  /** The entries counted from the newest back, up to the first one older than the cutoff. */
  function Tail(runs: seq<Entry>, cutoff: real): seq<Entry>
    decreases |runs|
  {
    if runs == [] || runs[|runs| - 1].ts < cutoff then []
    else Tail(runs[..|runs| - 1], cutoff) + [runs[|runs| - 1]]
  }

  /** The entries behind the aggregates of a history. */
  function Counted(h: seq<Entry>, retention: real, window: real): seq<Entry> {
    if window <= 0.0 then [] else Tail(Kept(h, retention), Latest(h) - window)
  }

  // ---------------------------------------------------------------- aggregates

  function SumOf(s: seq<Entry>, f: Entry -> real): real {
    if s == [] then 0.0 else f(s[0]) + SumOf(s[1..], f)
  }

  function IsOk(e: Entry): real { if e.status == "ok" then 1.0 else 0.0 }

  /** The count and averages of some entries, zero for none. */
  function Averages(s: seq<Entry>): Metrics {
    var n := |s|;
    if n == 0 then ZERO
    else Metrics(n, SumOf(s, IsOk) / n as real, SumOf(s, (e: Entry) => e.reward) / n as real,
      SumOf(s, (e: Entry) => e.latency) / n as real, SumOf(s, (e: Entry) => e.cost) / n as real)
  }

  // ---------------------------------------------------------------- what the averages are of

  /** The metrics of one record: its own figures, nothing for those it lacks. */
  lemma OneRecord(r: Record, reward: Option<real>, lower: string -> string)
    ensures Averages([EntryOf(r, reward, lower)]) == Metrics(1,
      if lower(if r.status == "" then "error" else r.status) == "ok" then 1.0 else 0.0,
      if reward.Some? then reward.value else 0.0,
      if r.durationMs.Some? then r.durationMs.value else 0.0,
      if r.costUsd.Some? then r.costUsd.value else 0.0)
  {
    var e := EntryOf(r, reward, lower);
    SumOne(e, IsOk);
    SumOne(e, (x: Entry) => x.reward);
    SumOne(e, (x: Entry) => x.latency);
    SumOne(e, (x: Entry) => x.cost);
  }

  lemma SumOne(e: Entry, f: Entry -> real)
    ensures SumOf([e], f) == f(e)
  {
    assert [e][1..] == [];
  }

  lemma {:induction false} SumPlus(a: seq<Entry>, b: seq<Entry>, f: Entry -> real)
    ensures SumOf(a + b, f) == SumOf(a, f) + SumOf(b, f)
  {
    if a == [] {
      assert a + b == b;
    } else {
      assert (a + b)[1..] == a[1..] + b && (a + b)[0] == a[0];
      SumPlus(a[1..], b, f);
    }
  }

  /** A figure averaged over `n` records, times `n`. */
  function Total(n: nat, average: real): real { n as real * average }

  lemma TotalIs(n: nat, sum: real)
    requires n > 0
    ensures Total(n, sum / n as real) == sum
  {
  }

  /** Every figure of two groups of records together is the weighted mean of theirs. */
  lemma AveragesPlus(a: seq<Entry>, b: seq<Entry>)
    ensures var x, y, z := Averages(a), Averages(b), Averages(a + b);
      && z.n == x.n + y.n
      && Total(z.n, z.okRate) == Total(x.n, x.okRate) + Total(y.n, y.okRate)
      && Total(z.n, z.avgReward) == Total(x.n, x.avgReward) + Total(y.n, y.avgReward)
      && Total(z.n, z.avgLatency) == Total(x.n, x.avgLatency) + Total(y.n, y.avgLatency)
      && Total(z.n, z.avgCost) == Total(x.n, x.avgCost) + Total(y.n, y.avgCost)
  {
    hide Total;
    Totals(a);
    Totals(b);
    Totals(a + b);
    SumPlus(a, b, IsOk);
    SumPlus(a, b, (e: Entry) => e.reward);
    SumPlus(a, b, (e: Entry) => e.latency);
    SumPlus(a, b, (e: Entry) => e.cost);
  }

  lemma Totals(s: seq<Entry>)
    ensures var m := Averages(s);
      && m.n == |s| && Total(m.n, m.okRate) == SumOf(s, IsOk)
      && Total(m.n, m.avgReward) == SumOf(s, (e: Entry) => e.reward)
      && Total(m.n, m.avgLatency) == SumOf(s, (e: Entry) => e.latency)
      && Total(m.n, m.avgCost) == SumOf(s, (e: Entry) => e.cost)
  {
    if s != [] {
      TotalIs(|s|, SumOf(s, IsOk));
      TotalIs(|s|, SumOf(s, (e: Entry) => e.reward));
      TotalIs(|s|, SumOf(s, (e: Entry) => e.latency));
      TotalIs(|s|, SumOf(s, (e: Entry) => e.cost));
    }
  }

  lemma TailIs(runs: seq<Entry>, cutoff: real, k: nat)
    requires k <= |runs| && (k == 0 || runs[k - 1].ts < cutoff)
    requires forall i :: k <= i < |runs| ==> runs[i].ts >= cutoff
    ensures Tail(runs, cutoff) == runs[k..]
    decreases |runs|
  {
    if k < |runs| {
      var front := runs[..|runs| - 1];
      TailIs(front, cutoff, k);
      assert runs[k..] == front[k..] + [runs[|runs| - 1]];
    }
  }

  method Compute(runs: seq<Entry>, latest: real, window: real) returns (r: Metrics)
    requires window >= 0.0
    ensures r == if window == 0.0 then ZERO else Averages(Tail(runs, latest - window))
  {
    if window == 0.0 { return ZERO; }
    var cutoff := latest - window;
    var count, ok, reward, latency, cost := 0, 0, 0.0, 0.0, 0.0;
    ghost var fr, fl, fc := (e: Entry) => e.reward, (e: Entry) => e.latency, (e: Entry) => e.cost;
    var i := |runs|;
    while i > 0 && !(runs[i - 1].ts < cutoff)
      invariant 0 <= i <= |runs| && count == |runs| - i
      invariant forall j :: i <= j < |runs| ==> runs[j].ts >= cutoff
      invariant ok as real == SumOf(runs[i..], IsOk)
      invariant reward == SumOf(runs[i..], fr) && latency == SumOf(runs[i..], fl) && cost == SumOf(runs[i..], fc)
    {
      i := i - 1;
      assert runs[i..][1..] == runs[i + 1..];
      count := count + 1;
      if runs[i].status == "ok" { ok := ok + 1; }
      reward := reward + runs[i].reward;
      latency := latency + runs[i].latency;
      cost := cost + runs[i].cost;
    }
    TailIs(runs, cutoff, i);
    if count == 0 { return ZERO; }
    var n := count as real;
    return Metrics(count, ok as real / n, reward / n, latency / n, cost / n);
  }

  // ---------------------------------------------------------------- the code

  class Aggregator {
    const retention: real
    const lower: string -> string
    var entries: map<string, seq<Entry>>
    var latest: map<string, real>
    /** Everything ingested, by binding. */
    ghost var history: map<string, seq<Entry>>

    ghost predicate Valid()
      reads this
    {
      && retention >= 1.0
      && entries.Keys == latest.Keys == history.Keys
      && forall b :: b in history ==> entries[b] == Kept(history[b], retention) && latest[b] == Latest(history[b])
    }

    ghost function Past(b: string): seq<Entry>
      reads this
    {
      if b in history then history[b] else []
    }

    constructor (window: real, lower: string -> string)
      ensures Valid() && history == map[] && retention == Max(1.0, window) && this.lower == lower
    {
      retention := Max(1.0, window);
      this.lower := lower;
      entries, latest, history := map[], map[], map[];
    }

    method Ingest(record: Record, reward: Option<real>)
      requires Valid()
      modifies this
      ensures Valid()
      ensures history == old(history)[Binding(record) := old(Past(Binding(record))) + [EntryOf(record, reward, lower)]]
    {
      var b := Binding(record);
      var entry := EntryOf(record, reward, lower);
      ghost var h := Past(b) + [entry];
      assert h[..|h| - 1] == Past(b);
      var runs := (if b in entries then entries[b] else []) + [entry];
      var cutoff := entry.ts - retention;
      latest := latest[b := Max(if b in latest then latest[b] else 0.0, entry.ts)];
      while runs != [] && runs[0].ts < cutoff
        invariant Evict(runs, cutoff) == Kept(h, retention)
        decreases |runs|
      {
        runs := runs[1..];
      }
      entries := entries[b := runs];
      history := history[b := h];
    }

    /** The metrics of one binding: averages of the counted part of its history. */
    method AggregateOne(window: real, b: string) returns (r: Metrics)
      requires Valid()
      ensures r == Averages(Counted(Past(b), retention, window))
    {
      var w := Max(0.0, window);
      r := Compute(if b in entries then entries[b] else [], if b in latest then latest[b] else 0.0, w);
    }

    method AggregateAll(window: real) returns (r: map<string, Metrics>)
      requires Valid()
      ensures r.Keys == history.Keys
      ensures forall b :: b in r ==> r[b] == Averages(Counted(Past(b), retention, window))
    {
      r := map[];
      var left := entries.Keys;
      while left != {}
        invariant left <= entries.Keys && r.Keys == entries.Keys - left
        invariant forall b :: b in r ==> r[b] == Averages(Counted(Past(b), retention, window))
        decreases |left|
      {
        var b :| b in left;
        var m := AggregateOne(window, b);
        r := r[b := m];
        left := left - {b};
      }
    }
  }

  // ---------------------------------------------------------------- against a filter

  function Filter(h: seq<Entry>, cutoff: real): seq<Entry> {
    if h == [] then [] else (if h[0].ts >= cutoff then [h[0]] else []) + Filter(h[1..], cutoff)
  }

  ghost predicate Ordered(h: seq<Entry>) { forall i, j :: 0 <= i < j < |h| ==> h[i].ts <= h[j].ts }

  lemma {:induction false} FilterIn(h: seq<Entry>, cutoff: real)
    ensures forall e :: e in Filter(h, cutoff) <==> e in h && e.ts >= cutoff
  {
    if h != [] {
      FilterIn(h[1..], cutoff);
      assert forall e :: e in h <==> e == h[0] || e in h[1..];
    }
  }

  lemma {:induction false} FilterOrdered(h: seq<Entry>, cutoff: real)
    requires Ordered(h)
    ensures Ordered(Filter(h, cutoff))
  {
    if h != [] {
      FilterOrdered(h[1..], cutoff);
      FilterIn(h[1..], cutoff);
      var rest := Filter(h[1..], cutoff);
      forall j | 0 <= j < |rest| ensures h[0].ts <= rest[j].ts { assert rest[j] in h[1..]; }
    }
  }

  lemma {:induction false} FilterAppend(a: seq<Entry>, b: seq<Entry>, cutoff: real)
    ensures Filter(a + b, cutoff) == Filter(a, cutoff) + Filter(b, cutoff)
  {
    if a == [] {
      assert a + b == b;
    } else {
      assert (a + b)[1..] == a[1..] + b;
      FilterAppend(a[1..], b, cutoff);
    }
  }

  lemma {:induction false} FilterAll(h: seq<Entry>, cutoff: real)
    requires forall i :: 0 <= i < |h| ==> h[i].ts >= cutoff
    ensures Filter(h, cutoff) == h
  {
    if h != [] { FilterAll(h[1..], cutoff); }
  }

  lemma {:induction false} FilterTwice(h: seq<Entry>, c: real, d: real)
    ensures Filter(Filter(h, c), d) == Filter(h, Max(c, d))
  {
    if h != [] {
      FilterTwice(h[1..], c, d);
      FilterAppend(if h[0].ts >= c then [h[0]] else [], Filter(h[1..], c), d);
    }
  }

  lemma {:induction false} EvictIsFilter(h: seq<Entry>, cutoff: real)
    requires Ordered(h)
    ensures Evict(h, cutoff) == Filter(h, cutoff)
  {
    if h != [] {
      if h[0].ts < cutoff { EvictIsFilter(h[1..], cutoff); } else { FilterAll(h, cutoff); }
    }
  }

  lemma {:induction false} TailIsFilter(h: seq<Entry>, cutoff: real)
    requires Ordered(h)
    ensures Tail(h, cutoff) == Filter(h, cutoff)
    decreases |h|
  {
    if h != [] {
      var n := |h| - 1;
      assert h == h[..n] + [h[n]];
      FilterAppend(h[..n], [h[n]], cutoff);
      TailIsFilter(h[..n], cutoff);
      if h[n].ts < cutoff { FilterNone(h, cutoff); }
    }
  }

  lemma {:induction false} FilterNone(h: seq<Entry>, cutoff: real)
    requires forall i :: 0 <= i < |h| ==> h[i].ts < cutoff
    ensures Filter(h, cutoff) == []
  {
    if h != [] { FilterNone(h[1..], cutoff); }
  }

  lemma FilterOne(e: Entry, cutoff: real)
    ensures Filter([e], cutoff) == if e.ts >= cutoff then [e] else []
  {
    assert [e][1..] == [];
  }

  /** With times in order, the kept entries are those within the retention of the last one. */
  lemma {:induction false} KeptIsFilter(h: seq<Entry>, retention: real)
    requires Ordered(h) && h != [] && retention >= 1.0
    ensures Kept(h, retention) == Filter(h, h[|h| - 1].ts - retention)
    decreases |h|
  {
    hide Evict, Filter, Ordered;
    var n := |h| - 1;
    var front, c := h[..n], h[n].ts - retention;
    assert h == front + [h[n]];
    OrderedFront(h);
    if n == 0 {
      assert Kept(front, retention) == [] && [] + [h[n]] == h;
      EvictIsFilter(h, c);
    } else {
      KeptIsFilter(front, retention);
      EvictAgain(front, h[n], front[n - 1].ts - retention, c);
    }
  }

  lemma OrderedFront(h: seq<Entry>)
    requires Ordered(h) && h != []
    ensures Ordered(h[..|h| - 1])
    ensures |h| > 1 ==> h[..|h| - 1][|h| - 2].ts <= h[|h| - 1].ts
  {
  }

  lemma EvictAgain(front: seq<Entry>, e: Entry, c: real, d: real)
    requires Ordered(front + [e]) && e.ts >= c && d >= c
    ensures Evict(Filter(front, c) + [e], d) == Filter(front + [e], d)
  {
    hide Evict, Filter;
    FilterAppend(front, [e], c);
    FilterOne(e, c);
    FilterOrdered(front + [e], c);
    EvictIsFilter(Filter(front + [e], c), d);
    FilterTwice(front + [e], c, d);
  }

  lemma {:induction false} LatestOrdered(h: seq<Entry>)
    requires Ordered(h) && h != []
    ensures Latest(h) == Max(0.0, h[|h| - 1].ts)
    decreases |h|
  {
    if |h| > 1 { LatestOrdered(h[..|h| - 1]); }
  }

  /** With times in order, the counted entries are the history filtered at the later of two cutoffs. */
  lemma CountedIsFilter(h: seq<Entry>, retention: real, window: real)
    requires Ordered(h) && h != [] && retention >= 1.0 && window > 0.0
    ensures Counted(h, retention, window) ==
      Filter(h, Max(h[|h| - 1].ts - retention, Max(0.0, h[|h| - 1].ts) - window))
  {
    hide Kept, Tail, Filter, Latest, Ordered;
    var last := h[|h| - 1].ts;
    KeptIsFilter(h, retention);
    LatestOrdered(h);
    FilterOrdered(h, last - retention);
    TailIsFilter(Filter(h, last - retention), Latest(h) - window);
    FilterTwice(h, last - retention, Latest(h) - window);
  }

  /** The filter the window stands for. */
  function Advertised(h: seq<Entry>, retention: real, window: real): seq<Entry> {
    Filter(h, Latest(h) - Min(window, retention))
  }

  /** When the last time is `last`, the aggregates are those of the advertised filter. */
  ghost predicate MeetsFilter(last: real, retention: real, window: real) {
    forall h: seq<Entry> :: h != [] && Ordered(h) && h[|h| - 1].ts == last ==>
      Counted(h, retention, window) == Advertised(h, retention, window)
  }

  lemma FilterFrom(h: seq<Entry>, c: real, d: real)
    requires forall i :: 0 <= i < |h| ==> (h[i].ts >= c <==> h[i].ts >= d)
    ensures Filter(h, c) == Filter(h, d)
  {
    if h != [] { FilterFrom(h[1..], c, d); }
  }

  lemma InOrderMeetsFilter(h: seq<Entry>, retention: real, window: real)
    requires Ordered(h) && h != [] && retention >= 1.0 && window > 0.0
    requires h[|h| - 1].ts >= 0.0 || window <= retention || h[|h| - 1].ts < -window
    ensures Counted(h, retention, window) == Advertised(h, retention, window)
  {
    CountedIsFilter(h, retention, window);
    LatestOrdered(h);
    var last := h[|h| - 1].ts;
    forall i | 0 <= i < |h| ensures h[i].ts <= last {}
    FilterFrom(h, Max(last - retention, Max(0.0, last) - window), Latest(h) - Min(window, retention));
  }

  function At(t: real): Entry { Entry(t, "ok", 0.0, 0.0, 0.0) }

  /** Negative times: an entry is counted that the advertised filter leaves out. */
  lemma NegativeTimesMiss(last: real, retention: real, window: real)
    requires retention >= 1.0 && window > retention && -window <= last < 0.0
    ensures var h := [At(Max(-window, last - retention)), At(last)];
      Ordered(h) && |Counted(h, retention, window)| == 2 && |Advertised(h, retention, window)| < 2
  {
    hide Counted, Filter, Latest;
    var t := Max(-window, last - retention);
    var h := [At(t), At(last)];
    CountedIsFilter(h, retention, window);
    LatestOrdered(h);
    FilterAll(h, t);
    FilterAppend([At(t)], [At(last)], -retention);
    FilterOne(At(t), -retention);
    FilterOne(At(last), -retention);
    assert h == [At(t)] + [At(last)];
  }

  /** For times in order and a positive window, the aggregates are those of the advertised filter, whatever the
      history, if and only if the last time is not negative, or the window is within the retention, or
      everything is older than the window. */
  lemma MeetsFilterExactly(last: real, retention: real, window: real)
    requires retention >= 1.0 && window > 0.0
    ensures MeetsFilter(last, retention, window) <==> last >= 0.0 || window <= retention || last < -window
  {
    if last >= 0.0 || window <= retention || last < -window {
      forall h: seq<Entry> | h != [] && Ordered(h) && h[|h| - 1].ts == last
        ensures Counted(h, retention, window) == Advertised(h, retention, window)
      {
        InOrderMeetsFilter(h, retention, window);
      }
    } else {
      NegativeTimesMiss(last, retention, window);
    }
  }

  // ---------------------------------------------------------------- any order

  lemma {:induction false} EvictSuffix(runs: seq<Entry>, cutoff: real) returns (k: nat)
    ensures k <= |runs| && Evict(runs, cutoff) == runs[k..]
  {
    if runs != [] && runs[0].ts < cutoff {
      k := EvictSuffix(runs[1..], cutoff);
      k := k + 1;
    } else {
      k := 0;
    }
  }

  lemma {:induction false} KeptSuffix(h: seq<Entry>, retention: real) returns (k: nat)
    ensures k <= |h| && Kept(h, retention) == h[k..]
    decreases |h|
  {
    k := 0;
    if h != [] {
      var n := |h| - 1;
      k := KeptSuffix(h[..n], retention);
      assert h[..n][k..] + [h[n]] == h[k..];
      var j := EvictSuffix(h[k..], h[n].ts - retention);
      k := k + j;
    }
  }

  lemma {:induction false} TailSuffix(runs: seq<Entry>, cutoff: real) returns (k: nat)
    ensures k <= |runs| && Tail(runs, cutoff) == runs[k..]
    ensures forall e :: e in Tail(runs, cutoff) ==> e.ts >= cutoff
    decreases |runs|
  {
    k := |runs|;
    if runs != [] && runs[|runs| - 1].ts >= cutoff {
      k := TailSuffix(runs[..|runs| - 1], cutoff);
      assert runs[..|runs| - 1][k..] + [runs[|runs| - 1]] == runs[k..];
    }
  }

  /** In any order, the counted entries are the newest part of the history and lie within the window. */
  lemma CountedIsRecent(h: seq<Entry>, retention: real, window: real) returns (k: nat)
    ensures k <= |h| && Counted(h, retention, window) == h[k..]
    ensures forall e :: e in Counted(h, retention, window) ==> e.ts >= Latest(h) - window
  {
    if window <= 0.0 { return |h|; }
    k := KeptSuffix(h, retention);
    var j := TailSuffix(h[k..], Latest(h) - window);
    k := k + j;
  }

  ghost predicate AlwaysWithin(retention: real, window: real) {
    forall h: seq<Entry>, e :: e in Counted(h, retention, window) ==> e in Advertised(h, retention, window)
  }

  lemma LateEntryCounted(retention: real, window: real)
    requires retention >= 1.0 && window > retention
    ensures var h := [At(window), At(0.0)];
      At(0.0) in Counted(h, retention, window) && At(0.0) !in Advertised(h, retention, window)
  {
    hide Filter, Tail;
    var h := [At(window), At(0.0)];
    LateKept(retention, window);
    TailIs(h, 0.0, 0);
    FilterIn(h, window - retention);
  }

  lemma LateKept(retention: real, window: real)
    requires retention >= 1.0 && window > retention
    ensures var h := [At(window), At(0.0)]; Kept(h, retention) == h && Latest(h) == window
  {
    var h := [At(window), At(0.0)];
    var one := h[..1];
    assert one == [At(window)] && one[..0] == [] && [] + one == one;
    assert Kept(one, retention) == one;
    assert one[..|one| - 1] == [] && Latest([]) == 0.0;
    assert Latest(one) == window;
    assert one + [At(0.0)] == h;
  }

  /** In any order, the counted entries lie within the advertised filter, whatever the history, if and only if
      the window is within the retention. */
  lemma AlwaysWithinExactly(retention: real, window: real)
    requires retention >= 1.0
    ensures AlwaysWithin(retention, window) <==> window <= retention
  {
    if window <= retention {
      forall h: seq<Entry>, e | e in Counted(h, retention, window) ensures e in Advertised(h, retention, window) {
        var k := CountedIsRecent(h, retention, window);
        FilterIn(h, Latest(h) - Min(window, retention));
      }
    } else {
      LateEntryCounted(retention, window);
    }
  }
}
