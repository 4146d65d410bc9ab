/** Per-site request and egress counters with idle eviction (internal/metrics/metrics.go). Each
    operation is one step; times come from the caller. */
module Metrics {
  import opened Wrappers

  datatype SiteKey = SiteKey(project: string, name: string)

  /** The two counter vectors and the last time each site was active. */
  datatype Series = Series(requests: map<SiteKey, nat>, bytes: map<SiteKey, nat>, lastSeen: map<SiteKey, int>)

  const NO_SERIES := Series(map[], map[], map[])

  /** The value of a counter; reading a series that does not exist gives 0. */
  function Count(counters: map<SiteKey, nat>, k: SiteKey): nat {
    if k in counters then counters[k] else 0
  }

  function Touch(s: Series, k: SiteKey, at: int): Series {
    s.(lastSeen := s.lastSeen[k := at])
  }

  function Observe(s: Series, k: SiteKey, at: int): Series {
    Touch(s.(requests := s.requests[k := Count(s.requests, k) + 1]), k, at)
  }

  function AddBytes(s: Series, k: SiteKey, n: int, at: int): Series {
    if n <= 0 then s else Touch(s.(bytes := s.bytes[k := Count(s.bytes, k) + n]), k, at)
  }

  predicate Idle(s: Series, k: SiteKey, cutoff: int) {
    k in s.lastSeen && s.lastSeen[k] < cutoff
  }

  function Drop(s: Series, k: SiteKey): Series {
    Series(s.requests - {k}, s.bytes - {k}, s.lastSeen - {k})
  }

  /** Everything about the idle sites goes; everything else stays. */
  function Sweep(s: Series, at: int, ttl: int): Series {
    var idle := IdleSites(s, at - ttl);
    Series(s.requests - idle, s.bytes - idle, s.lastSeen - idle)
  }

  function IdleSites(s: Series, cutoff: int): (idle: set<SiteKey>)
    ensures forall k :: k in idle <==> Idle(s, k, cutoff)
  {
    set k | k in s.lastSeen && Idle(s, k, cutoff)
  }

  class Metrics {
    var requests: map<SiteKey, nat>
    var bytes: map<SiteKey, nat>
    var lastSeen: map<SiteKey, int>

    ghost function Value(): Series
      reads this
    {
      Series(requests, bytes, lastSeen)
    }

    constructor ()
      ensures Value() == NO_SERIES
    {
      requests, bytes, lastSeen := map[], map[], map[];
    }

    method TouchSite(k: SiteKey, now: int)
      modifies this`lastSeen
      ensures Value() == Touch(old(Value()), k, now)
    {
      lastSeen := lastSeen[k := now];
    }

    method ObserveRequest(k: SiteKey, now: int)
      modifies this
      ensures Value() == Observe(old(Value()), k, now)
    {
      requests := requests[k := Count(requests, k) + 1];
      TouchSite(k, now);
    }

    method AddResponseBytes(k: SiteKey, n: int, now: int)
      modifies this
      ensures Value() == AddBytes(old(Value()), k, n, now)
    {
      if n <= 0 {
        return;
      }
      bytes := bytes[k := Count(bytes, k) + n];
      TouchSite(k, now);
    }

    /** Visits the tracked sites in any order, dropping the idle ones as it goes. */
    method EvictIdle(ttl: int, now: int)
      modifies this
      ensures Value() == Sweep(old(Value()), now, ttl)
    {
      var cutoff := now - ttl;
      var rest := lastSeen.Keys;
      while rest != {}
        invariant rest <= lastSeen.Keys
        invariant forall k :: k in rest ==> k in old(lastSeen) && lastSeen[k] == old(lastSeen)[k]
        invariant Sweep(Value(), now, ttl) == Sweep(old(Value()), now, ttl)
        invariant forall k :: k in lastSeen && k !in rest ==> lastSeen[k] >= cutoff
        decreases |rest|
      {
        var k :| k in rest;
        rest := rest - {k};
        if lastSeen[k] < cutoff {
          DropIdleFirst(Value(), k, now, ttl);
          requests := requests - {k};
          bytes := bytes - {k};
          lastSeen := lastSeen - {k};
        }
      }
      SweepOfActive(Value(), now, ttl);
    }
  }

  /** Dropping one idle site first changes nothing about the sweep. */
  lemma DropIdleFirst(s: Series, k: SiteKey, at: int, ttl: int)
    requires Idle(s, k, at - ttl)
    ensures Sweep(Drop(s, k), at, ttl) == Sweep(s, at, ttl)
  {
    assert IdleSites(s, at - ttl) == IdleSites(Drop(s, k), at - ttl) + {k};
  }

  lemma SweepOfActive(s: Series, at: int, ttl: int)
    requires forall k :: k in s.lastSeen ==> s.lastSeen[k] >= at - ttl
    ensures Sweep(s, at, ttl) == s
  {
    assert IdleSites(s, at - ttl) == {};
  }

  // ----- Runs -----

  datatype Op =
    | Request(key: SiteKey, at: int)
    | Body(key: SiteKey, n: int, at: int)
    | Evict(ttl: int, at: int)

  function Apply(s: Series, op: Op): Series {
    match op
    case Request(k, at) => Observe(s, k, at)
    case Body(k, n, at) => AddBytes(s, k, n, at)
    case Evict(ttl, at) => Sweep(s, at, ttl)
  }

  function Run(ops: seq<Op>): Series {
    if ops == [] then NO_SERIES else Apply(Run(ops[..|ops| - 1]), ops[|ops| - 1])
  }

  /** The clock never runs backwards. */
  ghost predicate Monotone(ops: seq<Op>) {
    forall i, j :: 0 <= i < j < |ops| ==> ops[i].at <= ops[j].at
  }

  /** The bytes an operation adds for a site. */
  function BytesOf(op: Op, k: SiteKey): nat {
    if op.Body? && op.key == k && op.n > 0 then op.n else 0
  }

  /** All bytes ever added for a site. */
  function Added(ops: seq<Op>, k: SiteKey): nat {
    if ops == [] then 0 else Added(ops[..|ops| - 1], k) + BytesOf(ops[|ops| - 1], k)
  }

  /** Those added at or after an instant. */
  function AddedSince(ops: seq<Op>, k: SiteKey, since: int): nat {
    if ops == [] then 0
    else
      var op := ops[|ops| - 1];
      AddedSince(ops[..|ops| - 1], k, since) + if op.at >= since then BytesOf(op, k) else 0
  }

  /** Bytes that were on a site's counter when a sweep dropped it. */
  function Dropped(ops: seq<Op>, k: SiteKey): nat {
    if ops == [] then 0
    else
      var before, op := Run(ops[..|ops| - 1]), ops[|ops| - 1];
      Dropped(ops[..|ops| - 1], k)
        + if op.Evict? && Idle(before, k, op.at - op.ttl) then Count(before.bytes, k) else 0
  }

  lemma Snoc(ops: seq<Op>, op: Op, k: SiteKey)
    ensures Added(ops + [op], k) == Added(ops, k) + BytesOf(op, k)
    ensures Requested(ops + [op], k) == Requested(ops, k) + if op.Request? && op.key == k then 1 else 0
  {
    assert (ops + [op])[..|ops|] == ops;
  }

  /** What a request to a site does to the counters in one step: counted if it `begins`, and its bytes
      if it ends with so many. */
  function OpsOf(k: SiteKey, begins: bool, bytes: Option<nat>, at: int): seq<Op> {
    Ending(k, bytes, at, if begins then [Request(k, at)] else [])
  }

  function Ending(k: SiteKey, bytes: Option<nat>, at: int, ops: seq<Op>): seq<Op> {
    if bytes.Some? then ops + [Body(k, bytes.value, at)] else ops
  }

  lemma EndingCounts(x: SiteKey, bytes: Option<nat>, at: int, ops: seq<Op>, k: SiteKey)
    ensures Added(Ending(x, bytes, at, ops), k) == Added(ops, k) + if x == k && bytes.Some? then bytes.value else 0
    ensures Requested(Ending(x, bytes, at, ops), k) == Requested(ops, k)
  {
    if bytes.Some? {
      Snoc(ops, Body(x, bytes.value, at), k);
    }
  }

  lemma OneRequest(x: SiteKey, at: int, k: SiteKey)
    ensures Added([Request(x, at)], k) == 0 && Requested([Request(x, at)], k) == if x == k then 1 else 0
  {
    Snoc([], Request(x, at), k);
    assert [] + [Request(x, at)] == [Request(x, at)];
  }

  lemma OpsOfCount(x: SiteKey, begins: bool, bytes: Option<nat>, at: int, k: SiteKey)
    ensures Added(OpsOf(x, begins, bytes, at), k) == if x == k && bytes.Some? then bytes.value else 0
    ensures Requested(OpsOf(x, begins, bytes, at), k) == if x == k && begins then 1 else 0
  {
    OneRequest(x, at, k);
    EndingCounts(x, bytes, at, if begins then [Request(x, at)] else [], k);
  }

  lemma {:induction false} AddedAppend(a: seq<Op>, b: seq<Op>, k: SiteKey)
    ensures Added(a + b, k) == Added(a, k) + Added(b, k)
    decreases |b|
  {
    if b == [] {
      assert a + b == a;
    } else {
      assert (a + b)[..|a + b| - 1] == a + b[..|b| - 1];
      AddedAppend(a, b[..|b| - 1], k);
    }
  }

  lemma {:induction false} RequestedAppend(a: seq<Op>, b: seq<Op>, k: SiteKey)
    ensures Requested(a + b, k) == Requested(a, k) + Requested(b, k)
    decreases |b|
  {
    if b == [] {
      assert a + b == a;
    } else {
      assert (a + b)[..|a + b| - 1] == a + b[..|b| - 1];
      RequestedAppend(a, b[..|b| - 1], k);
    }
  }

  /** A series exists exactly for the sites that are tracked. */
  lemma {:induction false} SeriesAreTracked(ops: seq<Op>)
    ensures Run(ops).lastSeen.Keys == Run(ops).requests.Keys + Run(ops).bytes.Keys
  {
    if ops != [] {
      SeriesAreTracked(ops[..|ops| - 1]);
    }
  }

  /** Every byte ever added for a site is on its counter now or was dropped by a sweep. */
  lemma {:induction false} BytesAreConserved(ops: seq<Op>, k: SiteKey)
    ensures Added(ops, k) == Count(Run(ops).bytes, k) + Dropped(ops, k)
  {
    if ops != [] {
      BytesAreConserved(ops[..|ops| - 1], k);
      SeriesAreTracked(ops[..|ops| - 1]);
    }
  }

  /** No operation is later than the run, and none on a tracked site later than its last activity. */
  lemma {:induction false} ActivityIsRecorded(ops: seq<Op>, k: SiteKey, i: nat)
    requires Monotone(ops) && i < |ops| && BytesOf(ops[i], k) > 0
    requires k in Run(ops).lastSeen
    ensures ops[i].at <= Run(ops).lastSeen[k]
  {
    var n := |ops| - 1;
    var before, op := ops[..n], ops[n];
    if k in Run(before).lastSeen && i < n {
      assert before[i] == ops[i];
      ActivityIsRecorded(before, k, i);
    }
  }

  lemma {:induction false} NoneSince(ops: seq<Op>, k: SiteKey, since: int, last: int)
    requires last < since
    requires forall i :: 0 <= i < |ops| && BytesOf(ops[i], k) > 0 ==> ops[i].at <= last
    ensures AddedSince(ops, k, since) == 0
  {
    if ops != [] {
      NoneSince(ops[..|ops| - 1], k, since, last);
    }
  }

  /** Requests ever made to a site. */
  function Requested(ops: seq<Op>, k: SiteKey): nat {
    if ops == [] then 0
    else
      var op := ops[|ops| - 1];
      Requested(ops[..|ops| - 1], k) + if op.Request? && op.key == k then 1 else 0
  }

  /** Requests that were on a site's counter when a sweep dropped it. */
  function RequestsDropped(ops: seq<Op>, k: SiteKey): nat {
    if ops == [] then 0
    else
      var before, op := Run(ops[..|ops| - 1]), ops[|ops| - 1];
      RequestsDropped(ops[..|ops| - 1], k)
        + if op.Evict? && Idle(before, k, op.at - op.ttl) then Count(before.requests, k) else 0
  }

  /** Every request to a site is on its counter now or was dropped by a sweep. */
  lemma {:induction false} RequestsAreConserved(ops: seq<Op>, k: SiteKey)
    ensures Requested(ops, k) == Count(Run(ops).requests, k) + RequestsDropped(ops, k)
  {
    if ops != [] {
      RequestsAreConserved(ops[..|ops| - 1], k);
      SeriesAreTracked(ops[..|ops| - 1]);
    }
  }

  /** The time a tracked site was last active is the latest of its bytes. */
  lemma LastSeenIsLatest(ops: seq<Op>, k: SiteKey, since: int)
    requires Monotone(ops) && k in Run(ops).lastSeen && Run(ops).lastSeen[k] < since
    ensures AddedSince(ops, k, since) == 0
  {
    forall i | 0 <= i < |ops| && BytesOf(ops[i], k) > 0
      ensures ops[i].at <= Run(ops).lastSeen[k]
    {
      ActivityIsRecorded(ops, k, i);
    }
    NoneSince(ops, k, since, Run(ops).lastSeen[k]);
  }

  /** Nothing added within the last `ttl` is ever dropped: when every sweep so far looked back no
      further than `since`, all bytes added since then are on the counter. */
  lemma {:induction false} RecentBytesSurvive(ops: seq<Op>, k: SiteKey, since: int)
    requires Monotone(ops)
    requires forall i :: 0 <= i < |ops| && ops[i].Evict? ==> ops[i].at - ops[i].ttl <= since
    ensures AddedSince(ops, k, since) <= Count(Run(ops).bytes, k)
  {
    if ops != [] {
      var before, op := ops[..|ops| - 1], ops[|ops| - 1];
      RecentBytesSurvive(before, k, since);
      if op.Evict? && Idle(Run(before), k, op.at - op.ttl) {
        LastSeenIsLatest(before, k, since);
      }
    }
  }

  /** The billing window: with a time to live of at least `window`, whenever the counters are read no
      later than `now`, they hold all bytes of the last `window`. */
  lemma BillingWindowIsComplete(ops: seq<Op>, k: SiteKey, window: nat, now: int)
    requires Monotone(ops) && forall i :: 0 <= i < |ops| ==> ops[i].at <= now
    requires forall i :: 0 <= i < |ops| && ops[i].Evict? ==> ops[i].ttl >= window
    ensures AddedSince(ops, k, now - window) <= Count(Run(ops).bytes, k)
  {
    RecentBytesSurvive(ops, k, now - window);
  }

  // ----- What sweeps drop -----

  /** The operation marks the site active. */
  predicate Touches(op: Op, k: SiteKey) {
    (op.Request? && op.key == k) || BytesOf(op, k) > 0
  }

  /** The time a tracked site was last active is that of its last operation. */
  lemma {:induction false} LastActivity(ops: seq<Op>, k: SiteKey) returns (i: nat)
    requires k in Run(ops).lastSeen
    ensures i < |ops| && Touches(ops[i], k) && Run(ops).lastSeen[k] == ops[i].at
    ensures forall j :: i < j < |ops| ==> !Touches(ops[j], k)
  {
    var n := |ops| - 1;
    if Touches(ops[n], k) {
      i := n;
    } else {
      i := LastActivity(ops[..n], k);
      assert ops[..n][i] == ops[i];
      assert forall j :: i < j < n ==> ops[..n][j] == ops[j];
    }
  }

  lemma RunAppends(ops: seq<Op>, op: Op)
    ensures Run(ops + [op]) == Apply(Run(ops), op)
  {
    assert (ops + [op])[..|ops|] == ops;
  }

  /** A site without any activity in the last `ttl` has no series after a sweep. */
  lemma IdleIsDropped(ops: seq<Op>, k: SiteKey, ttl: int, at: int)
    requires forall i :: 0 <= i < |ops| && Touches(ops[i], k) ==> ops[i].at < at - ttl
    ensures var after := Run(ops + [Evict(ttl, at)]);
            k !in after.lastSeen && k !in after.requests && k !in after.bytes
  {
    RunAppends(ops, Evict(ttl, at));
    SeriesAreTracked(ops + [Evict(ttl, at)]);
    if k in Run(ops).lastSeen {
      var i := LastActivity(ops, k);
    }
  }

  /** A site that was active at some time is tracked, as last active then or later, as long as no sweep
      looked back less far. */
  lemma {:induction false} ActiveIsKept(ops: seq<Op>, k: SiteKey, i: nat)
    requires Monotone(ops) && i < |ops| && Touches(ops[i], k)
    requires forall j :: i < j < |ops| && ops[j].Evict? ==> ops[j].at - ops[j].ttl <= ops[i].at
    ensures k in Run(ops).lastSeen && Run(ops).lastSeen[k] >= ops[i].at
  {
    var n := |ops| - 1;
    if i < n {
      var before := ops[..n];
      assert before[i] == ops[i] && ops[i].at <= ops[n].at;
      forall j | i < j < |before| && before[j].Evict?
        ensures before[j].at - before[j].ttl <= before[i].at
      {
        assert before[j] == ops[j];
      }
      ActiveIsKept(before, k, i);
    }
  }

  /** A sweep that looks back as far as any before it keeps exactly the sites active in the last `ttl`. */
  lemma SweepKeepsExactlyActive(ops: seq<Op>, k: SiteKey, ttl: int, at: int)
    requires Monotone(ops + [Evict(ttl, at)])
    requires forall j :: 0 <= j < |ops| && ops[j].Evict? ==> ops[j].at - ops[j].ttl <= at - ttl
    ensures k in Run(ops + [Evict(ttl, at)]).lastSeen
       <==> exists i :: 0 <= i < |ops| && Touches(ops[i], k) && ops[i].at >= at - ttl
  {
    var all := ops + [Evict(ttl, at)];
    if i: nat :| i < |ops| && Touches(ops[i], k) && ops[i].at >= at - ttl {
      assert all[i] == ops[i];
      ActiveIsKept(all, k, i);
    } else {
      IdleIsDropped(ops, k, ttl, at);
    }
  }

  /** Requests made at or after an instant. */
  function RequestedSince(ops: seq<Op>, k: SiteKey, since: int): nat {
    if ops == [] then 0
    else
      var op := ops[|ops| - 1];
      RequestedSince(ops[..|ops| - 1], k, since) + if op.at >= since && op.Request? && op.key == k then 1 else 0
  }

  lemma {:induction false} NoneRequestedSince(ops: seq<Op>, k: SiteKey, since: int)
    requires forall i :: 0 <= i < |ops| && Touches(ops[i], k) ==> ops[i].at < since
    ensures RequestedSince(ops, k, since) == 0
  {
    if ops != [] {
      var before := ops[..|ops| - 1];
      assert forall i :: 0 <= i < |before| ==> before[i] == ops[i];
      assert Touches(ops[|ops| - 1], k) ==> ops[|ops| - 1].at < since;
      NoneRequestedSince(before, k, since);
    }
  }

  lemma {:induction false} IdleSince(ops: seq<Op>, k: SiteKey, since: int)
    requires Monotone(ops) && k in Run(ops).lastSeen && Run(ops).lastSeen[k] < since
    ensures forall i :: 0 <= i < |ops| && Touches(ops[i], k) ==> ops[i].at < since
  {
    var last := LastActivity(ops, k);
    forall i | 0 <= i < |ops| && Touches(ops[i], k)
      ensures ops[i].at < since
    {
      assert i <= last;
      assert i < last ==> ops[i].at <= ops[last].at;
    }
  }

  /** Requests of the last `ttl` are never dropped either. */
  lemma {:induction false} RecentRequestsSurvive(ops: seq<Op>, k: SiteKey, since: int)
    requires Monotone(ops)
    requires forall i :: 0 <= i < |ops| && ops[i].Evict? ==> ops[i].at - ops[i].ttl <= since
    ensures RequestedSince(ops, k, since) <= Count(Run(ops).requests, k)
  {
    if ops != [] {
      var before, op := ops[..|ops| - 1], ops[|ops| - 1];
      RecentRequestsSurvive(before, k, since);
      if op.Evict? && Idle(Run(before), k, op.at - op.ttl) {
        IdleSince(before, k, since);
        NoneRequestedSince(before, k, since);
      }
    }
  }
}
