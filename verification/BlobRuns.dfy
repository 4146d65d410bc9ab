/** What the blob cache does in single steps of concurrent reads, and what its counters count. */
module BlobRuns {
  import opened Wrappers
  import opened Store
  import opened BlobCache
  import opened BlobProtocol
  import Lru
  import StorageKeys

  lemma ActOf(p: Lru.Policy, s: State, t: nat, s': State)
    requires Next(p, s, s') && t < |s.threads| && t < |s'.threads|
    requires !s.threads[t].pc.Idle? && s'.threads[t].pc != s.threads[t].pc
    ensures Act(p, s, t, s')
  {
    if u: nat :| Act(p, s, u, s') {
      assert u == t;
    }
  }

  /** A body that was read into memory and is within the budget is in front of the cache when its reader
      is handed out; behind it stays what was cached, as far as the budget allows, and no less. Only a
      body above the whole budget is refused, and then nothing changes. */
  lemma KeptIsCached(p: Lru.Policy, run: seq<State>, i: nat, t: nat)
    requires IsRun(p, run) && i < |run| - 1 && t < |run[i].threads| && t < |run[i + 1].threads|
    requires run[i].threads[t].pc.Storing? && !run[i + 1].threads[t].pc.Storing?
    ensures var key, data := run[i].threads[t].key, run[i].threads[t].pc.data;
            var e := Lru.Entry(key, data, |data|);
            && run[i + 1].threads[t].pc == Done(Delivery(Reader(data, Some(|data|))))
            && (|data| > p.bytesCap ==> run[i + 1].cache == run[i].cache)
            && (|data| <= p.bytesCap ==>
                  && run[i + 1].cache != [] && run[i + 1].cache[0] == e
                  && Lru.WithinBytes(p.bytesCap, [e] + Lru.Without(run[i].cache, key), run[i + 1].cache))
  {
    assert StepAt(p, run, i);
    ActOf(p, run[i], t, run[i + 1]);
    RunInv(p, run, i);
    assert PcTruthful(p, run[i].store, run[i].threads[t]);
    KeepIsExact(p, run[i], run[i].threads[t].key, run[i].threads[t].pc.data, run[i + 1]);
  }

  lemma KeepIsExact(p: Lru.Policy, s: State, key: string, data: Body, s': State)
    requires p.Budgeted? && p.bytesCap >= 0 && |data| <= p.ceiling
    requires s'.cache == Lru.Offer(p, s.cache, Lru.Entry(key, data, |data|))
    ensures |data| > p.bytesCap ==> s'.cache == s.cache
    ensures |data| <= p.bytesCap ==>
              && s'.cache != [] && s'.cache[0] == Lru.Entry(key, data, |data|)
              && Lru.WithinBytes(p.bytesCap, [Lru.Entry(key, data, |data|)] + Lru.Without(s.cache, key), s'.cache)
  {
    var e := Lru.Entry(key, data, |data|);
    if |data| <= p.bytesCap {
      Lru.InsertRetains(p, s.cache, e);
      Lru.TrimIsWithinBytes(p.bytesCap, p.ceiling, [e] + Lru.Without(s.cache, key));
    }
  }

  /** A blob that is cached is handed out in the first step, without a read of the backend, and moves to
      the front. */
  lemma CachedIsServedAtOnce(p: Lru.Policy, run: seq<State>, i: nat, t: nat)
    requires IsRun(p, run) && i < |run| - 1 && t < |run[i].threads| && t < |run[i + 1].threads|
    requires run[i].threads[t].pc.Looking? && !run[i + 1].threads[t].pc.Looking?
    requires StorageKeys.IsBlobKey(run[i].threads[t].key) && Lru.Has(run[i].cache, run[i].threads[t].key)
    ensures var e := Lru.At(run[i].cache, run[i].threads[t].key);
            && run[i + 1].threads[t].pc == Done(Delivery(Reader(e.val, Some(|e.val|))))
            && run[i + 1].cache == [e] + Lru.Without(run[i].cache, e.key)
            && run[i + 1].tally.fetches == run[i].tally.fetches
  {
    assert StepAt(p, run, i);
    ActOf(p, run[i], t, run[i + 1]);
  }

  ghost function Leaves(s: State, s': State, k: string): nat {
    if Lru.Has(s.cache, k) && !Lru.Has(s'.cache, k) then 1 else 0
  }

  /** In how many steps up to moment `i` a key left the cache. */
  ghost function TotalLeft(run: seq<State>, i: nat, k: string): nat
    requires i < |run|
  {
    if i == 0 then 0 else TotalLeft(run, i - 1, k) + Leaves(run[i - 1], run[i], k)
  }

  /** And in how many it entered. */
  ghost function TotalEntered(run: seq<State>, i: nat, k: string): nat
    requires i < |run|
  {
    if i == 0 then 0 else TotalEntered(run, i - 1, k) + Leaves(run[i], run[i - 1], k)
  }

  lemma OfferEvicts(p: Lru.Policy, n: Tally, cache: seq<Entry>, e: Entry, k: string)
    requires Lru.Distinct(cache)
    ensures var n', cache' := Offered(p, n, cache, e), Lru.Offer(p, cache, e);
            n'.evictions[k] == n.evictions[k] + if Lru.Has(cache, k) && !Lru.Has(cache', k) then 1 else 0
  {
    if Lru.Admits(p, e) {
      InsertEvicts(p, cache, e, k);
    }
  }

  lemma InsertEvicts(p: Lru.Policy, cache: seq<Entry>, e: Entry, k: string)
    requires Lru.Distinct(cache) && Lru.Admits(p, e)
    ensures var kept := Lru.Insert(p, cache, e);
            (Lru.KeyBag([e] + Lru.Without(cache, e.key)) - Lru.KeyBag(kept))[k]
              == if Lru.Has(cache, k) && !Lru.Has(kept, k) then 1 else 0
  {
    var kept := Lru.Insert(p, cache, e);
    EvictionsCount(p, cache, e, k);
    Lru.InsertKeeps(p, cache, e);
    Lru.InsertRetains(p, cache, e);
    Lru.HasAt(kept, 0);
    Lru.KeyBagCounts(cache, k);
    Lru.KeyBagCounts(kept, k);
    if Lru.Has(kept, k) && k != e.key {
      var j: nat :| j < |kept| && kept[j].key == k;
      assert kept[j] in cache;
    }
  }

  lemma PassingEvicts(p: Lru.Policy, s: State, s': State, k: string)
    requires Lru.Distinct(s.cache) && Tick(p, s, s')
    ensures s'.tally.evictions[k] == s.tally.evictions[k] + Leaves(s, s', k)
  {
    if x :| PassesHitting(s, x, s') {
      Lru.TouchHas(s.cache, x, k);
    }
    if x, data :| PassesAdding(p, s, x, data, s') {
      OfferEvicts(p, Fetched(s.tally, x), s.cache, Lru.Entry(x, data, |data|), k);
    }
  }

  lemma ActEvicts(p: Lru.Policy, s: State, t: nat, s': State, k: string)
    requires Lru.Distinct(s.cache) && Act(p, s, t, s')
    ensures s'.tally.evictions[k] == s.tally.evictions[k] + Leaves(s, s', k)
  {
    var key := s.threads[t].key;
    if s.threads[t].pc.Storing? {
      var data := s.threads[t].pc.data;
      OfferEvicts(p, s.tally, s.cache, Lru.Entry(key, data, |data|), k);
    } else if s.threads[t].pc.Looking? && StorageKeys.IsBlobKey(key) && Lru.Has(s.cache, key) {
      Lru.TouchHas(s.cache, key, k);
    }
  }

  lemma NextEvicts(p: Lru.Policy, s: State, s': State, k: string)
    requires Lru.Distinct(s.cache) && Next(p, s, s')
    ensures s'.tally.evictions[k] == s.tally.evictions[k] + Leaves(s, s', k)
  {
    if Tick(p, s, s') {
      PassingEvicts(p, s, s', k);
    } else if t: nat :| Act(p, s, t, s') {
      ActEvicts(p, s, t, s', k);
    }
  }

  lemma StepEvicts(p: Lru.Policy, run: seq<State>, i: nat, k: string)
    requires IsRun(p, run) && 0 < i < |run|
    ensures run[i].tally.evictions[k] == run[i - 1].tally.evictions[k] + Leaves(run[i - 1], run[i], k)
  {
    RunInv(p, run, i - 1);
    assert StepAt(p, run, i - 1);
    NextEvicts(p, run[i - 1], run[i], k);
  }

  lemma {:induction false} EvictionsCountLeaving(p: Lru.Policy, run: seq<State>, i: nat, k: string)
    requires IsRun(p, run) && i < |run|
    ensures run[i].tally.evictions[k] == TotalLeft(run, i, k)
  {
    if i > 0 {
      EvictionsCountLeaving(p, run, i - 1, k);
      StepEvicts(p, run, i, k);
    }
  }

  lemma {:induction false} EnteredAndLeft(run: seq<State>, i: nat, k: string)
    requires i < |run| && !Lru.Has(run[0].cache, k)
    ensures TotalEntered(run, i, k) == TotalLeft(run, i, k) + if Lru.Has(run[i].cache, k) then 1 else 0
  {
    if i > 0 {
      EnteredAndLeft(run, i - 1, k);
    }
  }

  /** The counters are what they are called: `adds` and `evictions` count the steps in which a key entered
      and left the cache. */
  lemma CountersCountSteps(p: Lru.Policy, run: seq<State>, i: nat, k: string)
    requires IsRun(p, run) && i < |run|
    ensures run[i].tally.evictions[k] == TotalLeft(run, i, k) && run[i].tally.adds[k] == TotalEntered(run, i, k)
  {
    EvictionsCountLeaving(p, run, i, k);
    EnteredAndLeft(run, i, k);
    ExactAccounting(p, run, i, k);
  }
}
