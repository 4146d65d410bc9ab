/** Whole-trace theorems: a larger cache always holds what a smaller one holds, so that raising a
    budget never costs a backend read; and the exact condition under which the blob cache obeys. */
module LruInclusion {
  import opened Lru

  /** `q` is `p` with its budgets raised or lifted. For the blob cache the per-blob ceiling must lie
      within both budgets. */
  predicate Looser(p: Policy, q: Policy) {
    match (p, q)
    case (Counted(cap, bytes), Counted(cap', bytes')) => cap <= cap' && (bytes' <= 0 || 0 < bytes <= bytes')
    case (Budgeted(bytes, ceiling), Budgeted(bytes', ceiling')) => ceiling == ceiling' && ceiling <= bytes <= bytes'
    case _ => false
  }

  lemma TrimIsMonotone<K, V>(p: Policy, q: Policy, a: seq<Entry<K, V>>, b: seq<Entry<K, V>>)
    requires Looser(p, q) && a <= b
    ensures Trim(p, a) <= Trim(q, b)
  {
    TrimIsLongest(p, a);
    var r := Trim(p, a);
    if r != [] {
      TrimKeepsFitting(q, b, r);
    }
  }

  lemma TouchIsMonotone<K, V>(a: seq<Entry<K, V>>, b: seq<Entry<K, V>>, k: K)
    requires a <= b && Has(a, k)
    ensures Has(b, k) && Touch(a, k) <= Touch(b, k)
  {
    IndexInPrefix(a, b, k);
    CutPrefix(a, b, IndexOf(a, k));
  }

  // ----- Demand traces -----

  /** The backing store gains a key, or a request for a key arrives. */
  datatype Event<+K> = Publish(key: K) | Request(key: K)

  datatype Sim<K(==), V> = Sim(list: seq<Entry<K, V>>, published: set<K>, fetches: nat)

  /** The immutable object behind each key, with its size. */
  type Backing<!K, V> = K -> (V, nat)

  function EntryFor<K, V>(load: Backing<K, V>, k: K): Entry<K, V> {
    Entry(k, load(k).0, load(k).1)
  }

  ghost function Serve<K, V>(p: Policy, load: Backing<K, V>, sim: Sim<K, V>, ev: Event<K>): Sim<K, V> {
    match ev
    case Publish(k) => sim.(published := sim.published + {k})
    case Request(k) =>
      if Has(sim.list, k) then sim.(list := Touch(sim.list, k))
      else if k in sim.published then
        sim.(list := Offer(p, sim.list, EntryFor(load, k)), fetches := sim.fetches + 1)
      else sim.(fetches := sim.fetches + 1)
  }

  ghost function Run<K, V>(p: Policy, load: Backing<K, V>, events: seq<Event<K>>): Sim<K, V> {
    if events == [] then Sim([], {}, 0)
    else Serve(p, load, Run(p, load, events[..|events| - 1]), events[|events| - 1])
  }

  /** Everything held is published, genuine and admissible; keys are distinct; the budget holds. */
  ghost predicate Sound<K, V>(p: Policy, load: Backing<K, V>, sim: Sim<K, V>) {
    && Distinct(sim.list)
    && (sim.list == [] || Fits(p, sim.list))
    && forall i :: 0 <= i < |sim.list| ==>
         sim.list[i].key in sim.published && sim.list[i] == EntryFor(load, sim.list[i].key) && Admits(p, sim.list[i])
  }

  lemma ServeIsSound<K, V>(p: Policy, load: Backing<K, V>, sim: Sim<K, V>, ev: Event<K>)
    requires Sound(p, load, sim)
    ensures Sound(p, load, Serve(p, load, sim, ev))
  {
    if ev.Request? {
      if Has(sim.list, ev.key) {
        TouchKeeps(p, sim.list, ev.key);
      } else if ev.key in sim.published && Admits(p, EntryFor(load, ev.key)) {
        InsertKeeps(p, sim.list, EntryFor(load, ev.key));
      }
    }
  }

  lemma {:induction false} RunIsSound<K, V>(p: Policy, load: Backing<K, V>, events: seq<Event<K>>)
    ensures Sound(p, load, Run(p, load, events))
  {
    if events != [] {
      RunIsSound(p, load, events[..|events| - 1]);
      ServeIsSound(p, load, Run(p, load, events[..|events| - 1]), events[|events| - 1]);
    }
  }

  ghost predicate Included<K, V>(small: Sim<K, V>, large: Sim<K, V>) {
    small.list <= large.list && small.published == large.published && large.fetches <= small.fetches
  }

  lemma ServeKeepsInclusion<K, V>(p: Policy, q: Policy, load: Backing<K, V>, small: Sim<K, V>, large: Sim<K, V>,
                                  ev: Event<K>)
    requires Looser(p, q) && Included(small, large) && Sound(p, load, small) && Sound(q, load, large)
    ensures Included(Serve(p, load, small, ev), Serve(q, load, large, ev))
  {
    if ev.Request? {
      var k, a, b := ev.key, small.list, large.list;
      var e := EntryFor(load, k);
      if Has(a, k) {
        TouchIsMonotone(a, b, k);
      } else {
        WithoutKeepsPrefix(a, b, k);
        assert Without(a, k) == a;
        if Has(b, k) {
          assert At(b, k) == e;
          TrimIsLongest(p, [e] + a);
        } else if k in small.published && Admits(p, e) {
          TrimIsMonotone(p, q, [e] + a, [e] + b);
        }
      }
    }
  }

  /** The LRU inclusion property: on every trace, what a cache holds is a prefix of what a looser one
      holds, and the looser one never read the backend more often. For the manifest cache this
      needs no condition on sizes: even a manifest larger than every budget is covered, by the
      one-entry floor. */
  lemma {:induction false} Inclusion<K, V>(p: Policy, q: Policy, load: Backing<K, V>, events: seq<Event<K>>)
    requires Looser(p, q)
    ensures Run(p, load, events).list <= Run(q, load, events).list
    ensures Run(q, load, events).fetches <= Run(p, load, events).fetches
    ensures Included(Run(p, load, events), Run(q, load, events))
  {
    if events != [] {
      var before := events[..|events| - 1];
      Inclusion(p, q, load, before);
      RunIsSound(p, load, before);
      RunIsSound(q, load, before);
      ServeKeepsInclusion(p, q, load, Run(p, load, before), Run(q, load, before), events[|events| - 1]);
    }
  }

  // ----- When the blob cache is monotone -----

  /** Key 0 is a blob of exactly the smaller budget; every other is one byte above it. */
  function Sizes(budget: nat): Backing<int, ()> {
    k => ((), if k == 0 then budget else budget + 1)
  }

  /** Publish and request blob 0, then blobs 1 to n. */
  function Flood(n: nat): seq<Event<int>> {
    if n == 0 then [Publish(0), Request(0)] else Flood(n - 1) + [Publish(n), Request(n)]
  }

  /** Blobs n down to 0: the most a cache can hold after the flood. */
  ghost function Pile(budget: nat, n: nat): seq<Entry<int, ()>> {
    if n == 0 then [EntryFor(Sizes(budget), 0)] else [EntryFor(Sizes(budget), n)] + Pile(budget, n - 1)
  }

  lemma {:induction false} PileShape(budget: nat, n: nat)
    ensures |Pile(budget, n)| == n + 1
    ensures forall i :: 0 <= i <= n ==> Pile(budget, n)[i].key == n - i
  {
    if n > 0 {
      PileShape(budget, n - 1);
    }
  }

  lemma {:induction false} PileIsHeavy(budget: nat, n: nat)
    ensures Bytes(Pile(budget, n)) >= n + budget
  {
    if n == 0 {
      assert Pile(budget, 0)[..0] == [];
    } else {
      PileIsHeavy(budget, n - 1);
      BytesFront(EntryFor(Sizes(budget), n), Pile(budget, n - 1));
    }
  }

  lemma RunTwoMore<K, V>(p: Policy, load: Backing<K, V>, events: seq<Event<K>>, a: Event<K>, b: Event<K>)
    ensures Run(p, load, events + [a, b]) == Serve(p, load, Serve(p, load, Run(p, load, events), a), b)
  {
    var all := events + [a, b];
    var one := events + [a];
    assert all[..|all| - 1] == one;
    assert one[..|one| - 1] == events;
  }

  lemma FloodStep(p: Policy, load: Backing<int, ()>, n: nat)
    requires n > 0
    ensures Run(p, load, Flood(n)) == Serve(p, load, Serve(p, load, Run(p, load, Flood(n - 1)), Publish(n)), Request(n))
  {
    RunTwoMore(p, load, Flood(n - 1), Publish(n), Request(n));
  }

  lemma StartsWithBlobZero(p: Policy, budget: nat)
    requires Admits(p, EntryFor(Sizes(budget), 0))
    ensures Run(p, Sizes(budget), Flood(0)).list == [EntryFor(Sizes(budget), 0)]
    ensures Run(p, Sizes(budget), Flood(0)).fetches == 1
  {
    var e := EntryFor(Sizes(budget), 0);
    assert Flood(0) == [] + [Publish(0), Request(0)];
    RunTwoMore(p, Sizes(budget), [], Publish(0), Request(0));
    InsertRetains(p, [], e);
    TrimIsLongest(p, [e]);
    assert [e] + [] == [e];
  }

  /** The smaller cache refuses the flood and keeps blob 0. */
  lemma {:induction false} SmallHolds(small: nat, ceiling: nat, n: nat)
    requires small <= ceiling
    ensures var sim := Run(Budgeted(small, ceiling), Sizes(small), Flood(n));
            sim.list == [EntryFor(Sizes(small), 0)] && sim.fetches == n + 1
  {
    var p, load := Budgeted(small, ceiling), Sizes(small);
    if n == 0 {
      StartsWithBlobZero(p, small);
    } else {
      SmallHolds(small, ceiling, n - 1);
      FloodStep(p, load, n);
    }
  }

  lemma LargeShiftsOne(small: nat, p: Policy, sim: Sim<int, ()>, n: nat)
    requires n > 0 && sim.list <= Pile(small, n - 1) && Admits(p, EntryFor(Sizes(small), n))
    ensures var next := Serve(p, Sizes(small), Serve(p, Sizes(small), sim, Publish(n)), Request(n));
            next.list <= Pile(small, n) && next.fetches == sim.fetches + 1
  {
    PileShape(small, n - 1);
    assert !Has(sim.list, n);
    TrimIsLongest(p, [EntryFor(Sizes(small), n)] + sim.list);
  }

  /** The larger cache admits the flood, which pushes blob 0 towards the back. */
  lemma {:induction false} LargeShifts(small: nat, large: nat, ceiling: nat, n: nat)
    requires small < ceiling && small < large
    ensures var sim := Run(Budgeted(large, ceiling), Sizes(small), Flood(n));
            sim.list <= Pile(small, n) && sim.fetches == n + 1
  {
    var p, load := Budgeted(large, ceiling), Sizes(small);
    if n == 0 {
      StartsWithBlobZero(p, small);
    } else {
      LargeShifts(small, large, ceiling, n - 1);
      FloodStep(p, load, n);
      LargeShiftsOne(small, p, Run(p, load, Flood(n - 1)), n);
    }
  }

  /** A larger budget that costs a read: after enough oversized blobs, blob 0 is gone from the
      larger cache and still in the smaller one. */
  lemma FloodCostsARead(small: nat, large: nat, ceiling: nat)
    requires 0 < small < ceiling && small < large
    ensures var events := Flood(large) + [Request(0)];
            Run(Budgeted(small, ceiling), Sizes(small), events).fetches
              < Run(Budgeted(large, ceiling), Sizes(small), events).fetches
  {
    var events := Flood(large) + [Request(0)];
    assert events[..|events| - 1] == Flood(large);
    var p, q, load := Budgeted(small, ceiling), Budgeted(large, ceiling), Sizes(small);
    SmallHolds(small, ceiling, large);
    LargeShifts(small, large, ceiling, large);
    assert Run(p, load, Flood(large)).list[0].key == 0;
    RunIsSound(q, load, Flood(large));
    PartOfThePile(small, large, Run(q, load, Flood(large)).list);
  }

  /** A list within a budget of n bytes cannot reach the bottom of a pile of n + 1 blobs. */
  lemma PartOfThePile(budget: nat, n: nat, list: seq<Entry<int, ()>>)
    requires 0 < budget && list <= Pile(budget, n) && Bytes(list) <= n
    ensures !Has(list, 0)
  {
    PileShape(budget, n);
    PileIsHeavy(budget, n);
    assert list != Pile(budget, n);
    assert forall i :: 0 <= i < |list| ==> list[i].key == n - i;
  }

  /** Raising the blob budget never adds a backend read, on any trace over any blobs, exactly when
      the per-blob ceiling is within the smaller budget (or the budget is not raised at all). */
  lemma BlobBudgetIsMonotoneIff(small: nat, large: nat, ceiling: nat)
    requires 0 < small <= large && 0 < ceiling
    ensures (forall load: Backing<int, ()>, events: seq<Event<int>> ::
               Run(Budgeted(large, ceiling), load, events).fetches
                 <= Run(Budgeted(small, ceiling), load, events).fetches)
       <==> ceiling <= small || small == large
  {
    if ceiling <= small {
      forall load: Backing<int, ()>, events: seq<Event<int>>
        ensures Run(Budgeted(large, ceiling), load, events).fetches
             <= Run(Budgeted(small, ceiling), load, events).fetches
      {
        Inclusion(Budgeted(small, ceiling), Budgeted(large, ceiling), load, events);
      }
    } else if small < large {
      FloodCostsARead(small, large, ceiling);
    }
  }
}
