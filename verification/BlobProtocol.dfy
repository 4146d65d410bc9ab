/** Concurrent `CachingStore.Get` (internal/blobstore/cache.go): there is no single-flight here, so
    several misses may fetch and add the same blob. Each critical section of the cache is one step. */
module BlobProtocol {
  import opened Wrappers
  import opened Store
  import opened BlobCache
  import Lru
  import StorageKeys

  datatype Outcome = Delivery(reader: Reader) | Missing(at: nat) | Failed(error: ReadError)

  datatype Pc =
    | Idle                       // not called yet
    | Looking                    // about to look in the cache
    | Fetching(caching: bool)    // about to read the backend
    | Filling(obj: Object)       // about to read the body into memory
    | Storing(data: Body)        // about to add it to the cache
    | Done(o: Outcome)

  datatype Thread = Thread(key: string, pc: Pc)

  /** Backend reads, and how each ended: handed on as a stream, lost (nothing there, or a failure), or
      read into memory and then added, found to be cached meanwhile, or refused by the cache. And the
      entries the cache gave up. */
  datatype Tally = Tally(fetches: multiset<string>, streams: multiset<string>, losses: multiset<string>,
                         adds: multiset<string>, refreshes: multiset<string>, refusals: multiset<string>,
                         evictions: multiset<string>)

  const NO_TALLY := Tally(multiset{}, multiset{}, multiset{}, multiset{}, multiset{}, multiset{}, multiset{})

  datatype State = State(clock: nat, store: Store, cache: seq<Entry>, threads: seq<Thread>, tally: Tally)

  ghost predicate Init(s: State) {
    && s.clock == 0 && s.cache == [] && s.tally == NO_TALLY
    && forall t :: 0 <= t < |s.threads| ==> s.threads[t].pc.Idle?
  }

  /** A body read into memory is offered to the cache. */
  ghost function Offered(p: Lru.Policy, n: Tally, cache: seq<Entry>, e: Entry): Tally {
    if !Lru.Admits(p, e) then n.(refusals := n.refusals + multiset{e.key})
    else
      var evicted := Lru.KeyBag([e] + Lru.Without(cache, e.key)) - Lru.KeyBag(Lru.Insert(p, cache, e));
      if Lru.Has(cache, e.key) then
        n.(refreshes := n.refreshes + multiset{e.key}, evictions := n.evictions + evicted)
      else n.(adds := n.adds + multiset{e.key}, evictions := n.evictions + evicted)
  }

  ghost function Fetched(n: Tally, key: string): Tally {
    n.(fetches := n.fetches + multiset{key})
  }

  ghost function Lost(n: Tally, key: string): Tally {
    n.(losses := n.losses + multiset{key})
  }

  ghost function Streamed(n: Tally, key: string): Tally {
    n.(streams := n.streams + multiset{key})
  }

  // ----- Steps -----

  /** A request calls `Get`. */
  ghost predicate Begin(s: State, t: nat, key: string, s': State) {
    && t < |s.threads| && s.threads[t].pc.Idle?
    && s' == s.(clock := s.clock + 1, threads := s.threads[t := Thread(key, Looking)])
  }

  /** What another reader leaves in the cache: it hits, or adds what it has read, or neither. Manifest
      reads are such readers when their keys pass the blob test. */
  ghost predicate Passes(p: Lru.Policy, s: State, s': State) {
    || (s'.cache == s.cache && s'.tally == s.tally)
    || (exists k :: PassesHitting(s, k, s'))
    || (exists k, data :: PassesAdding(p, s, k, data, s'))
  }

  ghost predicate PassesHitting(s: State, k: string, s': State) {
    StorageKeys.IsBlobKey(k) && Lru.Has(s.cache, k) && s'.cache == Lru.Touch(s.cache, k) && s'.tally == s.tally
  }

  ghost predicate PassesAdding(p: Lru.Policy, s: State, k: string, data: Body, s': State) {
    var e := Lru.Entry(k, data, |data|);
    && Genuine(p, s.store, k, data)
    && s'.cache == Lru.Offer(p, s.cache, e) && s'.tally == Offered(p, Fetched(s.tally, k), s.cache, e)
  }

  /** Time passes elsewhere: the store may gain keys, and another reader may use the cache. */
  ghost predicate Tick(p: Lru.Policy, s: State, s': State) {
    && Grows(s.store, s'.store) && Passes(p, s, s')
    && s' == s.(clock := s.clock + 1, store := s'.store, cache := s'.cache, tally := s'.tally)
  }

  predicate Precedes(a: Pc, b: Pc) {
    match a
    case Idle => false
    case Looking => b.Fetching? || b.Done?
    case Fetching(_) => b.Filling? || b.Done?
    case Filling(_) => b.Storing? || b.Done?
    case Storing(_) => b.Done?
    case Done(_) => false
  }

  /** Only thread `t` moves, in program order, and the clock ticks. */
  ghost predicate Moves(s: State, t: nat, s': State) {
    && t < |s.threads| && t < |s'.threads|
    && Precedes(s.threads[t].pc, s'.threads[t].pc)
    && s'.threads == s.threads[t := Thread(s.threads[t].key, s'.threads[t].pc)]
    && s'.clock == s.clock + 1 && s'.store == s.store
  }

  ghost predicate Look(s: State, key: string, pc: Pc, s': State) {
    s'.tally == s.tally &&
    if !StorageKeys.IsBlobKey(key) then pc == Fetching(false) && s'.cache == s.cache
    else if Lru.Has(s.cache, key) then
      var data := Lru.At(s.cache, key).val;
      pc == Done(Delivery(Reader(data, Some(|data|)))) && s'.cache == Lru.Touch(s.cache, key)
    else pc == Fetching(true) && s'.cache == s.cache
  }

  /** The backend answers, or fails. */
  ghost predicate Fetch(p: Lru.Policy, s: State, key: string, caching: bool, pc: Pc, s': State) {
    var n := Fetched(s.tally, key);
    && s'.cache == s.cache
    && (|| (pc == Done(Failed(Backend)) && s'.tally == Lost(n, key))
        || (if key !in s.store then pc == Done(Missing(s.clock)) && s'.tally == Lost(n, key)
            else if caching && p.Budgeted? && Cacheable(p.ceiling, s.store[key]) then
              pc == Filling(s.store[key]) && s'.tally == n
            else
              pc == Done(Delivery(Reader(s.store[key].body, s.store[key].reported))) && s'.tally == Streamed(n, key)))
  }

  /** The body is read into memory, or the backend fails in the middle of it. */
  ghost predicate Fill(p: Lru.Policy, s: State, key: string, obj: Object, pc: Pc, s': State) {
    && s'.cache == s.cache
    && (|| (pc == Done(Failed(Backend)) && s'.tally == Lost(s.tally, key))
        || (p.Budgeted? &&
            match Delivered(p.ceiling, obj)
            case Ok(r) => pc == Storing(r.body) && s'.tally == s.tally
            case Err(e) => pc == Done(Failed(e)) && s'.tally == Lost(s.tally, key)))
  }

  ghost predicate Keep(p: Lru.Policy, s: State, key: string, data: Body, pc: Pc, s': State) {
    var e := Lru.Entry(key, data, |data|);
    && pc == Done(Delivery(Reader(data, Some(|data|))))
    && s'.cache == Lru.Offer(p, s.cache, e) && s'.tally == Offered(p, s.tally, s.cache, e)
  }

  /** Thread `t` takes one step. */
  ghost predicate Act(p: Lru.Policy, s: State, t: nat, s': State) {
    Moves(s, t, s') &&
    var key, pc := s.threads[t].key, s'.threads[t].pc;
    match s.threads[t].pc
    case Idle => false
    case Looking => Look(s, key, pc, s')
    case Fetching(caching) => Fetch(p, s, key, caching, pc, s')
    case Filling(obj) => Fill(p, s, key, obj, pc, s')
    case Storing(data) => Keep(p, s, key, data, pc, s')
    case Done(_) => false
  }

  ghost predicate Next(p: Lru.Policy, s: State, s': State) {
    || Tick(p, s, s')
    || (exists t: nat, key :: Begin(s, t, key, s'))
    || (exists t: nat :: Act(p, s, t, s'))
  }

  // ----- Invariants -----

  /** The object at the key is one that is read into memory: a blob within the ceiling. */
  predicate Buffered(p: Lru.Policy, store: Store, key: string) {
    StorageKeys.IsBlobKey(key) && p.Budgeted? && key in store && Cacheable(p.ceiling, store[key])
  }

  /** The bytes are what a miss on the object delivers. */
  ghost predicate Genuine(p: Lru.Policy, store: Store, key: string, data: Body) {
    Buffered(p, store, key) && Delivered(p.ceiling, store[key]) == Ok(Reader(data, Some(|data|)))
  }

  ghost predicate SoundCache(p: Lru.Policy, store: Store, cache: seq<Entry>) {
    && Lru.Distinct(cache) && Lru.Fits(p, cache)
    && forall i :: 0 <= i < |cache| ==>
         Genuine(p, store, cache[i].key, cache[i].val) && cache[i].size == |cache[i].val|
  }

  /** What a thread holds or returns is the stored object: as a miss delivers it if it is read into
      memory, and as it is otherwise. */
  ghost predicate PcTruthful(p: Lru.Policy, store: Store, th: Thread) {
    match th.pc
    case Fetching(caching) => caching <==> StorageKeys.IsBlobKey(th.key)
    case Filling(obj) => Buffered(p, store, th.key) && store[th.key] == obj
    case Storing(data) => Genuine(p, store, th.key, data)
    case Done(Delivery(r)) =>
      && th.key in store
      && if Buffered(p, store, th.key) then Genuine(p, store, th.key, r.body) && r.size == Some(|r.body|)
         else r == Reader(store[th.key].body, store[th.key].reported)
    case Done(Failed(e)) =>
      e == Backend || (e == ShortRead && Buffered(p, store, th.key)
                       && |store[th.key].body| < store[th.key].reported.value)
    case _ => true
  }

  ghost predicate Inv(p: Lru.Policy, s: State) {
    && p.Budgeted? && p.bytesCap >= 0
    && SoundCache(p, s.store, s.cache)
    && forall t :: 0 <= t < |s.threads| ==> PcTruthful(p, s.store, s.threads[t])
  }

  lemma InitInv(p: Lru.Policy, s: State)
    requires p.Budgeted? && p.bytesCap >= 0 && Init(s)
    ensures Inv(p, s)
  {
  }

  /** When one thread moves, the others hold what they held. */
  lemma MoveKeepsTruth(p: Lru.Policy, s: State, t: nat, s': State)
    requires Inv(p, s) && Moves(s, t, s') && PcTruthful(p, s.store, s'.threads[t])
    ensures forall u :: 0 <= u < |s'.threads| ==> PcTruthful(p, s'.store, s'.threads[u])
  {
  }

  lemma LookKeeps(p: Lru.Policy, s: State, t: nat, s': State)
    requires Inv(p, s) && Act(p, s, t, s') && s.threads[t].pc.Looking?
    ensures Inv(p, s')
  {
    var key := s.threads[t].key;
    if StorageKeys.IsBlobKey(key) && Lru.Has(s.cache, key) {
      TouchKeepsSound(p, s.store, s.cache, key);
      assert Genuine(p, s.store, key, Lru.At(s.cache, key).val);
    }
    MoveKeepsTruth(p, s, t, s');
  }

  lemma KeepKeeps(p: Lru.Policy, s: State, t: nat, s': State)
    requires Inv(p, s) && Act(p, s, t, s') && s.threads[t].pc.Storing?
    ensures Inv(p, s')
  {
    assert PcTruthful(p, s.store, s.threads[t]);
    OfferKeepsSound(p, s.store, s.cache, s.threads[t].key, s.threads[t].pc.data);
    MoveKeepsTruth(p, s, t, s');
  }

  lemma FetchKeeps(p: Lru.Policy, s: State, t: nat, s': State)
    requires Inv(p, s) && Act(p, s, t, s') && s.threads[t].pc.Fetching?
    ensures Inv(p, s')
  {
    assert PcTruthful(p, s.store, s.threads[t]);
    MoveKeepsTruth(p, s, t, s');
  }

  lemma FillKeeps(p: Lru.Policy, s: State, t: nat, s': State)
    requires Inv(p, s) && Act(p, s, t, s') && s.threads[t].pc.Filling?
    ensures Inv(p, s')
  {
    assert PcTruthful(p, s.store, s.threads[t]);
    MoveKeepsTruth(p, s, t, s');
  }

  lemma ActKeeps(p: Lru.Policy, s: State, t: nat, s': State)
    requires Inv(p, s) && Act(p, s, t, s')
    ensures Inv(p, s')
  {
    match s.threads[t].pc
    case Looking => LookKeeps(p, s, t, s');
    case Fetching(_) => FetchKeeps(p, s, t, s');
    case Filling(_) => FillKeeps(p, s, t, s');
    case Storing(_) => KeepKeeps(p, s, t, s');
  }

  lemma TouchKeepsSound(p: Lru.Policy, store: Store, cache: seq<Entry>, k: string)
    requires SoundCache(p, store, cache) && Lru.Has(cache, k)
    ensures SoundCache(p, store, Lru.Touch(cache, k))
  {
    Lru.TouchKeeps(p, cache, k);
  }

  lemma OfferKeepsSound(p: Lru.Policy, store: Store, cache: seq<Entry>, k: string, data: Body)
    requires p.Budgeted? && SoundCache(p, store, cache) && Genuine(p, store, k, data)
    ensures SoundCache(p, store, Lru.Offer(p, cache, Lru.Entry(k, data, |data|)))
  {
    if Lru.Admits(p, Lru.Entry(k, data, |data|)) {
      Lru.InsertKeeps(p, cache, Lru.Entry(k, data, |data|));
    }
  }

  lemma PassingKeeps(p: Lru.Policy, s: State, s': State)
    requires p.Budgeted? && SoundCache(p, s.store, s.cache) && Passes(p, s, s')
    ensures SoundCache(p, s.store, s'.cache)
  {
    if k :| PassesHitting(s, k, s') {
      TouchKeepsSound(p, s.store, s.cache, k);
    }
    if k, data :| PassesAdding(p, s, k, data, s') {
      OfferKeepsSound(p, s.store, s.cache, k, data);
    }
  }

  lemma TickKeeps(p: Lru.Policy, s: State, s': State)
    requires Inv(p, s) && Tick(p, s, s')
    ensures Inv(p, s')
  {
    PassingKeeps(p, s, s');
    forall t | 0 <= t < |s.threads|
      ensures PcTruthful(p, s'.store, s.threads[t])
    {
      assert PcTruthful(p, s.store, s.threads[t]);
    }
    forall i | 0 <= i < |s'.cache|
      ensures Genuine(p, s'.store, s'.cache[i].key, s'.cache[i].val)
    {
      assert Genuine(p, s.store, s'.cache[i].key, s'.cache[i].val);
    }
  }

  lemma NextKeeps(p: Lru.Policy, s: State, s': State)
    requires Inv(p, s) && Next(p, s, s')
    ensures Inv(p, s')
  {
    if Tick(p, s, s') {
      TickKeeps(p, s, s');
    } else if t: nat :| Act(p, s, t, s') {
      ActKeeps(p, s, t, s');
    }
  }

  // ----- Runs -----

  ghost predicate StepAt(p: Lru.Policy, run: seq<State>, i: int)
    requires 0 <= i < |run| - 1
  {
    Next(p, run[i], run[i + 1])
  }

  ghost predicate IsRun(p: Lru.Policy, run: seq<State>) {
    && p.Budgeted? && p.bytesCap >= 0 && run != [] && Init(run[0])
    && forall i :: 0 <= i < |run| - 1 ==> StepAt(p, run, i)
  }

  lemma StepKeeps(p: Lru.Policy, run: seq<State>, i: nat)
    requires IsRun(p, run) && i < |run| - 1 && Inv(p, run[i])
    ensures Inv(p, run[i + 1])
  {
    assert StepAt(p, run, i);
    NextKeeps(p, run[i], run[i + 1]);
  }

  lemma {:induction false} RunInv(p: Lru.Policy, run: seq<State>, i: nat)
    requires IsRun(p, run) && i < |run|
    ensures Inv(p, run[i])
  {
    if i == 0 {
      InitInv(p, run[0]);
    } else {
      RunInv(p, run, i - 1);
      StepKeeps(p, run, i - 1);
    }
  }

  lemma NextIsSteady(p: Lru.Policy, s: State, s': State)
    requires Next(p, s, s')
    ensures Grows(s.store, s'.store) && |s'.threads| == |s.threads| && s'.clock == s.clock + 1
    ensures forall t :: 0 <= t < |s.threads| && !s.threads[t].pc.Idle? ==> s'.threads[t].key == s.threads[t].key
  {
    if t: nat :| Act(p, s, t, s') {
    }
  }

  lemma {:induction false} Steady(p: Lru.Policy, run: seq<State>, i: nat, j: nat)
    requires IsRun(p, run) && i <= j < |run|
    ensures Grows(run[i].store, run[j].store) && |run[j].threads| == |run[i].threads|
    ensures run[j].clock == run[i].clock + (j - i)
  {
    if i < j {
      Steady(p, run, i, j - 1);
      assert StepAt(p, run, j - 1);
      NextIsSteady(p, run[j - 1], run[j]);
    }
  }

  /** The byte budget holds at every moment, and no blob is listed twice, even when several misses add
      the same one. */
  lemma BudgetHolds(p: Lru.Policy, run: seq<State>, i: nat)
    requires IsRun(p, run) && i < |run|
    ensures Lru.Bytes(run[i].cache) <= p.bytesCap && Lru.Distinct(run[i].cache)
  {
    RunInv(p, run, i);
  }

  /** If the object at the key is read into memory, its reported size is its size. */
  predicate HonestAt(p: Lru.Policy, store: Store, key: string) {
    Buffered(p, store, key) ==> store[key].Honest()
  }

  /** With an honest size every cached body is the stored object's, then and at every later moment. */
  lemma CachedBodiesAreTheStores(p: Lru.Policy, run: seq<State>, i: nat, j: nat, n: nat)
    requires IsRun(p, run) && i <= j < |run| && n < |run[i].cache| && HonestAt(p, run[j].store, run[i].cache[n].key)
    ensures var e := run[i].cache[n]; e.key in run[j].store && e.val == run[j].store[e.key].body
  {
    RunInv(p, run, i);
    Steady(p, run, i, j);
    assert Genuine(p, run[i].store, run[i].cache[n].key, run[i].cache[n].val);
    HonestDelivery(p.ceiling, run[i].store[run[i].cache[n].key]);
  }

  /** With an honest size, if it is read into memory at all, every reader returned yields the stored
      object's bytes and reports its size, then and at every later moment. */
  lemma DeliveriesAreTheStores(p: Lru.Policy, run: seq<State>, i: nat, j: nat, t: nat)
    requires IsRun(p, run) && i <= j < |run|
    requires t < |run[i].threads| && HonestAt(p, run[j].store, run[i].threads[t].key)
    requires run[i].threads[t].pc.Done? && run[i].threads[t].pc.o.Delivery?
    ensures var th := run[i].threads[t];
            && th.key in run[j].store
            && th.pc.o.reader == Reader(run[j].store[th.key].body, run[j].store[th.key].reported)
  {
    RunInv(p, run, i);
    Steady(p, run, i, j);
    var th := run[i].threads[t];
    assert PcTruthful(p, run[i].store, th);
    if Buffered(p, run[i].store, th.key) {
      HonestDelivery(p.ceiling, run[i].store[th.key]);
    }
  }

  /** With an honest size no read is ever cut short. */
  lemma NoShortReads(p: Lru.Policy, run: seq<State>, i: nat, t: nat)
    requires IsRun(p, run) && i < |run| && t < |run[i].threads| && HonestAt(p, run[i].store, run[i].threads[t].key)
    ensures run[i].threads[t].pc != Done(Failed(ShortRead))
  {
    RunInv(p, run, i);
    assert PcTruthful(p, run[i].store, run[i].threads[t]);
  }

  lemma FailuresAreKnown(p: Lru.Policy, run: seq<State>, i: nat, t: nat)
    requires IsRun(p, run) && i < |run| && t < |run[i].threads|
    requires run[i].threads[t].pc.Done? && run[i].threads[t].pc.o.Failed?
    ensures run[i].threads[t].pc.o.error == Backend || run[i].threads[t].pc.o.error == ShortRead
  {
    RunInv(p, run, i);
    assert PcTruthful(p, run[i].store, run[i].threads[t]);
  }

  /** The read of an object into memory, whatever size it reports: too short, it fails; too long, its
      reader yields what was reported. */
  lemma BufferedReadsAreExact(p: Lru.Policy, run: seq<State>, i: nat, j: nat, t: nat)
    requires IsRun(p, run) && i <= j < |run| && t < |run[i].threads| && Buffered(p, run[j].store, run[i].threads[t].key)
    requires run[i].threads[t].pc.Done? && run[i].threads[t].pc.o != Failed(Backend) && !run[i].threads[t].pc.o.Missing?
    ensures var obj := run[j].store[run[i].threads[t].key];
            run[i].threads[t].pc.o ==
              if |obj.body| < obj.reported.value then Failed(ShortRead)
              else Delivery(Reader(obj.body[..obj.reported.value], obj.reported))
  {
    RunInv(p, run, i);
    Steady(p, run, i, j);
    assert PcTruthful(p, run[i].store, run[i].threads[t]);
  }

  /** A not-found is true at a moment when the same call was reading the backend. */
  ghost predicate Witnessed(run: seq<State>, i: nat, t: nat, at: nat)
    requires i < |run| && t < |run[i].threads|
  {
    && at < i && t < |run[at].threads|
    && run[at].threads[t].key == run[i].threads[t].key && run[at].threads[t].pc.Fetching?
    && run[i].threads[t].key !in run[at].store
  }

  lemma {:induction false} MissingWasTrue(p: Lru.Policy, run: seq<State>, i: nat, t: nat)
    requires IsRun(p, run) && i < |run| && t < |run[i].threads|
    requires run[i].threads[t].pc.Done? && run[i].threads[t].pc.o.Missing?
    ensures Witnessed(run, i, t, run[i].threads[t].pc.o.at)
  {
    if i > 0 {
      Steady(p, run, 0, i - 1);
      assert StepAt(p, run, i - 1);
      MissingArises(p, run[i - 1], t, run[i]);
      if run[i - 1].threads[t] == run[i].threads[t] {
        MissingWasTrue(p, run, i - 1, t);
      }
    }
  }

  lemma MissingArises(p: Lru.Policy, s: State, t: nat, s': State)
    requires Next(p, s, s') && t < |s'.threads| && s'.threads[t].pc.Done? && s'.threads[t].pc.o.Missing?
    ensures t < |s.threads|
    ensures s.threads[t] == s'.threads[t] ||
            (s.threads[t].key == s'.threads[t].key && s.threads[t].pc.Fetching?
             && s'.threads[t].pc.o.at == s.clock && s.threads[t].key !in s.store)
  {
    if u: nat :| Act(p, s, u, s') {
    }
  }

  // ----- Accounting -----

  function HeldBy(th: Thread, k: string): nat {
    if (th.pc.Filling? || th.pc.Storing?) && th.key == k then 1 else 0
  }

  /** How many threads are reading the object at a key into memory or are about to offer it. */
  function InHand(th: seq<Thread>, k: string): nat {
    if th == [] then 0 else InHand(th[..|th| - 1], k) + HeldBy(th[|th| - 1], k)
  }

  lemma {:induction false} InHandMoves(th: seq<Thread>, t: nat, next: Thread, k: string)
    requires t < |th|
    ensures InHand(th[t := next], k) + HeldBy(th[t], k) == InHand(th, k) + HeldBy(next, k)
    decreases |th|
  {
    var n := |th| - 1;
    if t < n {
      InHandMoves(th[..n], t, next, k);
      assert th[t := next][..n] == th[..n][t := next];
    } else {
      assert th[t := next][..n] == th[..n];
    }
  }

  lemma {:induction false} NothingInHand(th: seq<Thread>, k: string)
    requires forall t :: 0 <= t < |th| ==> th[t].pc.Idle?
    ensures InHand(th, k) == 0
  {
    if th != [] {
      NothingInHand(th[..|th| - 1], k);
    }
  }

  /** How many reads of a key have ended. */
  function Ended(n: Tally, k: string): nat {
    n.streams[k] + n.losses[k] + n.adds[k] + n.refreshes[k] + n.refusals[k]
  }

  /** Reads have ended or are in hand; what was added was evicted or is cached. */
  ghost predicate Adds(n: Tally, cache: seq<Entry>, th: seq<Thread>, k: string) {
    && n.fetches[k] == Ended(n, k) + InHand(th, k)
    && n.adds[k] == n.evictions[k] + Lru.KeyBag(cache)[k]
  }

  ghost predicate Tallied(s: State, k: string) {
    Adds(s.tally, s.cache, s.threads, k)
  }

  /** A thread moves, and the reads begun and ended with that move are tallied. */
  lemma MoveAdds(n: Tally, n': Tally, cache: seq<Entry>, cache': seq<Entry>, th: seq<Thread>, t: nat, next: Thread,
                 k: string, begun: nat)
    requires Adds(n, cache, th, k) && t < |th| && n'.fetches[k] == n.fetches[k] + begun
    requires Ended(n', k) + HeldBy(next, k) == Ended(n, k) + HeldBy(th[t], k) + begun
    requires n'.adds[k] == n'.evictions[k] + Lru.KeyBag(cache')[k]
    ensures Adds(n', cache', th[t := next], k)
  {
    InHandMoves(th, t, next, k);
  }

  lemma DifferenceCounts(all: multiset<string>, kept: multiset<string>, k: string)
    requires kept <= all
    ensures (all - kept)[k] + kept[k] == all[k]
  {
  }

  /** What the cache gives up when an entry is inserted, per key. */
  lemma EvictionsCount(p: Lru.Policy, cache: seq<Entry>, e: Entry, k: string)
    ensures var kept := Lru.KeyBag(Lru.Insert(p, cache, e));
            (Lru.KeyBag([e] + Lru.Without(cache, e.key)) - kept)[k] + kept[k]
              == Lru.KeyBag(cache)[k] + if Lru.Has(cache, e.key) then 0 else One(e.key, k)
  {
    Lru.InsertConservesKeys(p, cache, e);
    DifferenceCounts(Lru.KeyBag([e] + Lru.Without(cache, e.key)), Lru.KeyBag(Lru.Insert(p, cache, e)), k);
  }

  lemma OfferKeepsBalance(p: Lru.Policy, n: Tally, cache: seq<Entry>, e: Entry, k: string)
    requires n.adds[k] == n.evictions[k] + Lru.KeyBag(cache)[k]
    ensures var n' := Offered(p, n, cache, e); n'.adds[k] == n'.evictions[k] + Lru.KeyBag(Lru.Offer(p, cache, e))[k]
  {
    if Lru.Admits(p, e) {
      InsertKeepsBalance(p, n, cache, e, k);
    }
  }

  lemma InsertKeepsBalance(p: Lru.Policy, n: Tally, cache: seq<Entry>, e: Entry, k: string)
    requires n.adds[k] == n.evictions[k] + Lru.KeyBag(cache)[k] && Lru.Admits(p, e)
    ensures var n' := Offered(p, n, cache, e); n'.adds[k] == n'.evictions[k] + Lru.KeyBag(Lru.Insert(p, cache, e))[k]
  {
    EvictionsCount(p, cache, e, k);
    var evicted := Lru.KeyBag([e] + Lru.Without(cache, e.key)) - Lru.KeyBag(Lru.Insert(p, cache, e));
    var n' := Offered(p, n, cache, e);
    assert n'.evictions[k] == n.evictions[k] + evicted[k];
    assert n'.adds[k] == n.adds[k] + if Lru.Has(cache, e.key) then 0 else One(e.key, k);
  }

  lemma OfferEndsRead(p: Lru.Policy, n: Tally, cache: seq<Entry>, e: Entry, k: string)
    ensures var n' := Offered(p, n, cache, e); Ended(n', k) == Ended(n, k) + One(e.key, k) && n'.fetches == n.fetches
  {
  }

  lemma PassingIsTallied(p: Lru.Policy, s: State, s': State, k: string)
    requires Tallied(s, k) && Tick(p, s, s')
    ensures Tallied(s', k)
  {
    if x :| PassesHitting(s, x, s') {
      Lru.TouchKeepsKeyBag(s.cache, x);
    }
    if x, data :| PassesAdding(p, s, x, data, s') {
      OfferKeepsBalance(p, Fetched(s.tally, x), s.cache, Lru.Entry(x, data, |data|), k);
      OfferEndsRead(p, Fetched(s.tally, x), s.cache, Lru.Entry(x, data, |data|), k);
      CountsOf(s.tally, x, k);
    }
  }

  lemma LookAdds(n: Tally, cache: seq<Entry>, cache': seq<Entry>, th: seq<Thread>, t: nat, next: Thread, k: string)
    requires Adds(n, cache, th, k) && t < |th| && Lru.KeyBag(cache') == Lru.KeyBag(cache)
    requires th[t].pc.Looking? && (next.pc.Fetching? || next.pc.Done?)
    ensures Adds(n, cache', th[t := next], k)
  {
    InHandMoves(th, t, next, k);
  }

  lemma LookStep(p: Lru.Policy, s: State, t: nat, s': State)
    requires Act(p, s, t, s') && s.threads[t].pc.Looking?
    ensures Lru.KeyBag(s'.cache) == Lru.KeyBag(s.cache) && s'.tally == s.tally
    ensures s'.threads == s.threads[t := s'.threads[t]] && (s'.threads[t].pc.Fetching? || s'.threads[t].pc.Done?)
  {
    if StorageKeys.IsBlobKey(s.threads[t].key) && Lru.Has(s.cache, s.threads[t].key) {
      Lru.TouchKeepsKeyBag(s.cache, s.threads[t].key);
    }
  }

  lemma LookIsTallied(p: Lru.Policy, s: State, t: nat, s': State, k: string)
    requires Tallied(s, k) && Act(p, s, t, s') && s.threads[t].pc.Looking?
    ensures Tallied(s', k)
  {
    LookStep(p, s, t, s');
    LookAdds(s.tally, s.cache, s'.cache, s.threads, t, s'.threads[t], k);
  }

  function One(key: string, k: string): nat {
    if key == k then 1 else 0
  }

  lemma CountsOf(n: Tally, key: string, k: string)
    ensures Fetched(n, key).fetches[k] == n.fetches[k] + One(key, k) && Ended(Fetched(n, key), k) == Ended(n, k)
    ensures Ended(Lost(n, key), k) == Ended(n, k) + One(key, k) && Lost(n, key).fetches == n.fetches
    ensures Ended(Streamed(n, key), k) == Ended(n, k) + One(key, k) && Streamed(n, key).fetches == n.fetches
  {
  }

  lemma FetchIsTallied(p: Lru.Policy, s: State, t: nat, s': State, k: string)
    requires Tallied(s, k) && Act(p, s, t, s') && s.threads[t].pc.Fetching?
    ensures Tallied(s', k)
  {
    var key := s.threads[t].key;
    FetchCounts(p, s, key, s.threads[t].pc.caching, s'.threads[t].pc, s', k);
    ReadAdds(s.tally, s'.tally, s.cache, s.threads, t, s'.threads[t], k, One(key, k));
  }

  /** A move that leaves the cache alone. */
  lemma ReadAdds(n: Tally, n': Tally, cache: seq<Entry>, th: seq<Thread>, t: nat, next: Thread, k: string, begun: nat)
    requires Adds(n, cache, th, k) && t < |th| && n'.fetches[k] == n.fetches[k] + begun
    requires Ended(n', k) + HeldBy(next, k) == Ended(n, k) + HeldBy(th[t], k) + begun
    requires n'.adds == n.adds && n'.evictions == n.evictions
    ensures Adds(n', cache, th[t := next], k)
  {
    MoveAdds(n, n', cache, cache, th, t, next, k, begun);
  }

  lemma FetchCounts(p: Lru.Policy, s: State, key: string, caching: bool, pc: Pc, s': State, k: string)
    requires Fetch(p, s, key, caching, pc, s')
    ensures s'.tally.fetches[k] == s.tally.fetches[k] + One(key, k)
    ensures Ended(s'.tally, k) + HeldBy(Thread(key, pc), k) == Ended(s.tally, k) + One(key, k)
    ensures s'.tally.adds == s.tally.adds && s'.tally.evictions == s.tally.evictions
  {
    CountsOf(s.tally, key, k);
    CountsOf(Fetched(s.tally, key), key, k);
  }

  lemma FillIsTallied(p: Lru.Policy, s: State, t: nat, s': State, k: string)
    requires Tallied(s, k) && Act(p, s, t, s') && s.threads[t].pc.Filling?
    ensures Tallied(s', k)
  {
    FillCounts(p, s, s.threads[t].key, s.threads[t].pc.obj, s'.threads[t].pc, s', k);
    ReadAdds(s.tally, s'.tally, s.cache, s.threads, t, s'.threads[t], k, 0);
  }

  lemma FillCounts(p: Lru.Policy, s: State, key: string, obj: Object, pc: Pc, s': State, k: string)
    requires Fill(p, s, key, obj, pc, s')
    ensures s'.tally.fetches == s.tally.fetches
    ensures Ended(s'.tally, k) + HeldBy(Thread(key, pc), k) == Ended(s.tally, k) + One(key, k)
    ensures s'.tally.adds == s.tally.adds && s'.tally.evictions == s.tally.evictions
  {
    CountsOf(s.tally, key, k);
  }

  lemma KeepIsTallied(p: Lru.Policy, s: State, t: nat, s': State, k: string)
    requires Tallied(s, k) && Act(p, s, t, s') && s.threads[t].pc.Storing?
    ensures Tallied(s', k)
  {
    KeepStep(p, s, t, s', k);
    KeepAdds(s.tally, s'.tally, s.cache, s'.cache, s.threads, t, s'.threads[t], k);
  }

  lemma KeepStep(p: Lru.Policy, s: State, t: nat, s': State, k: string)
    requires Tallied(s, k) && Act(p, s, t, s') && s.threads[t].pc.Storing?
    ensures s'.tally.adds[k] == s'.tally.evictions[k] + Lru.KeyBag(s'.cache)[k]
    ensures Ended(s'.tally, k) == Ended(s.tally, k) + One(s.threads[t].key, k) && s'.tally.fetches == s.tally.fetches
    ensures s'.threads == s.threads[t := s'.threads[t]] && s'.threads[t].pc.Done?
  {
    var data := s.threads[t].pc.data;
    OfferKeepsBalance(p, s.tally, s.cache, Lru.Entry(s.threads[t].key, data, |data|), k);
    OfferEndsRead(p, s.tally, s.cache, Lru.Entry(s.threads[t].key, data, |data|), k);
  }

  lemma KeepAdds(n: Tally, n': Tally, cache: seq<Entry>, cache': seq<Entry>, th: seq<Thread>, t: nat, next: Thread,
                 k: string)
    requires Adds(n, cache, th, k) && t < |th| && th[t].pc.Storing? && next.pc.Done?
    requires n'.adds[k] == n'.evictions[k] + Lru.KeyBag(cache')[k]
    requires Ended(n', k) == Ended(n, k) + One(th[t].key, k) && n'.fetches == n.fetches
    ensures Adds(n', cache', th[t := next], k)
  {
    MoveAdds(n, n', cache, cache', th, t, next, k, 0);
  }

  lemma ActIsTallied(p: Lru.Policy, s: State, t: nat, s': State, k: string)
    requires Tallied(s, k) && Act(p, s, t, s')
    ensures Tallied(s', k)
  {
    match s.threads[t].pc
    case Looking => LookIsTallied(p, s, t, s', k);
    case Fetching(_) => FetchIsTallied(p, s, t, s', k);
    case Filling(_) => FillIsTallied(p, s, t, s', k);
    case Storing(_) => KeepIsTallied(p, s, t, s', k);
  }

  lemma NextIsTallied(p: Lru.Policy, s: State, s': State, k: string)
    requires Tallied(s, k) && Next(p, s, s')
    ensures Tallied(s', k)
  {
    if Tick(p, s, s') {
      PassingIsTallied(p, s, s', k);
    } else if t: nat, key :| Begin(s, t, key, s') {
      InHandMoves(s.threads, t, Thread(key, Looking), k);
    } else {
      var t: nat :| Act(p, s, t, s');
      ActIsTallied(p, s, t, s', k);
    }
  }

  lemma {:induction false} RunIsTallied(p: Lru.Policy, run: seq<State>, i: nat, k: string)
    requires IsRun(p, run) && i < |run|
    ensures Tallied(run[i], k)
  {
    if i == 0 {
      NothingInHand(run[0].threads, k);
    } else {
      RunIsTallied(p, run, i - 1, k);
      assert StepAt(p, run, i - 1);
      NextIsTallied(p, run[i - 1], run[i], k);
    }
  }

  /** At every moment of every run, for every key: each backend read has been streamed, was lost, is in
      hand, or ended at the cache, which added it, had it already from another miss, or refused it; and
      each blob added has been evicted since or is cached now. */
  lemma ExactAccounting(p: Lru.Policy, run: seq<State>, i: nat, k: string)
    requires IsRun(p, run) && i < |run|
    ensures var s, n := run[i], run[i].tally;
            && n.fetches[k] == n.streams[k] + n.losses[k] + n.adds[k] + n.refreshes[k] + n.refusals[k]
                               + InHand(s.threads, k)
            && n.adds[k] == n.evictions[k] + (if Lru.Has(s.cache, k) then 1 else 0)
  {
    RunIsTallied(p, run, i, k);
    RunInv(p, run, i);
    Lru.KeyBagCounts(run[i].cache, k);
  }

  // ----- Termination -----

  function Rank(pc: Pc): nat {
    match pc
    case Idle => 5
    case Looking => 4
    case Fetching(_) => 3
    case Filling(_) => 2
    case Storing(_) => 1
    case Done(_) => 0
  }

  ghost predicate CanAct(p: Lru.Policy, s: State, t: nat) {
    exists s' :: Act(p, s, t, s')
  }

  /** A call that is under way can always step, and every step brings it nearer its end. */
  lemma GetsFinish(p: Lru.Policy, s: State, t: nat)
    requires p.Budgeted? && t < |s.threads| && !s.threads[t].pc.Idle? && !s.threads[t].pc.Done?
    ensures CanAct(p, s, t)
    ensures forall s' :: Act(p, s, t, s') ==> Rank(s'.threads[t].pc) < Rank(s.threads[t].pc)
  {
    match s.threads[t].pc
    case Looking => LookingCanAct(p, s, t);
    case Fetching(_) =>
      Steps(p, s, t, Done(Failed(Backend)), s.cache, Lost(Fetched(s.tally, s.threads[t].key), s.threads[t].key));
    case Filling(_) => Steps(p, s, t, Done(Failed(Backend)), s.cache, Lost(s.tally, s.threads[t].key));
    case Storing(_) => StoringCanAct(p, s, t);
  }

  function After(s: State, t: nat, pc: Pc, cache: seq<Entry>, tally: Tally): State
    requires t < |s.threads|
  {
    s.(clock := s.clock + 1, cache := cache, tally := tally, threads := s.threads[t := Thread(s.threads[t].key, pc)])
  }

  lemma Steps(p: Lru.Policy, s: State, t: nat, pc: Pc, cache: seq<Entry>, tally: Tally)
    requires t < |s.threads| && Act(p, s, t, After(s, t, pc, cache, tally))
    ensures CanAct(p, s, t)
  {
  }

  lemma LookingCanAct(p: Lru.Policy, s: State, t: nat)
    requires t < |s.threads| && s.threads[t].pc.Looking?
    ensures CanAct(p, s, t)
  {
    var key := s.threads[t].key;
    if !StorageKeys.IsBlobKey(key) {
      Steps(p, s, t, Fetching(false), s.cache, s.tally);
    } else if Lru.Has(s.cache, key) {
      var data := Lru.At(s.cache, key).val;
      Steps(p, s, t, Done(Delivery(Reader(data, Some(|data|)))), Lru.Touch(s.cache, key), s.tally);
    } else {
      Steps(p, s, t, Fetching(true), s.cache, s.tally);
    }
  }

  lemma StoringCanAct(p: Lru.Policy, s: State, t: nat)
    requires t < |s.threads| && s.threads[t].pc.Storing?
    ensures CanAct(p, s, t)
  {
    var data := s.threads[t].pc.data;
    var e := Lru.Entry(s.threads[t].key, data, |data|);
    Steps(p, s, t, Done(Delivery(Reader(data, Some(|data|)))),
          Lru.Offer(p, s.cache, e), Offered(p, s.tally, s.cache, e));
  }
}
