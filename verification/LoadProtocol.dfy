/** The concurrent manifest load (`loadManifest`, internal/server/server.go) as a step system: many
    request threads over one manifest cache, one single-flight group and one growing store. Every
    section under the cache's mutex is one step, and so is each decision of the single-flight group:
    to join a call or lead one, and to publish its result and forget it. */
module LoadProtocol {
  import opened Store
  import Lru
  import M = Manifest

  type Entry = Lru.Entry<string, M.Manifest>

  /** How a load ends. `Missing` records whose read found nothing, and when. */
  datatype Outcome = Loaded(m: M.Manifest) | Missing(leader: nat, at: nat) | Malformed | BackendError

  /** Where a thread stands in `loadManifest`. `Idle` threads take no part. */
  datatype Pc =
    | Idle
    | Start                    // before the first cache lookup
    | Entering                 // missed; about to join or lead
    | Rechecking               // leads; about to look again
    | Reading                  // about to read the backend
    | Parsing(obj: Object)
    | Adding(m: M.Manifest)
    | Publishing(o: Outcome)   // about to publish the result and drop the call
    | Waiting(leader: nat)
    | Done(o: Outcome)
  {
    predicate Leads() {
      Rechecking? || Reading? || Parsing? || Adding? || Publishing?
    }

    /** Between the re-check and the add: what this thread reads is not cached. */
    predicate Fetching() {
      Reading? || Parsing? || Adding?
    }

    /** The backend has answered with an object that is not cached yet. */
    predicate Holding() {
      Parsing? || Adding?
    }
  }

  datatype Thread = Thread(key: string, pc: Pc)

  /** `calls` is the single-flight group: the leader of each key in flight. `published` is what
      waiters of a finished call receive. The last four fields count, per key, backend reads, loads
      that reached `add`, loads that failed after their read, and evicted entries. */
  datatype State = State(
    clock: nat, store: Store, cache: seq<Entry>, calls: map<string, nat>, published: map<nat, Outcome>,
    threads: seq<Thread>,
    fetches: multiset<string>, adds: multiset<string>, failures: multiset<string>, evictions: multiset<string>)

  ghost predicate Init(s: State) {
    && s.clock == 0 && s.cache == [] && s.calls == map[] && s.published == map[]
    && (forall t :: 0 <= t < |s.threads| ==> s.threads[t].pc.Idle? || s.threads[t].pc.Start?)
    && s.fetches == s.adds == s.failures == s.evictions == multiset{}
  }

  // ----- Steps -----

  function Goto(s: State, t: nat, pc: Pc): State
    requires t < |s.threads|
  {
    s.(clock := s.clock + 1, threads := s.threads[t := s.threads[t].(pc := pc)])
  }

  ghost function Lookup(s: State, t: nat): State
    requires t < |s.threads|
  {
    var k := s.threads[t].key;
    if Lru.Has(s.cache, k) then
      Goto(s, t, Done(Loaded(Lru.At(s.cache, k).val))).(cache := Lru.Touch(s.cache, k))
    else Goto(s, t, Entering)
  }

  function Enter(s: State, t: nat): State
    requires t < |s.threads|
  {
    var k := s.threads[t].key;
    if k in s.calls then Goto(s, t, Waiting(s.calls[k]))
    else Goto(s, t, Rechecking).(calls := s.calls[k := t])
  }

  ghost function Recheck(s: State, t: nat): State
    requires t < |s.threads|
  {
    var k := s.threads[t].key;
    if Lru.Has(s.cache, k) then
      Goto(s, t, Publishing(Loaded(Lru.At(s.cache, k).val))).(cache := Lru.Touch(s.cache, k))
    else Goto(s, t, Reading)
  }

  /** The backend answers: with the object, or that there is none. */
  function Read(s: State, t: nat): State
    requires t < |s.threads|
  {
    var k := s.threads[t].key;
    if k in s.store then Goto(s, t, Parsing(s.store[k])).(fetches := s.fetches + multiset{k})
    else Goto(s, t, Publishing(Missing(t, s.clock))).(fetches := s.fetches + multiset{k},
                                                       failures := s.failures + multiset{k})
  }

  /** The read fails: a backend error, or the load timeout. */
  function FailRead(s: State, t: nat): State
    requires t < |s.threads|
  {
    var k := s.threads[t].key;
    Goto(s, t, Publishing(BackendError)).(fetches := s.fetches + multiset{k}, failures := s.failures + multiset{k})
  }

  function Reject(s: State, t: nat): State
    requires t < |s.threads|
  {
    Goto(s, t, Publishing(Malformed)).(failures := s.failures + multiset{s.threads[t].key})
  }

  ghost function Add(p: Lru.Policy, s: State, t: nat, m: M.Manifest): State
    requires t < |s.threads|
  {
    var k := s.threads[t].key;
    var e := Lru.Entry(k, m, m.approxBytes);
    var kept := Lru.Insert(p, s.cache, e);
    Goto(s, t, Publishing(Loaded(m))).(
      cache := kept,
      adds := s.adds + multiset{k},
      evictions := s.evictions + (Lru.KeyBag([e] + Lru.Without(s.cache, k)) - Lru.KeyBag(kept)))
  }

  function Publish(s: State, t: nat, o: Outcome): State
    requires t < |s.threads|
  {
    Goto(s, t, Done(o)).(calls := s.calls - {s.threads[t].key}, published := s.published[t := o])
  }

  function Wake(s: State, t: nat, leader: nat): State
    requires t < |s.threads| && leader in s.published
  {
    Goto(s, t, Done(s.published[leader]))
  }

  /** Program order: where a thread may be one step later. */
  predicate Precedes(a: Pc, b: Pc) {
    match a
    case Idle => false
    case Start => b.Entering? || b.Done?
    case Entering => b.Rechecking? || b.Waiting?
    case Rechecking => b.Reading? || b.Publishing?
    case Reading => b.Parsing? || b.Publishing?
    case Parsing(_) => b.Adding? || b.Publishing?
    case Adding(m) => b == Publishing(Loaded(m))
    case Publishing(o) => b == Done(o)
    case Waiting(_) => b.Done?
    case Done(_) => false
  }

  /** Only thread `t` moves, in program order, and the clock ticks. */
  ghost predicate Moves(s: State, t: nat, s': State) {
    && t < |s.threads| && t < |s'.threads|
    && Precedes(s.threads[t].pc, s'.threads[t].pc)
    && s'.threads == s.threads[t := Thread(s.threads[t].key, s'.threads[t].pc)]
    && s'.clock == s.clock + 1 && s'.store == s.store
  }

  /** Thread `t` takes one step. */
  ghost predicate Act(p: Lru.Policy, s: State, t: nat, s': State) {
    Moves(s, t, s') &&
    match s.threads[t].pc
    case Idle => false
    case Start => s' == Lookup(s, t)
    case Entering => s' == Enter(s, t)
    case Rechecking => s' == Recheck(s, t)
    case Reading => s' == Read(s, t) || s' == FailRead(s, t)
    case Parsing(obj) =>
      if M.Loadable(obj.decoded) then exists m :: M.LoadsTo(obj.decoded, m) && s' == Goto(s, t, Adding(m))
      else s' == Reject(s, t)
    case Adding(m) => s' == Add(p, s, t, m)
    case Publishing(o) => s' == Publish(s, t, o)
    case Waiting(l) => l in s.published && s' == Wake(s, t, l)
    case Done(_) => false
  }

  /** Time passes elsewhere: the store may gain keys. */
  ghost predicate Tick(s: State, s': State) {
    Grows(s.store, s'.store) && s' == s.(clock := s.clock + 1, store := s'.store)
  }

  ghost predicate Next(p: Lru.Policy, s: State, s': State) {
    Tick(s, s') || exists t: nat :: Act(p, s, t, s')
  }

  // ----- Invariants -----

  type Calls = map<string, nat>
  type Outcomes = map<nat, Outcome>

  /** The single-flight group and the threads agree: the leader of every call in flight is a thread
      that leads it, every leading thread leads a call, and every waiter has a leader that is still
      at work or has published. */
  ghost predicate Coordinated(th: seq<Thread>, calls: Calls, published: Outcomes) {
    && (forall k :: k in calls ==> calls[k] < |th| && th[calls[k]].key == k && th[calls[k]].pc.Leads())
    && (forall t :: 0 <= t < |th| ==> InCall(th, calls, published, t))
    && (forall l :: l in published ==> l < |th| && th[l].pc == Done(published[l]))
    && (forall l :: l in published && published[l].Missing? ==> published[l].leader == l)
  }

  ghost predicate InCall(th: seq<Thread>, calls: Calls, published: Outcomes, t: nat)
    requires t < |th|
  {
    var k := th[t].key;
    match th[t].pc
    case Waiting(l) => l < |th| && th[l].key == k && (l in published || (k in calls && calls[k] == l))
    case Publishing(o) => k in calls && calls[k] == t && (o.Missing? ==> o.leader == t)
    case pc => pc.Leads() ==> k in calls && calls[k] == t
  }

  /** The entry is what the store's object for its key loads to. */
  ghost predicate Genuine(store: Store, e: Entry) {
    e.key in store && M.LoadsTo(store[e.key].decoded, e.val) && e.size == e.val.approxBytes
  }

  ghost predicate Truthful(store: Store, k: string, o: Outcome) {
    match o
    case Loaded(m) => k in store && M.LoadsTo(store[k].decoded, m)
    case Malformed => k in store && !M.Loadable(store[k].decoded)
    case _ => true
  }

  ghost predicate PcTruthful(store: Store, th: Thread) {
    match th.pc
    case Parsing(obj) => th.key in store && store[th.key] == obj
    case Adding(m) => th.key in store && M.LoadsTo(store[th.key].decoded, m)
    case Publishing(o) => Truthful(store, th.key, o)
    case Done(o) => Truthful(store, th.key, o)
    case _ => true
  }

  /** What is cached is genuine, within budget, and listed once. */
  ghost predicate SoundCache(p: Lru.Policy, store: Store, cache: seq<Entry>) {
    && Lru.Distinct(cache) && Lru.Fits(p, cache)
    && (forall i :: 0 <= i < |cache| ==> Genuine(store, cache[i]))
  }

  /** What threads hold or return is what the store says; what a leader fetches is not cached. */
  ghost predicate Faithful(store: Store, cache: seq<Entry>, th: seq<Thread>) {
    && (forall t :: 0 <= t < |th| ==> PcTruthful(store, th[t]))
    && (forall t :: 0 <= t < |th| && th[t].pc.Fetching() ==> !Lru.Has(cache, th[t].key))
  }

  ghost function InFlight(th: seq<Thread>, calls: Calls, k: string): nat {
    if k in calls && calls[k] < |th| && th[calls[k]].pc.Holding() then 1 else 0
  }

  /** Reads are added, failed or still held by the leader of the call in flight. */
  ghost predicate Balanced(s: State) {
    forall k :: s.fetches[k] == s.adds[k] + s.failures[k] + InFlight(s.threads, s.calls, k)
  }

  ghost predicate Inv(p: Lru.Policy, s: State) {
    && p.Counted?
    && Coordinated(s.threads, s.calls, s.published)
    && SoundCache(p, s.store, s.cache)
    && Faithful(s.store, s.cache, s.threads)
    && s.adds == s.evictions + Lru.KeyBag(s.cache)
    && Balanced(s)
  }

  lemma InitInv(p: Lru.Policy, s: State)
    requires p.Counted? && Init(s)
    ensures Inv(p, s)
  {
  }

  // ----- How threads move -----

  function Move(th: seq<Thread>, t: nat, pc: Pc): (r: seq<Thread>)
    requires t < |th|
  {
    th[t := th[t].(pc := pc)]
  }

  /** A move inside or outside a call, not into or out of one. */
  lemma QuietMove(th: seq<Thread>, calls: Calls, published: Outcomes, t: nat, pc: Pc)
    requires Coordinated(th, calls, published) && t < |th| && !th[t].pc.Done?
    requires th[t].pc.Leads() ==> pc.Leads()
    requires InCall(Move(th, t, pc), calls, published, t)
    ensures Coordinated(Move(th, t, pc), calls, published)
  {
    var th' := Move(th, t, pc);
    forall u | 0 <= u < |th'|
      ensures InCall(th', calls, published, u)
    {
      assert InCall(th, calls, published, u);
    }
  }

  lemma LeadMove(th: seq<Thread>, calls: Calls, published: Outcomes, t: nat)
    requires Coordinated(th, calls, published) && t < |th| && th[t].pc.Entering? && th[t].key !in calls
    ensures Coordinated(Move(th, t, Rechecking), calls[th[t].key := t], published)
  {
    var th', calls' := Move(th, t, Rechecking), calls[th[t].key := t];
    forall u | 0 <= u < |th'|
      ensures InCall(th', calls', published, u)
    {
      assert InCall(th, calls, published, u);
    }
  }

  lemma PublishMove(th: seq<Thread>, calls: Calls, published: Outcomes, t: nat)
    requires Coordinated(th, calls, published) && t < |th| && th[t].pc.Publishing?
    ensures Coordinated(Move(th, t, Done(th[t].pc.o)), calls - {th[t].key}, published[t := th[t].pc.o])
  {
    var th', calls', published' := Move(th, t, Done(th[t].pc.o)), calls - {th[t].key}, published[t := th[t].pc.o];
    assert InCall(th, calls, published, t);
    forall u | 0 <= u < |th'|
      ensures InCall(th', calls', published', u)
    {
      assert InCall(th, calls, published, u);
    }
  }

  // ----- What happens to the cache -----

  lemma TouchKeepsSound(p: Lru.Policy, store: Store, cache: seq<Entry>, k: string)
    requires SoundCache(p, store, cache) && Lru.Has(cache, k)
    ensures SoundCache(p, store, Lru.Touch(cache, k)) && Lru.KeyBag(Lru.Touch(cache, k)) == Lru.KeyBag(cache)
    ensures forall x :: Lru.Has(Lru.Touch(cache, k), x) <==> Lru.Has(cache, x)
  {
    Lru.TouchKeeps(p, cache, k);
    Lru.TouchKeepsKeyBag(cache, k);
  }

  lemma InsertKeepsSound(p: Lru.Policy, store: Store, cache: seq<Entry>, e: Entry)
    requires p.Counted? && SoundCache(p, store, cache) && Genuine(store, e)
    ensures SoundCache(p, store, Lru.Insert(p, cache, e))
  {
    Lru.InsertKeeps(p, cache, e);
  }

  lemma InsertAddsOnlyItsKey(p: Lru.Policy, cache: seq<Entry>, e: Entry, x: string)
    requires p.Counted? && Lru.Distinct(cache) && Lru.Has(Lru.Insert(p, cache, e), x)
    ensures x == e.key || Lru.Has(cache, x)
  {
    Lru.InsertKeeps(p, cache, e);
    var i :| 0 <= i < |Lru.Insert(p, cache, e)| && Lru.Insert(p, cache, e)[i].key == x;
  }

  // ----- Every step keeps the invariants -----

  /** A step that leaves calls and counted loads alone, and at most reorders the cache. */
  lemma QuietStep(p: Lru.Policy, s: State, t: nat, pc: Pc, s': State)
    requires Inv(p, s) && t < |s.threads| && !s.threads[t].pc.Done?
    requires s'.threads == Move(s.threads, t, pc)
    requires s'.store == s.store && s'.calls == s.calls && s'.published == s.published
    requires s'.adds == s.adds && s'.evictions == s.evictions
    requires var k := s.threads[t].key;
             s'.cache == s.cache || (Lru.Has(s.cache, k) && s'.cache == Lru.Touch(s.cache, k))
    requires s.threads[t].pc.Leads() ==> pc.Leads()
    requires InCall(s'.threads, s.calls, s.published, t)
    requires PcTruthful(s.store, s'.threads[t])
    requires pc.Fetching() ==> !Lru.Has(s.cache, s.threads[t].key)
    requires Balanced(s')
    ensures Inv(p, s')
  {
    QuietMove(s.threads, s.calls, s.published, t, pc);
    if s'.cache != s.cache {
      TouchKeepsSound(p, s.store, s.cache, s.threads[t].key);
    }
  }

  /** Unless the thread starts or stops holding an object, reads balance as before. */
  lemma QuietBalance(s: State, t: nat, pc: Pc, s': State)
    requires Balanced(s) && t < |s.threads| && s'.threads == Move(s.threads, t, pc) && s'.calls == s.calls
    requires s'.fetches == s.fetches && s'.adds == s.adds && s'.failures == s.failures
    requires s.threads[t].pc.Holding() == pc.Holding()
    ensures Balanced(s')
  {
    assert forall k :: InFlight(s'.threads, s'.calls, k) == InFlight(s.threads, s.calls, k);
  }

  ghost function Held(pc: Pc): nat {
    if pc.Holding() then 1 else 0
  }

  /** The leader of a key moves: its own reads balance, all others balance as before. */
  lemma Rebalance(s: State, t: nat, pc: Pc, s': State)
    requires Coordinated(s.threads, s.calls, s.published) && Balanced(s)
    requires t < |s.threads| && s.threads[t].pc.Leads()
    requires s'.threads == Move(s.threads, t, pc) && s'.calls == s.calls
    requires forall x :: x != s.threads[t].key ==>
      s'.fetches[x] == s.fetches[x] && s'.adds[x] == s.adds[x] && s'.failures[x] == s.failures[x]
    requires var k := s.threads[t].key; s'.fetches[k] == s'.adds[k] + s'.failures[k] + Held(pc)
    ensures Balanced(s')
  {
    assert InCall(s.threads, s.calls, s.published, t);
    forall x | x != s.threads[t].key
      ensures InFlight(s'.threads, s'.calls, x) == InFlight(s.threads, s.calls, x)
    {
    }
  }

  lemma LeaderBalance(s: State, t: nat)
    requires Coordinated(s.threads, s.calls, s.published) && Balanced(s)
    requires t < |s.threads| && s.threads[t].pc.Leads()
    ensures var k := s.threads[t].key; s.fetches[k] == s.adds[k] + s.failures[k] + Held(s.threads[t].pc)
  {
    assert InCall(s.threads, s.calls, s.published, t);
  }

  lemma CacheHitIsTruthful(p: Lru.Policy, store: Store, cache: seq<Entry>, k: string)
    requires SoundCache(p, store, cache) && Lru.Has(cache, k)
    ensures Truthful(store, k, Loaded(Lru.At(cache, k).val))
  {
    assert Genuine(store, Lru.At(cache, k));
  }

  lemma LookupKeeps(p: Lru.Policy, s: State, t: nat)
    requires Inv(p, s) && t < |s.threads| && s.threads[t].pc.Start?
    ensures Inv(p, Lookup(s, t))
  {
    if Lru.Has(s.cache, s.threads[t].key) {
      HitKeeps(p, s, t);
    } else {
      var s' := Goto(s, t, Entering);
      QuietBalance(s, t, Entering, s');
      QuietStep(p, s, t, Entering, s');
    }
  }

  lemma HitKeeps(p: Lru.Policy, s: State, t: nat)
    requires Inv(p, s) && t < |s.threads| && s.threads[t].pc.Start? && Lru.Has(s.cache, s.threads[t].key)
    ensures Inv(p, Lookup(s, t))
  {
    var s', pc := Lookup(s, t), Done(Loaded(Lru.At(s.cache, s.threads[t].key).val));
    CacheHitIsTruthful(p, s.store, s.cache, s.threads[t].key);
    QuietBalance(s, t, pc, s');
    QuietStep(p, s, t, pc, s');
  }

  lemma EnterKeeps(p: Lru.Policy, s: State, t: nat)
    requires Inv(p, s) && t < |s.threads| && s.threads[t].pc.Entering?
    ensures Inv(p, Enter(s, t))
  {
    if s.threads[t].key in s.calls {
      JoinKeeps(p, s, t);
    } else {
      LeadKeeps(p, s, t);
    }
  }

  lemma JoinKeeps(p: Lru.Policy, s: State, t: nat)
    requires Inv(p, s) && t < |s.threads| && s.threads[t].pc.Entering? && s.threads[t].key in s.calls
    ensures Inv(p, Enter(s, t))
  {
    var s', pc := Enter(s, t), Waiting(s.calls[s.threads[t].key]);
    QuietBalance(s, t, pc, s');
    QuietStep(p, s, t, pc, s');
  }

  lemma LeadKeeps(p: Lru.Policy, s: State, t: nat)
    requires Inv(p, s) && t < |s.threads| && s.threads[t].pc.Entering? && s.threads[t].key !in s.calls
    ensures Inv(p, Enter(s, t))
  {
    LeadMove(s.threads, s.calls, s.published, t);
    LeadKeepsBalance(s, t);
  }

  lemma LeadKeepsBalance(s: State, t: nat)
    requires Coordinated(s.threads, s.calls, s.published) && Balanced(s)
    requires t < |s.threads| && s.threads[t].pc.Entering? && s.threads[t].key !in s.calls
    ensures Balanced(Enter(s, t))
  {
    var s' := Enter(s, t);
    forall x
      ensures InFlight(s'.threads, s'.calls, x) == InFlight(s.threads, s.calls, x)
    {
    }
  }

  lemma RecheckKeeps(p: Lru.Policy, s: State, t: nat)
    requires Inv(p, s) && t < |s.threads| && s.threads[t].pc.Rechecking?
    ensures Inv(p, Recheck(s, t))
  {
    var s' := Recheck(s, t);
    var pc := s'.threads[t].pc;
    assert InCall(s.threads, s.calls, s.published, t);
    if Lru.Has(s.cache, s.threads[t].key) {
      CacheHitIsTruthful(p, s.store, s.cache, s.threads[t].key);
    }
    QuietBalance(s, t, pc, s');
    QuietStep(p, s, t, pc, s');
  }

  lemma FetchKeepsBalance(s: State, t: nat, pc: Pc, s': State)
    requires Coordinated(s.threads, s.calls, s.published) && Balanced(s)
    requires t < |s.threads| && s.threads[t].pc.Reading? && (pc.Parsing? || pc.Publishing?)
    requires var k := s.threads[t].key;
             s' == Goto(s, t, pc).(fetches := s.fetches + multiset{k},
                                   failures := s.failures + if pc.Parsing? then multiset{} else multiset{k})
    ensures Balanced(s')
  {
    LeaderBalance(s, t);
    Rebalance(s, t, pc, s');
  }

  /** The backend was asked, for better or worse. */
  lemma FetchKeeps(p: Lru.Policy, s: State, t: nat, pc: Pc, s': State)
    requires Inv(p, s) && t < |s.threads| && s.threads[t].pc.Reading?
    requires pc.Parsing? || pc.Publishing?
    requires pc.Publishing? ==> !pc.o.Loaded? && !pc.o.Malformed? && (pc.o.Missing? ==> pc.o.leader == t)
    requires pc.Parsing? ==> s.threads[t].key in s.store && s.store[s.threads[t].key] == pc.obj
    requires var k := s.threads[t].key;
             s' == Goto(s, t, pc).(fetches := s.fetches + multiset{k},
                                   failures := s.failures + if pc.Parsing? then multiset{} else multiset{k})
    ensures Inv(p, s')
  {
    assert InCall(s.threads, s.calls, s.published, t);
    FetchKeepsBalance(s, t, pc, s');
    QuietStep(p, s, t, pc, s');
  }

  lemma ReadKeeps(p: Lru.Policy, s: State, t: nat)
    requires Inv(p, s) && t < |s.threads| && s.threads[t].pc.Reading?
    ensures Inv(p, Read(s, t)) && Inv(p, FailRead(s, t))
  {
    var k := s.threads[t].key;
    assert s.failures + multiset{} == s.failures;
    FetchKeeps(p, s, t, if k in s.store then Parsing(s.store[k]) else Publishing(Missing(t, s.clock)), Read(s, t));
    FetchKeeps(p, s, t, Publishing(BackendError), FailRead(s, t));
  }

  lemma ParseKeeps(p: Lru.Policy, s: State, t: nat, m: M.Manifest)
    requires Inv(p, s) && t < |s.threads| && s.threads[t].pc.Parsing?
    requires M.LoadsTo(s.threads[t].pc.obj.decoded, m)
    ensures Inv(p, Goto(s, t, Adding(m)))
  {
    var s' := Goto(s, t, Adding(m));
    assert InCall(s.threads, s.calls, s.published, t) && PcTruthful(s.store, s.threads[t]);
    QuietBalance(s, t, Adding(m), s');
    QuietStep(p, s, t, Adding(m), s');
  }

  lemma RejectKeeps(p: Lru.Policy, s: State, t: nat)
    requires Inv(p, s) && t < |s.threads| && s.threads[t].pc.Parsing? && !M.Loadable(s.threads[t].pc.obj.decoded)
    ensures Inv(p, Reject(s, t))
  {
    var s' := Reject(s, t);
    assert InCall(s.threads, s.calls, s.published, t) && PcTruthful(s.store, s.threads[t]);
    LeaderBalance(s, t);
    Rebalance(s, t, Publishing(Malformed), s');
    QuietStep(p, s, t, Publishing(Malformed), s');
  }

  lemma AddKeeps(p: Lru.Policy, s: State, t: nat)
    requires Inv(p, s) && t < |s.threads| && s.threads[t].pc.Adding?
    ensures Inv(p, Add(p, s, t, s.threads[t].pc.m))
  {
    AddKeepsFaithful(p, s, t);
    AddKeepsCounts(p, s, t);
    assert InCall(s.threads, s.calls, s.published, t) && PcTruthful(s.store, s.threads[t]);
    var m, k := s.threads[t].pc.m, s.threads[t].key;
    QuietMove(s.threads, s.calls, s.published, t, Publishing(Loaded(m)));
    InsertKeepsSound(p, s.store, s.cache, Lru.Entry(k, m, m.approxBytes));
  }

  lemma AddKeepsCounts(p: Lru.Policy, s: State, t: nat)
    requires Inv(p, s) && t < |s.threads| && s.threads[t].pc.Adding?
    ensures var s' := Add(p, s, t, s.threads[t].pc.m); Balanced(s') && s'.adds == s'.evictions + Lru.KeyBag(s'.cache)
  {
    var m, k := s.threads[t].pc.m, s.threads[t].key;
    var s', e := Add(p, s, t, m), Lru.Entry(k, m, m.approxBytes);
    Lru.InsertConservesKeys(p, s.cache, e);
    Settle(s.evictions, Lru.KeyBag(s.cache), Lru.KeyBag([e] + Lru.Without(s.cache, k)), Lru.KeyBag(s'.cache), k);
    AddKeepsBalance(s, t, Publishing(Loaded(m)), s');
  }

  lemma AddKeepsBalance(s: State, t: nat, pc: Pc, s': State)
    requires Coordinated(s.threads, s.calls, s.published) && Balanced(s)
    requires t < |s.threads| && s.threads[t].pc.Adding? && pc.Publishing?
    requires s'.threads == Move(s.threads, t, pc) && s'.calls == s.calls
    requires s'.adds == s.adds + multiset{s.threads[t].key} && s'.fetches == s.fetches && s'.failures == s.failures
    ensures Balanced(s')
  {
    LeaderBalance(s, t);
    Rebalance(s, t, pc, s');
  }

  /** What was evicted or cached, plus the added key, is now evicted or cached. */
  lemma Settle(evicted: multiset<string>, cached: multiset<string>, all: multiset<string>, kept: multiset<string>,
               k: string)
    requires kept <= all && all == multiset{k} + cached
    ensures evicted + cached + multiset{k} == evicted + (all - kept) + kept
  {
  }

  /** No other thread is fetching the key just added: its leader is the thread that added it. */
  lemma AddKeepsFaithful(p: Lru.Policy, s: State, t: nat)
    requires Inv(p, s) && t < |s.threads| && s.threads[t].pc.Adding?
    ensures var s' := Add(p, s, t, s.threads[t].pc.m); Faithful(s'.store, s'.cache, s'.threads)
  {
    var m, k := s.threads[t].pc.m, s.threads[t].key;
    var e, th := Lru.Entry(k, m, m.approxBytes), Move(s.threads, t, Publishing(Loaded(m)));
    forall u | 0 <= u < |th|
      ensures PcTruthful(s.store, th[u])
    {
      AddedStaysTruthful(s, t, u);
    }
    forall u | 0 <= u < |th| && th[u].pc.Fetching()
      ensures !Lru.Has(Lru.Insert(p, s.cache, e), th[u].key)
    {
      AddedIsNotFetched(p, s, t, u, e);
    }
  }

  lemma AddedStaysTruthful(s: State, t: nat, u: nat)
    requires forall x :: 0 <= x < |s.threads| ==> PcTruthful(s.store, s.threads[x])
    requires t < |s.threads| && u < |s.threads| && s.threads[t].pc.Adding?
    ensures PcTruthful(s.store, Move(s.threads, t, Publishing(Loaded(s.threads[t].pc.m)))[u])
  {
    assert PcTruthful(s.store, s.threads[u]);
  }

  lemma AddedIsNotFetched(p: Lru.Policy, s: State, t: nat, u: nat, e: Entry)
    requires p.Counted? && Coordinated(s.threads, s.calls, s.published) && SoundCache(p, s.store, s.cache)
    requires Faithful(s.store, s.cache, s.threads) && t < |s.threads| && s.threads[t].pc.Adding?
    requires u < |s.threads| && u != t && s.threads[u].pc.Fetching() && e.key == s.threads[t].key
    ensures !Lru.Has(Lru.Insert(p, s.cache, e), s.threads[u].key)
  {
    var x := s.threads[u].key;
    if x == e.key {
      OnlyLeaderFetches(s, t, u);
    } else if Lru.Has(Lru.Insert(p, s.cache, e), x) {
      InsertAddsOnlyItsKey(p, s.cache, e, x);
    }
  }

  /** Two threads that lead calls lead them for different keys. */
  lemma OnlyLeaderFetches(s: State, t: nat, u: nat)
    requires Coordinated(s.threads, s.calls, s.published) && t < |s.threads| && u < |s.threads|
    requires s.threads[t].pc.Leads() && s.threads[u].pc.Leads() && s.threads[t].key == s.threads[u].key
    ensures t == u
  {
    assert InCall(s.threads, s.calls, s.published, u) && InCall(s.threads, s.calls, s.published, t);
  }

  lemma PublishKeeps(p: Lru.Policy, s: State, t: nat)
    requires Inv(p, s) && t < |s.threads| && s.threads[t].pc.Publishing?
    ensures Inv(p, Publish(s, t, s.threads[t].pc.o))
  {
    var s' := Publish(s, t, s.threads[t].pc.o);
    assert InCall(s.threads, s.calls, s.published, t) && PcTruthful(s.store, s.threads[t]);
    PublishMove(s.threads, s.calls, s.published, t);
    PublishKeepsBalance(s, t);
  }

  lemma PublishKeepsBalance(s: State, t: nat)
    requires Coordinated(s.threads, s.calls, s.published) && Balanced(s)
    requires t < |s.threads| && s.threads[t].pc.Publishing?
    ensures Balanced(Publish(s, t, s.threads[t].pc.o))
  {
    var s' := Publish(s, t, s.threads[t].pc.o);
    assert InCall(s.threads, s.calls, s.published, t);
    forall x
      ensures InFlight(s'.threads, s'.calls, x) == InFlight(s.threads, s.calls, x)
    {
    }
  }

  lemma WakeKeeps(p: Lru.Policy, s: State, t: nat)
    requires Inv(p, s) && t < |s.threads| && s.threads[t].pc.Waiting? && s.threads[t].pc.leader in s.published
    ensures Inv(p, Wake(s, t, s.threads[t].pc.leader))
  {
    var l := s.threads[t].pc.leader;
    var s' := Wake(s, t, l);
    assert InCall(s.threads, s.calls, s.published, t) && PcTruthful(s.store, s.threads[l]);
    QuietBalance(s, t, Done(s.published[l]), s');
    QuietStep(p, s, t, Done(s.published[l]), s');
  }

  lemma ActKeeps(p: Lru.Policy, s: State, t: nat, s': State)
    requires Inv(p, s) && Act(p, s, t, s')
    ensures Inv(p, s')
  {
    match s.threads[t].pc
    case Start => LookupKeeps(p, s, t);
    case Entering => EnterKeeps(p, s, t);
    case Rechecking => RecheckKeeps(p, s, t);
    case Reading => ReadKeeps(p, s, t);
    case Parsing(obj) =>
      if M.Loadable(obj.decoded) {
        var m :| M.LoadsTo(obj.decoded, m) && s' == Goto(s, t, Adding(m));
        ParseKeeps(p, s, t, m);
      } else {
        RejectKeeps(p, s, t);
      }
    case Adding(_) => AddKeeps(p, s, t);
    case Publishing(_) => PublishKeeps(p, s, t);
    case Waiting(_) => WakeKeeps(p, s, t);
  }

  lemma TickKeeps(p: Lru.Policy, s: State, s': State)
    requires Inv(p, s) && Tick(s, s')
    ensures Inv(p, s')
  {
    forall t | 0 <= t < |s.threads|
      ensures PcTruthful(s'.store, s.threads[t])
    {
      assert PcTruthful(s.store, s.threads[t]);
    }
    forall i | 0 <= i < |s.cache|
      ensures Genuine(s'.store, s.cache[i])
    {
      assert Genuine(s.store, s.cache[i]);
    }
  }

  lemma NextKeeps(p: Lru.Policy, s: State, s': State)
    requires Inv(p, s) && Next(p, s, s')
    ensures Inv(p, s')
  {
    if Tick(s, s') {
      TickKeeps(p, s, s');
    } else {
      var t: nat :| Act(p, s, t, s');
      ActKeeps(p, s, t, s');
    }
  }
}
