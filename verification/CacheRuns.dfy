/** What the manifest cache does over runs of the concurrent load, told by what the threads do: its
    contents by the history of the manifests they got from it and gave to it, and its counters by the
    steps they took. */
module CacheRuns {
  import opened Wrappers
  import opened Store
  import opened LoadProtocol
  import opened LoadRuns
  import opened Recency
  import Lru
  import M = Manifest

  // ----- The history of uses -----

  function ResultOf(pc: Pc): Option<M.Manifest> {
    match pc
    case Publishing(Loaded(m)) => Some(m)
    case Done(Loaded(m)) => Some(m)
    case _ => None
  }

  /** The thread gets its manifest from the cache, at its first lookup or its re-check, or adds it. */
  predicate UsesCache(a: Pc, b: Pc) {
    (a.Start? && b.Done?) || (a.Rechecking? && b.Publishing?) || (a.Adding? && b.Publishing?)
  }

  function EntryOf(k: string, m: M.Manifest): Entry {
    Lru.Entry(k, m, m.approxBytes)
  }

  function UseOf(a: Thread, b: Thread): seq<Entry> {
    if UsesCache(a.pc, b.pc) && ResultOf(b.pc).Some? then [EntryOf(a.key, ResultOf(b.pc).value)] else []
  }

  ghost predicate UsesAt(s: State, s': State, t: nat) {
    t < |s.threads| && t < |s'.threads| && UseOf(s.threads[t], s'.threads[t]) != []
  }

  /** The manifest used in one step, if one is. */
  ghost function UsesOf(s: State, s': State): seq<Entry> {
    if exists t: nat :: UsesAt(s, s', t) then
      var t: nat :| UsesAt(s, s', t);
      UseOf(s.threads[t], s'.threads[t])
    else []
  }

  /** All manifests used up to moment `i`, in order. */
  ghost function Log(run: seq<State>, i: nat): seq<Entry>
    requires i < |run|
  {
    if i == 0 then [] else Log(run, i - 1) + UsesOf(run[i - 1], run[i])
  }

  lemma UseOfSame(x: Thread)
    ensures UseOf(x, x) == []
  {
  }

  /** When one thread moves, the others use nothing. */
  lemma UsesOfMove(s: State, t: nat, s': State)
    requires t < |s.threads| == |s'.threads|
    requires forall u :: 0 <= u < |s.threads| && u != t ==> s'.threads[u] == s.threads[u]
    ensures UsesOf(s, s') == UseOf(s.threads[t], s'.threads[t])
  {
    forall u: nat | UsesAt(s, s', u)
      ensures u == t
    {
      if u != t {
        UseOfSame(s.threads[u]);
      }
    }
    assert UseOf(s.threads[t], s'.threads[t]) != [] ==> UsesAt(s, s', t);
  }

  lemma NoUses(s: State, s': State)
    requires s'.threads == s.threads
    ensures UsesOf(s, s') == []
  {
    forall u: nat | UsesAt(s, s', u)
      ensures false
    {
      UseOfSame(s.threads[u]);
    }
  }

  lemma HitFollows(p: Lru.Policy, s: State, k: string)
    requires SoundCache(p, s.store, s.cache) && Lru.Has(s.cache, k)
    ensures var e := EntryOf(k, Lru.At(s.cache, k).val); Follows(p, s.cache, e, Lru.Touch(s.cache, k))
  {
    assert Genuine(s.store, Lru.At(s.cache, k));
  }

  /** What a step does with the cache, given what its thread uses. */
  ghost predicate CacheStep(p: Lru.Policy, cache: seq<Entry>, uses: seq<Entry>, cache': seq<Entry>) {
    (uses == [] && cache' == cache) || (|uses| == 1 && Follows(p, cache, uses[0], cache'))
  }

  lemma UseOfResult(a: Thread, b: Thread, m: M.Manifest)
    requires UsesCache(a.pc, b.pc) && (b.pc == Publishing(Loaded(m)) || b.pc == Done(Loaded(m)))
    ensures UseOf(a, b) == [EntryOf(a.key, m)]
  {
  }

  lemma LookupUses(p: Lru.Policy, s: State, t: nat)
    requires SoundCache(p, s.store, s.cache) && t < |s.threads| && s.threads[t].pc.Start?
    ensures CacheStep(p, s.cache, UseOf(s.threads[t], Lookup(s, t).threads[t]), Lookup(s, t).cache)
  {
    var k := s.threads[t].key;
    if Lru.Has(s.cache, k) {
      HitFollows(p, s, k);
      UseOfResult(s.threads[t], Lookup(s, t).threads[t], Lru.At(s.cache, k).val);
    }
  }

  lemma RecheckUses(p: Lru.Policy, s: State, t: nat)
    requires SoundCache(p, s.store, s.cache) && t < |s.threads| && s.threads[t].pc.Rechecking?
    ensures CacheStep(p, s.cache, UseOf(s.threads[t], Recheck(s, t).threads[t]), Recheck(s, t).cache)
  {
    var k := s.threads[t].key;
    if Lru.Has(s.cache, k) {
      HitFollows(p, s, k);
      UseOfResult(s.threads[t], Recheck(s, t).threads[t], Lru.At(s.cache, k).val);
    }
  }

  lemma AddUses(p: Lru.Policy, s: State, t: nat)
    requires t < |s.threads| && s.threads[t].pc.Adding? && !Lru.Has(s.cache, s.threads[t].key)
    ensures var s' := Add(p, s, t, s.threads[t].pc.m);
            CacheStep(p, s.cache, UseOf(s.threads[t], s'.threads[t]), s'.cache)
  {
    UseOfResult(s.threads[t], Add(p, s, t, s.threads[t].pc.m).threads[t], s.threads[t].pc.m);
  }

  lemma OthersUseNothing(p: Lru.Policy, s: State, t: nat, s': State)
    requires Act(p, s, t, s')
    requires !s.threads[t].pc.Start? && !s.threads[t].pc.Rechecking? && !s.threads[t].pc.Adding?
    ensures UseOf(s.threads[t], s'.threads[t]) == [] && s'.cache == s.cache
  {
  }

  lemma ActUses(p: Lru.Policy, s: State, t: nat, s': State)
    requires Inv(p, s) && Act(p, s, t, s')
    ensures CacheStep(p, s.cache, UseOf(s.threads[t], s'.threads[t]), s'.cache)
  {
    if s.threads[t].pc.Start? {
      LookupUses(p, s, t);
    } else if s.threads[t].pc.Rechecking? {
      RecheckUses(p, s, t);
    } else if s.threads[t].pc.Adding? {
      AddUses(p, s, t);
    } else {
      OthersUseNothing(p, s, t, s');
    }
  }

  lemma NextUses(p: Lru.Policy, s: State, s': State)
    requires Inv(p, s) && Next(p, s, s')
    ensures CacheStep(p, s.cache, UsesOf(s, s'), s'.cache)
  {
    if Tick(s, s') {
      NoUses(s, s');
    } else {
      var t: nat :| Act(p, s, t, s');
      assert s'.threads == s.threads[t := s'.threads[t]];
      UsesOfMove(s, t, s');
      ActUses(p, s, t, s');
    }
  }

  lemma StepUses(p: Lru.Policy, run: seq<State>, i: nat)
    requires IsRun(p, run) && 0 < i < |run|
    ensures CacheStep(p, run[i - 1].cache, UsesOf(run[i - 1], run[i]), run[i].cache)
  {
    RunInv(p, run, i - 1);
    assert StepAt(p, run, i - 1);
    NextUses(p, run[i - 1], run[i]);
  }

  // ----- The cache is the front of the history -----

  /** The recency list after a step's use. */
  ghost function Moved(recent: seq<Entry>, uses: seq<Entry>): seq<Entry> {
    if uses == [] then recent else [uses[0]] + Lru.Without(recent, uses[0].key)
  }

  lemma RecentMoves(log: seq<Entry>, uses: seq<Entry>)
    requires |uses| <= 1
    ensures Recent(log + uses) == Moved(Recent(log), uses)
  {
    if uses == [] {
      assert log + uses == log;
    } else {
      assert uses == [uses[0]];
      RecentAppends(log, uses[0]);
    }
  }

  lemma LogStep(run: seq<State>, i: nat)
    requires 0 < i < |run| && |UsesOf(run[i - 1], run[i])| <= 1
    ensures Recent(Log(run, i)) == Moved(Recent(Log(run, i - 1)), UsesOf(run[i - 1], run[i]))
  {
    RecentMoves(Log(run, i - 1), UsesOf(run[i - 1], run[i]));
  }

  lemma StepStaysPrefix(p: Lru.Policy, cache: seq<Entry>, recent: seq<Entry>, uses: seq<Entry>, cache': seq<Entry>)
    requires cache <= recent && CacheStep(p, cache, uses, cache')
    ensures cache' <= Moved(recent, uses)
  {
    if uses != [] {
      StaysPrefix(p, cache, recent, uses[0], cache');
    }
  }

  lemma MostRecentStep(p: Lru.Policy, run: seq<State>, i: nat)
    requires IsRun(p, run) && 0 < i < |run| && run[i - 1].cache <= Recent(Log(run, i - 1))
    ensures run[i].cache <= Recent(Log(run, i))
  {
    var uses := UsesOf(run[i - 1], run[i]);
    StepUses(p, run, i);
    LogStep(run, i);
    StepStaysPrefix(p, run[i - 1].cache, Recent(Log(run, i - 1)), uses, run[i].cache);
  }

  /** At every moment of every run, the cache lists the manifests that were used most recently, in that
      order: a hit at either lookup and an add both count as uses. */
  lemma {:induction false} CacheIsMostRecent(p: Lru.Policy, run: seq<State>, i: nat)
    requires IsRun(p, run) && i < |run|
    ensures run[i].cache <= Recent(Log(run, i))
  {
    if i > 0 {
      CacheIsMostRecent(p, run, i - 1);
      MostRecentStep(p, run, i);
    }
  }

  /** What the step to moment `i` uses has the size it had when it was last used. */
  ghost predicate SteadyUse(run: seq<State>, i: nat)
    requires 0 < i < |run|
  {
    var uses := UsesOf(run[i - 1], run[i]);
    uses != [] ==> KeepsSize(Recent(Log(run, i - 1)), uses[0])
  }

  /** No manifest used so far has changed its size in between. */
  ghost predicate SizesAreSteady(run: seq<State>, i: nat)
    requires i < |run|
  {
    forall j :: 0 < j <= i ==> SteadyUse(run, j)
  }

  lemma StepStaysLongest(p: Lru.Policy, cache: seq<Entry>, recent: seq<Entry>, uses: seq<Entry>, cache': seq<Entry>,
                         recent': seq<Entry>)
    requires recent' == Moved(recent, uses)
    requires Longest(p, recent, cache) && CacheStep(p, cache, uses, cache')
    requires uses != [] ==> KeepsSize(recent, uses[0])
    ensures Longest(p, recent', cache')
  {
    if uses != [] {
      StaysLongest(p, cache, recent, uses[0], cache');
    }
  }

  lemma {:induction false} LongestAt(p: Lru.Policy, run: seq<State>, i: nat)
    requires IsRun(p, run) && i < |run| && SizesAreSteady(run, i)
    ensures Longest(p, Recent(Log(run, i)), run[i].cache)
  {
    if i > 0 {
      LongestAt(p, run, i - 1);
      LongestStep(p, run, i);
    }
  }

  lemma LongestStep(p: Lru.Policy, run: seq<State>, i: nat)
    requires IsRun(p, run) && 0 < i < |run| && Longest(p, Recent(Log(run, i - 1)), run[i - 1].cache)
    requires SteadyUse(run, i)
    ensures Longest(p, Recent(Log(run, i)), run[i].cache)
  {
    var uses := UsesOf(run[i - 1], run[i]);
    StepUses(p, run, i);
    LogStep(run, i);
    StepStaysLongest(p, run[i - 1].cache, Recent(Log(run, i - 1)), uses, run[i].cache, Recent(Log(run, i)));
  }

  /** And while manifests keep their sizes it holds as many of them as its two bounds allow: the first,
      and beyond it no more than `cap` and, under a byte bound, no more than `bytesCap` bytes; and one
      more would be too many. */
  lemma CacheIsLongestRecent(p: Lru.Policy, run: seq<State>, i: nat)
    requires IsRun(p, run) && i < |run| && SizesAreSteady(run, i)
    ensures Lru.BoundedTo(p.cap, p.bytesCap, Recent(Log(run, i)), run[i].cache)
  {
    LongestAt(p, run, i);
  }

  // ----- When sizes are steady -----

  lemma {:induction false} LogIsGenuine(p: Lru.Policy, run: seq<State>, i: nat, e: Entry)
    requires IsRun(p, run) && i < |run| && e in Log(run, i)
    ensures Genuine(run[i].store, e)
  {
    if i > 0 {
      Steady(p, run, i - 1, i);
      if e in Log(run, i - 1) {
        LogIsGenuine(p, run, i - 1, e);
      } else {
        UseIsGenuine(p, run, i - 1, e);
      }
    }
  }

  lemma UseIsGenuine(p: Lru.Policy, run: seq<State>, i: nat, e: Entry)
    requires IsRun(p, run) && i < |run| - 1 && e in UsesOf(run[i], run[i + 1])
    ensures Genuine(run[i + 1].store, e)
  {
    RunInv(p, run, i + 1);
    var s, s' := run[i], run[i + 1];
    var t: nat :| UsesAt(s, s', t) && UsesOf(s, s') == UseOf(s.threads[t], s'.threads[t]);
    assert PcTruthful(s'.store, s'.threads[t]);
    Steady(p, run, i, i + 1);
  }

  /** What is loaded from one object has one size when its keys do not clash. */
  lemma SameSize(store: Store, a: Entry, b: Entry)
    requires Genuine(store, a) && Genuine(store, b) && a.key == b.key
    requires M.NoClash(store[a.key].decoded.value.files.value)
    ensures a.size == b.size
  {
    M.LoadIsDeterministic(store[a.key].decoded, a.val, b.val);
  }

  /** No manifest of the store has clashing keys. */
  ghost predicate Unambiguous(store: Store) {
    forall k :: k in store && M.Loadable(store[k].decoded) ==> M.NoClash(store[k].decoded.value.files.value)
  }

  lemma UsesStayGenuine(p: Lru.Policy, run: seq<State>, j: nat, i: nat, last: Entry, e: Entry)
    requires IsRun(p, run) && 0 < j <= i < |run|
    requires last in Log(run, j - 1) && e in UsesOf(run[j - 1], run[j])
    ensures Genuine(run[i].store, last) && Genuine(run[i].store, e)
  {
    LogIsGenuine(p, run, j - 1, last);
    UseIsGenuine(p, run, j - 1, e);
    Steady(p, run, j - 1, i);
    Steady(p, run, j, i);
  }

  lemma UseKeepsSize(p: Lru.Policy, run: seq<State>, j: nat, i: nat)
    requires IsRun(p, run) && 0 < j <= i < |run| && Unambiguous(run[i].store)
    ensures SteadyUse(run, j)
  {
    var uses, recent := UsesOf(run[j - 1], run[j]), Recent(Log(run, j - 1));
    if uses != [] && Lru.Has(recent, uses[0].key) {
      var last := Lru.At(recent, uses[0].key);
      RecentWasUsed(Log(run, j - 1), last);
      UsesStayGenuine(p, run, j, i, last, uses[0]);
      SameSize(run[i].store, last, uses[0]);
    }
  }

  lemma SizesAreSteadyWithoutClash(p: Lru.Policy, run: seq<State>, i: nat)
    requires IsRun(p, run) && i < |run| && Unambiguous(run[i].store)
    ensures SizesAreSteady(run, i)
  {
    forall j | 0 < j <= i
      ensures SteadyUse(run, j)
    {
      UseKeepsSize(p, run, j, i);
    }
  }

  /** So on a store whose manifests have no clashing keys the contents of the cache are a function of the
      history and the two bounds. */
  lemma CacheIsTheLongestRecent(p: Lru.Policy, run: seq<State>, i: nat)
    requires IsRun(p, run) && i < |run| && Unambiguous(run[i].store)
    ensures Lru.BoundedTo(p.cap, p.bytesCap, Recent(Log(run, i)), run[i].cache)
  {
    SizesAreSteadyWithoutClash(p, run, i);
    CacheIsLongestRecent(p, run, i);
  }

  // ----- Single steps -----

  /** A load that reaches `add` leaves its manifest in front; behind it stays what was cached, as far as
      both bounds allow, and no less. */
  lemma AddedIsCached(p: Lru.Policy, run: seq<State>, i: nat, t: nat)
    requires IsRun(p, run) && i < |run| - 1 && t < |run[i].threads| && t < |run[i + 1].threads|
    requires run[i].threads[t].pc.Adding? && !run[i + 1].threads[t].pc.Adding?
    ensures var k, m := run[i].threads[t].key, run[i].threads[t].pc.m;
            && run[i + 1].threads[t] == Thread(k, Publishing(Loaded(m)))
            && run[i + 1].cache != [] && run[i + 1].cache[0] == Lru.Entry(k, m, m.approxBytes)
            && Lru.BoundedTo(p.cap, p.bytesCap, [Lru.Entry(k, m, m.approxBytes)] + run[i].cache, run[i + 1].cache)
  {
    var k, m := run[i].threads[t].key, run[i].threads[t].pc.m;
    AddIsAlwaysFresh(p, run, i, t);
    assert StepAt(p, run, i);
    AddingStep(p, run[i], t, run[i + 1]);
    Lru.InsertRetains(p, run[i].cache, EntryOf(k, m));
    Lru.TrimIsBounded(p.cap, p.bytesCap, [EntryOf(k, m)] + run[i].cache);
  }

  lemma AddingStep(p: Lru.Policy, s: State, t: nat, s': State)
    requires Next(p, s, s') && t < |s.threads| && t < |s'.threads|
    requires s.threads[t].pc.Adding? && !s'.threads[t].pc.Adding?
    ensures s' == Add(p, s, t, s.threads[t].pc.m)
  {
    var u: nat :| Act(p, s, u, s');
    assert u == t;
  }

  /** A request whose manifest is cached is given it in its first step, without a call or a read. */
  lemma CachedIsServedAtOnce(p: Lru.Policy, run: seq<State>, i: nat, t: nat)
    requires IsRun(p, run) && i < |run| - 1 && t < |run[i].threads| && t < |run[i + 1].threads|
    requires run[i].threads[t].pc.Start? && !run[i + 1].threads[t].pc.Start?
    requires Lru.Has(run[i].cache, run[i].threads[t].key)
    ensures run[i + 1].threads[t].pc == Done(Loaded(Lru.At(run[i].cache, run[i].threads[t].key).val))
    ensures run[i + 1].calls == run[i].calls && run[i + 1].fetches == run[i].fetches
  {
    assert StepAt(p, run, i);
    var u: nat :| Act(p, run[i], u, run[i + 1]);
    assert u == t;
  }

  ghost predicate CanBecome(p: Lru.Policy, s: State, t: nat, pc: Pc) {
    exists s' :: Act(p, s, t, s') && s'.threads[t].pc == pc
  }

  ghost predicate ReadEnds(s: State, t: nat, pc: Pc)
    requires t < |s.threads|
  {
    var k := s.threads[t].key;
    || pc == Publishing(BackendError)
    || (k in s.store && pc == Parsing(s.store[k]))
    || (k !in s.store && pc == Publishing(Missing(t, s.clock)))
  }

  lemma ReadCanEnd(p: Lru.Policy, s: State, t: nat, pc: Pc)
    requires t < |s.threads| && s.threads[t].pc.Reading? && ReadEnds(s, t, pc)
    ensures CanBecome(p, s, t, pc)
  {
    var s' := if pc == Publishing(BackendError) then FailRead(s, t) else Read(s, t);
    assert Act(p, s, t, s');
  }

  /** A read of the backend can end in each of three ways, and in no other: it fails, or it finds what
      the store holds at that moment. */
  lemma ReadsEndThreeWays(p: Lru.Policy, s: State, t: nat, pc: Pc)
    requires t < |s.threads| && s.threads[t].pc.Reading?
    ensures CanBecome(p, s, t, pc) <==> ReadEnds(s, t, pc)
  {
    if ReadEnds(s, t, pc) {
      ReadCanEnd(p, s, t, pc);
    }
  }

  // ----- Counters count steps -----

  datatype Event = Reads | Adds | Fails

  predicate Does(ev: Event, a: Pc, b: Pc) {
    match ev
    case Reads => a.Reading? && !b.Reading?
    case Adds => a.Adding? && !b.Adding?
    case Fails => (a.Reading? || a.Parsing?) && b.Publishing?
  }

  function DoneBy(ev: Event, a: Thread, b: Thread, k: string): nat {
    if a.key == k && Does(ev, a.pc, b.pc) then 1 else 0
  }

  function DoneIn(ev: Event, th: seq<Thread>, th': seq<Thread>, n: nat, k: string): nat
    requires n <= |th| && n <= |th'|
  {
    if n == 0 then 0 else DoneIn(ev, th, th', n - 1, k) + DoneBy(ev, th[n - 1], th'[n - 1], k)
  }

  /** How many threads with a key do such a thing in one step. */
  function DoneInStep(ev: Event, s: State, s': State, k: string): nat {
    if |s'.threads| == |s.threads| then DoneIn(ev, s.threads, s'.threads, |s.threads|, k) else 0
  }

  /** And in all steps up to moment `i`. */
  function Total(ev: Event, run: seq<State>, i: nat, k: string): nat
    requires i < |run|
  {
    if i == 0 then 0 else Total(ev, run, i - 1, k) + DoneInStep(ev, run[i - 1], run[i], k)
  }

  ghost function Leaves(s: State, s': State, k: string): nat {
    if Lru.Has(s.cache, k) && !Lru.Has(s'.cache, k) then 1 else 0
  }

  /** In how many steps up to moment `i` a key left the cache. */
  ghost function TotalLeft(run: seq<State>, i: nat, k: string): nat
    requires i < |run|
  {
    if i == 0 then 0 else TotalLeft(run, i - 1, k) + Leaves(run[i - 1], run[i], k)
  }

  function CounterOf(ev: Event, s: State, k: string): nat {
    match ev
    case Reads => s.fetches[k]
    case Adds => s.adds[k]
    case Fails => s.failures[k]
  }

  lemma {:induction false} DoneByMove(ev: Event, th: seq<Thread>, t: nat, next: Thread, n: nat, k: string)
    requires t < |th| && n <= |th|
    ensures DoneIn(ev, th, th[t := next], n, k) == if t < n then DoneBy(ev, th[t], next, k) else 0
  {
    if n > 0 {
      DoneByMove(ev, th, t, next, n - 1, k);
    }
  }

  lemma {:induction false} NothingDone(ev: Event, th: seq<Thread>, n: nat, k: string)
    requires n <= |th|
    ensures DoneIn(ev, th, th, n, k) == 0
  {
    if n > 0 {
      NothingDone(ev, th, n - 1, k);
    }
  }

  lemma ReadingCounts(p: Lru.Policy, s: State, t: nat, s': State, ev: Event, k: string)
    requires Act(p, s, t, s') && s.threads[t].pc.Reading?
    ensures CounterOf(ev, s', k) == CounterOf(ev, s, k) + DoneBy(ev, s.threads[t], s'.threads[t], k)
  {
  }

  lemma ParsingCounts(p: Lru.Policy, s: State, t: nat, s': State, ev: Event, k: string)
    requires Act(p, s, t, s') && s.threads[t].pc.Parsing?
    ensures CounterOf(ev, s', k) == CounterOf(ev, s, k) + DoneBy(ev, s.threads[t], s'.threads[t], k)
  {
  }

  lemma AddingCounts(p: Lru.Policy, s: State, t: nat, s': State, ev: Event, k: string)
    requires Act(p, s, t, s') && s.threads[t].pc.Adding?
    ensures CounterOf(ev, s', k) == CounterOf(ev, s, k) + DoneBy(ev, s.threads[t], s'.threads[t], k)
  {
  }

  lemma OthersCountNothing(p: Lru.Policy, s: State, t: nat, s': State)
    requires Act(p, s, t, s') && var pc := s.threads[t].pc; !pc.Reading? && !pc.Parsing? && !pc.Adding?
    ensures s'.fetches == s.fetches && s'.adds == s.adds && s'.failures == s.failures
  {
  }

  lemma ActCounts(p: Lru.Policy, s: State, t: nat, s': State, ev: Event, k: string)
    requires Act(p, s, t, s')
    ensures CounterOf(ev, s', k) == CounterOf(ev, s, k) + DoneBy(ev, s.threads[t], s'.threads[t], k)
  {
    if s.threads[t].pc.Reading? {
      ReadingCounts(p, s, t, s', ev, k);
    } else if s.threads[t].pc.Parsing? {
      ParsingCounts(p, s, t, s', ev, k);
    } else if s.threads[t].pc.Adding? {
      AddingCounts(p, s, t, s', ev, k);
    } else {
      OthersCountNothing(p, s, t, s');
    }
  }

  lemma NextCounts(p: Lru.Policy, s: State, s': State, ev: Event, k: string)
    requires Next(p, s, s')
    ensures CounterOf(ev, s', k) == CounterOf(ev, s, k) + DoneInStep(ev, s, s', k)
  {
    if Tick(s, s') {
      NothingDone(ev, s.threads, |s.threads|, k);
    } else {
      var t: nat :| Act(p, s, t, s');
      assert s'.threads == s.threads[t := s'.threads[t]];
      DoneByMove(ev, s.threads, t, s'.threads[t], |s.threads|, k);
      ActCounts(p, s, t, s', ev, k);
    }
  }

  lemma AddEvicts(p: Lru.Policy, s: State, t: nat, k: string)
    requires Inv(p, s) && t < |s.threads| && s.threads[t].pc.Adding?
    ensures var s' := Add(p, s, t, s.threads[t].pc.m); s'.evictions[k] == s.evictions[k] + Leaves(s, s', k)
  {
    var e := EntryOf(s.threads[t].key, s.threads[t].pc.m);
    var kept := Lru.Insert(p, s.cache, e);
    Lru.InsertConservesKeys(p, s.cache, e);
    Lru.InsertKeeps(p, s.cache, e);
    Lru.InsertRetains(p, s.cache, e);
    Lru.HasAt(kept, 0);
    Lru.KeyBagCounts(s.cache, k);
    Lru.KeyBagCounts(kept, k);
    if Lru.Has(kept, k) {
      InsertAddsOnlyItsKey(p, s.cache, e, k);
    }
  }

  lemma NextEvicts(p: Lru.Policy, s: State, s': State, k: string)
    requires Inv(p, s) && Next(p, s, s')
    ensures s'.evictions[k] == s.evictions[k] + Leaves(s, s', k)
  {
    if !Tick(s, s') {
      var t: nat :| Act(p, s, t, s');
      if s.threads[t].pc.Adding? {
        AddEvicts(p, s, t, k);
      } else {
        OnlyAddEvicts(p, s, t, s', k);
      }
    }
  }

  lemma OnlyAddEvicts(p: Lru.Policy, s: State, t: nat, s': State, k: string)
    requires Lru.Distinct(s.cache) && Act(p, s, t, s') && !s.threads[t].pc.Adding?
    ensures s'.evictions == s.evictions && Leaves(s, s', k) == 0
  {
    var x := s.threads[t].key;
    if Lru.Has(s.cache, x) {
      Lru.TouchHas(s.cache, x, k);
    }
  }

  /** The counters are what they are called: at every moment of every run, `fetches`, `adds` and
      `failures` count the steps in which threads read, added and failed, and `evictions` those in which
      a key left the cache. */
  lemma {:induction false} CountersCountSteps(p: Lru.Policy, run: seq<State>, i: nat, k: string)
    requires IsRun(p, run) && i < |run|
    ensures run[i].fetches[k] == Total(Reads, run, i, k) && run[i].adds[k] == Total(Adds, run, i, k)
    ensures run[i].failures[k] == Total(Fails, run, i, k) && run[i].evictions[k] == TotalLeft(run, i, k)
  {
    if i > 0 {
      CountersCountSteps(p, run, i - 1, k);
      StepCounts(p, run, i, k);
    }
  }

  lemma StepCounts(p: Lru.Policy, run: seq<State>, i: nat, k: string)
    requires IsRun(p, run) && 0 < i < |run|
    ensures var s, s' := run[i - 1], run[i];
            && s'.fetches[k] == s.fetches[k] + DoneInStep(Reads, s, s', k)
            && s'.adds[k] == s.adds[k] + DoneInStep(Adds, s, s', k)
            && s'.failures[k] == s.failures[k] + DoneInStep(Fails, s, s', k)
            && s'.evictions[k] == s.evictions[k] + Leaves(s, s', k)
  {
    RunInv(p, run, i - 1);
    assert StepAt(p, run, i - 1);
    NextCounts(p, run[i - 1], run[i], Reads, k);
    NextCounts(p, run[i - 1], run[i], Adds, k);
    NextCounts(p, run[i - 1], run[i], Fails, k);
    NextEvicts(p, run[i - 1], run[i], k);
  }

  // ----- While everything fits -----

  /** The manifests used so far fit both bounds together. */
  ghost predicate AllFit(p: Lru.Policy, run: seq<State>, i: nat)
    requires i < |run| && p.Counted?
  {
    var all := Recent(Log(run, i));
    |all| <= p.cap && (p.bytesCap > 0 ==> Lru.Bytes(all) <= p.bytesCap)
  }

  lemma WholeIsLongest(p: Lru.Policy, recent: seq<Entry>)
    requires p.Counted? && |recent| <= p.cap && (p.bytesCap > 0 ==> Lru.Bytes(recent) <= p.bytesCap)
    ensures Longest(p, recent, recent)
  {
  }

  lemma FittingStep(p: Lru.Policy, run: seq<State>, i: nat)
    requires IsRun(p, run) && 0 < i < |run| && AllFit(p, run, i - 1) && AllFit(p, run, i)
    requires run[i - 1].cache == Recent(Log(run, i - 1))
    ensures run[i].cache == Recent(Log(run, i))
  {
    var uses := UsesOf(run[i - 1], run[i]);
    StepUses(p, run, i);
    WholeIsLongest(p, run[i - 1].cache);
    LongestStep(p, run, i);
    Lru.BoundedKeepsAll(p.cap, p.bytesCap, Recent(Log(run, i)), run[i].cache);
  }

  lemma {:induction false} AllThatFitIsCached(p: Lru.Policy, run: seq<State>, i: nat)
    requires IsRun(p, run) && i < |run| && forall j :: 0 <= j <= i ==> AllFit(p, run, j)
    ensures run[i].cache == Recent(Log(run, i))
  {
    if i > 0 {
      AllThatFitIsCached(p, run, i - 1);
      FittingStep(p, run, i);
    }
  }

  ghost predicate HoldsAll(run: seq<State>, i: nat)
    requires i < |run|
  {
    run[i].cache == Recent(Log(run, i))
  }

  lemma NoneLeaves(p: Lru.Policy, run: seq<State>, i: nat, k: string)
    requires IsRun(p, run) && 0 < i < |run| && HoldsAll(run, i - 1) && HoldsAll(run, i)
    ensures Leaves(run[i - 1], run[i], k) == 0
  {
    var uses := UsesOf(run[i - 1], run[i]);
    StepUses(p, run, i);
    LogStep(run, i);
    if uses != [] {
      Lru.FrontHas(uses[0], Lru.Without(run[i - 1].cache, uses[0].key), k);
      if k != uses[0].key {
        Lru.WithoutKeepsOther(run[i - 1].cache, uses[0].key, k);
      }
    }
  }

  ghost predicate KeepsKey(run: seq<State>, i: nat, k: string)
    requires 0 < i < |run|
  {
    Leaves(run[i - 1], run[i], k) == 0
  }

  lemma {:induction false} NoneLeft(run: seq<State>, i: nat, k: string)
    requires i < |run| && forall j :: 0 < j <= i ==> KeepsKey(run, j, k)
    ensures TotalLeft(run, i, k) == 0
  {
    if i > 0 {
      assert KeepsKey(run, i, k);
      NoneLeft(run, i - 1, k);
    }
  }

  /** As long as the manifests used so far fit both bounds together, all of them are cached, none is
      evicted, and each release costs one backend read, beyond those that failed. */
  lemma EachIsReadOnceWhileAllFit(p: Lru.Policy, run: seq<State>, i: nat, k: string)
    requires IsRun(p, run) && i < |run| && forall j :: 0 <= j <= i ==> AllFit(p, run, j)
    ensures run[i].cache == Recent(Log(run, i)) && run[i].evictions[k] == 0
    ensures run[i].fetches[k] <= run[i].failures[k] + 1
  {
    forall j | 0 <= j <= i
      ensures HoldsAll(run, j)
    {
      AllThatFitIsCached(p, run, j);
    }
    assert HoldsAll(run, i);
    forall j | 0 < j <= i
      ensures KeepsKey(run, j, k)
    {
      NoneLeaves(p, run, j, k);
    }
    NoneLeft(run, i, k);
    CountersCountSteps(p, run, i, k);
    ReadsWithoutEvictions(p, run, i, k);
  }
}
