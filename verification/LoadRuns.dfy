/** What holds of every run of the concurrent manifest load: exact accounting, answers that match the
    store, and termination without deadlock. */
module LoadRuns {
  import opened Wrappers
  import opened Store
  import opened LoadProtocol
  import Lru
  import M = Manifest

  ghost predicate StepAt(p: Lru.Policy, run: seq<State>, i: int)
    requires 0 <= i < |run| - 1
  {
    Next(p, run[i], run[i + 1])
  }

  ghost predicate IsRun(p: Lru.Policy, run: seq<State>) {
    && p.Counted? && run != [] && Init(run[0])
    && forall i :: 0 <= i < |run| - 1 ==> StepAt(p, run, i)
  }

  lemma {:induction false} RunInv(p: Lru.Policy, run: seq<State>, i: nat)
    requires IsRun(p, run) && i < |run|
    ensures Inv(p, run[i])
  {
    if i == 0 {
      InitInv(p, run[0]);
    } else {
      RunInv(p, run, i - 1);
      assert StepAt(p, run, i - 1);
      NextKeeps(p, run[i - 1], run[i]);
    }
  }

  // ----- Accounting -----

  /** At every moment of every run, for every key: each load that reached `add` has been evicted since
      or is cached now, and each backend read was added, failed, or is held by the one leader between
      its read and its add. */
  lemma ExactAccounting(p: Lru.Policy, run: seq<State>, i: nat, k: string)
    requires IsRun(p, run) && i < |run|
    ensures var s := run[i];
            && s.adds[k] == s.evictions[k] + (if Lru.Has(s.cache, k) then 1 else 0)
            && s.fetches[k] == s.adds[k] + s.failures[k] + InFlight(s.threads, s.calls, k)
  {
    RunInv(p, run, i);
    Lru.KeyBagCounts(run[i].cache, k);
  }

  /** The refresh branch of `add` is never taken: what a leader is about to add is not cached. */
  lemma AddIsAlwaysFresh(p: Lru.Policy, run: seq<State>, i: nat, t: nat)
    requires IsRun(p, run) && i < |run| && t < |run[i].threads| && run[i].threads[t].pc.Adding?
    ensures !Lru.Has(run[i].cache, run[i].threads[t].key)
  {
    RunInv(p, run, i);
  }

  /** At most one thread leads a load of a key. */
  lemma OneLeaderPerKey(p: Lru.Policy, run: seq<State>, i: nat, t: nat, u: nat)
    requires IsRun(p, run) && i < |run| && t < |run[i].threads| && u < |run[i].threads|
    requires run[i].threads[t].key == run[i].threads[u].key
    requires run[i].threads[t].pc.Leads() && run[i].threads[u].pc.Leads()
    ensures t == u
  {
    RunInv(p, run, i);
    OnlyLeaderFetches(run[i], t, u);
  }

  lemma ReadsWithoutEvictions(p: Lru.Policy, run: seq<State>, i: nat, k: string)
    requires IsRun(p, run) && i < |run| && run[i].evictions[k] == 0
    ensures run[i].fetches[k] <= run[i].failures[k] + 1
  {
    ExactAccounting(p, run, i, k);
    var s := run[i];
    RunInv(p, run, i);
    if Lru.Has(s.cache, k) && k in s.calls {
      assert Faithful(s.store, s.cache, s.threads);
      assert s.threads[s.calls[k]].key == k;
    }
  }

  /** A burst on a cold release costs one backend read, however many requests it has, as long as that
      read succeeds and the manifest stays cached. */
  lemma ColdBurstReadsOnce(p: Lru.Policy, run: seq<State>, i: nat, k: string)
    requires IsRun(p, run) && i < |run| && run[i].evictions[k] == 0 && run[i].failures[k] == 0
    ensures run[i].fetches[k] <= 1
  {
    ReadsWithoutEvictions(p, run, i, k);
  }

  /** The bounds hold at every moment: beyond a single manifest, no more than `cap` of them and, under a
      byte bound, no more than `bytesCap` bytes; and none is cached twice. */
  lemma CacheStaysWithinBudget(p: Lru.Policy, run: seq<State>, i: nat)
    requires IsRun(p, run) && i < |run|
    ensures |run[i].cache| > 1 ==>
              |run[i].cache| <= p.cap && (p.bytesCap > 0 ==> Lru.Bytes(run[i].cache) <= p.bytesCap)
    ensures Lru.Distinct(run[i].cache)
  {
    RunInv(p, run, i);
    assert Lru.Fits(p, run[i].cache);
  }

  // ----- Answers -----

  lemma {:induction false} Steady(p: Lru.Policy, run: seq<State>, i: nat, j: nat)
    requires IsRun(p, run) && i <= j < |run|
    ensures Grows(run[i].store, run[j].store) && |run[j].threads| == |run[i].threads|
    ensures forall t :: 0 <= t < |run[i].threads| ==> run[j].threads[t].key == run[i].threads[t].key
    ensures run[j].clock == run[i].clock + (j - i)
    ensures forall t :: 0 <= t < |run[i].threads| ==> Rank(run[j].threads[t].pc) <= Rank(run[i].threads[t].pc)
  {
    if i < j {
      Steady(p, run, i, j - 1);
      assert StepAt(p, run, j - 1);
      NextIsSteady(p, run[j - 1], run[j]);
    }
  }

  lemma NextIsSteady(p: Lru.Policy, s: State, s': State)
    requires Next(p, s, s')
    ensures Grows(s.store, s'.store) && |s'.threads| == |s.threads| && s'.clock == s.clock + 1
    ensures forall t :: 0 <= t < |s.threads| ==> s'.threads[t].key == s.threads[t].key
    ensures forall t :: 0 <= t < |s.threads| ==> Rank(s'.threads[t].pc) <= Rank(s.threads[t].pc)
  {
    if !Tick(s, s') {
      var t: nat :| Act(p, s, t, s');
      ProgramOrderUsesUpWork(s.threads[t].pc, s'.threads[t].pc);
    }
  }

  lemma ProgramOrderUsesUpWork(a: Pc, b: Pc)
    requires Precedes(a, b)
    ensures Rank(b) < Rank(a)
  {
  }

  /** Success never goes stale: a manifest returned to a request is what its key's object loads to,
      then and at every later moment. */
  lemma SuccessIsCurrent(p: Lru.Policy, run: seq<State>, i: nat, j: nat, t: nat)
    requires IsRun(p, run) && i <= j < |run| && t < |run[i].threads|
    requires run[i].threads[t].pc.Done? && run[i].threads[t].pc.o.Loaded?
    ensures var k := run[i].threads[t].key;
            k in run[j].store && M.LoadsTo(run[j].store[k].decoded, run[i].threads[t].pc.o.m)
  {
    RunInv(p, run, i);
    assert PcTruthful(run[i].store, run[i].threads[t]);
    Steady(p, run, i, j);
  }

  /** A rejected manifest is one the store holds and the loader refuses, then and later. */
  lemma RejectionIsCurrent(p: Lru.Policy, run: seq<State>, i: nat, j: nat, t: nat)
    requires IsRun(p, run) && i <= j < |run| && t < |run[i].threads|
    requires run[i].threads[t].pc == Done(Malformed)
    ensures var k := run[i].threads[t].key; k in run[j].store && !M.Loadable(run[j].store[k].decoded)
  {
    RunInv(p, run, i);
    assert PcTruthful(run[i].store, run[i].threads[t]);
    Steady(p, run, i, j);
  }

  /** `o` is a not-found that thread `t` has by moment `i`: the store lacked the key at moment `o.at`,
      inside the call that `o.leader` was leading for it, and `t` led that call or waited on it. */
  ghost predicate Witnessed(run: seq<State>, i: nat, t: nat, o: Outcome)
    requires i < |run| && t < |run[i].threads| && o.Missing?
  {
    var k := run[i].threads[t].key;
    && o.at < i && k !in run[o.at].store
    && k in run[o.at].calls && run[o.at].calls[k] == o.leader
    && o.leader < |run[o.at].threads| && run[o.at].threads[o.leader] == Thread(k, Reading)
    && (t == o.leader || exists j :: 0 <= j < i && t < |run[j].threads| && run[j].threads[t].pc == Waiting(o.leader))
  }

  ghost function OutcomeOf(pc: Pc): Option<Outcome> {
    match pc
    case Publishing(o) => Some(o)
    case Done(o) => Some(o)
    case _ => None
  }

  ghost predicate HasMissing(s: State, t: nat) {
    t < |s.threads| && OutcomeOf(s.threads[t].pc).Some? && OutcomeOf(s.threads[t].pc).value.Missing?
  }

  lemma {:induction false} MissingIsWitnessed(p: Lru.Policy, run: seq<State>, i: nat, t: nat)
    requires IsRun(p, run) && i < |run| && HasMissing(run[i], t)
    ensures Witnessed(run, i, t, OutcomeOf(run[i].threads[t].pc).value)
    decreases i, 1
  {
    if i > 0 {
      var s, s' := run[i - 1], run[i];
      assert StepAt(p, run, i - 1);
      Steady(p, run, i - 1, i);
      if s'.threads[t].pc == s.threads[t].pc {
        MissingIsWitnessed(p, run, i - 1, t);
      } else {
        MissingArises(p, run, i, t);
      }
    }
  }

  /** A thread comes by a not-found by its own read, by publishing what it has, or from its leader. */
  lemma MissingComesFrom(p: Lru.Policy, s: State, t: nat, s': State)
    requires Act(p, s, t, s') && HasMissing(s', t)
    ensures var o, pc := OutcomeOf(s'.threads[t].pc).value, s.threads[t].pc;
            || (pc.Reading? && o == Missing(t, s.clock) && s.threads[t].key !in s.store)
            || pc == Publishing(o)
            || (pc.Waiting? && pc.leader in s.published && s.published[pc.leader] == o)
  {
    match s.threads[t].pc
    case Start =>
    case Entering =>
    case Rechecking =>
    case Reading =>
    case Parsing(_) =>
    case Adding(_) =>
    case Publishing(_) =>
    case Waiting(_) =>
  }

  /** A not-found is one step away: the thread reads a store without the key as its leader, has it to
      publish, or waits on a leader that has it. */
  ghost predicate AboutToMiss(s: State, t: nat, o: Outcome)
    requires t < |s.threads| && o.Missing?
  {
    var pc, k := s.threads[t].pc, s.threads[t].key;
    || (pc.Reading? && o == Missing(t, s.clock) && k !in s.store && k in s.calls && s.calls[k] == t)
    || pc == Publishing(o)
    || (pc.Waiting? && HasMissing(s, pc.leader) && s.threads[pc.leader].key == k
        && OutcomeOf(s.threads[pc.leader].pc).value == o && o.leader == pc.leader)
  }

  /** The step in which a thread first has a not-found. */
  lemma MissingStep(p: Lru.Policy, s: State, t: nat, s': State)
    requires Inv(p, s) && Next(p, s, s') && HasMissing(s', t)
    requires t < |s.threads| && s'.threads[t].pc != s.threads[t].pc
    ensures AboutToMiss(s, t, OutcomeOf(s'.threads[t].pc).value)
  {
    var u: nat :| Act(p, s, u, s');
    MissingComesFrom(p, s, t, s');
    assert InCall(s.threads, s.calls, s.published, t);
  }

  lemma MissingStepAt(p: Lru.Policy, run: seq<State>, i: nat, t: nat)
    requires IsRun(p, run) && 0 < i < |run| && HasMissing(run[i], t)
    requires t < |run[i - 1].threads| && run[i].threads[t].pc != run[i - 1].threads[t].pc
    ensures var s, o := run[i - 1], OutcomeOf(run[i].threads[t].pc).value;
            AboutToMiss(s, t, o)
  {
    assert StepAt(p, run, i - 1);
    RunInv(p, run, i - 1);
    MissingStep(p, run[i - 1], t, run[i]);
  }

  lemma {:induction false} MissingArises(p: Lru.Policy, run: seq<State>, i: nat, t: nat)
    requires IsRun(p, run) && 0 < i < |run| && HasMissing(run[i], t)
    requires t < |run[i - 1].threads| && run[i].threads[t].pc != run[i - 1].threads[t].pc
    ensures Witnessed(run, i, t, OutcomeOf(run[i].threads[t].pc).value)
    decreases i, 0
  {
    var s, o := run[i - 1], OutcomeOf(run[i].threads[t].pc).value;
    MissingStepAt(p, run, i, t);
    Steady(p, run, i - 1, i);
    if s.threads[t].pc.Reading? {
      Steady(p, run, 0, i - 1);
    } else if s.threads[t].pc.Publishing? {
      MissingIsWitnessed(p, run, i - 1, t);
    } else {
      var l := s.threads[t].pc.leader;
      MissingIsWitnessed(p, run, i - 1, l);
      WaiterInherits(run, i, t, l, o);
    }
  }

  /** What its leader's not-found rests on, the waiter's rests on too. */
  lemma WaiterInherits(run: seq<State>, i: nat, t: nat, l: nat, o: Outcome)
    requires 0 < i < |run| && t < |run[i].threads| && t < |run[i - 1].threads| && l < |run[i - 1].threads|
    requires o.Missing? && o.leader == l && Witnessed(run, i - 1, l, o)
    requires run[i - 1].threads[t].pc == Waiting(l)
    requires run[i].threads[t].key == run[i - 1].threads[t].key == run[i - 1].threads[l].key
    ensures Witnessed(run, i, t, o)
  {
  }

  /** A not-found is true of the store at some moment inside the call that found it, a call the
      request led or waited on. */
  lemma MissingWasTrue(p: Lru.Policy, run: seq<State>, i: nat, t: nat)
    requires IsRun(p, run) && i < |run| && t < |run[i].threads|
    requires run[i].threads[t].pc.Done? && run[i].threads[t].pc.o.Missing?
    ensures Witnessed(run, i, t, run[i].threads[t].pc.o)
  {
    MissingIsWitnessed(p, run, i, t);
  }

  /** For the request that led the call, that moment lies within the request itself: not before any
      moment `f` at which it had not started. */
  lemma LeadersMissingIsItsOwn(p: Lru.Policy, run: seq<State>, f: nat, i: nat, t: nat)
    requires IsRun(p, run) && f <= i < |run| && t < |run[i].threads|
    requires t < |run[f].threads| && run[f].threads[t].pc.Start?
    requires run[i].threads[t].pc.Done? && run[i].threads[t].pc.o.Missing? && run[i].threads[t].pc.o.leader == t
    ensures f < run[i].threads[t].pc.o.at < i && run[i].threads[t].key !in run[run[i].threads[t].pc.o.at].store
  {
    MissingWasTrue(p, run, i, t);
    var at := run[i].threads[t].pc.o.at;
    if at <= f {
      Steady(p, run, at, f);
    }
  }

  // ----- Which requests are told "not found" of a key that exists -----

  /** The call in flight for the key has already read the store without it. */
  ghost predicate ReadNothing(s: State, k: string) {
    k in s.calls && HasMissing(s, s.calls[k])
  }

  /** The request is bound to be told "not found". */
  ghost predicate WillMiss(s: State, t: nat) {
    t < |s.threads| &&
    match s.threads[t].pc
    case Waiting(l) => HasMissing(s, l)
    case _ => HasMissing(s, t)
  }

  /** The thread is past joining or leading, and has no not-found. */
  ghost predicate Finding(s: State, t: nat) {
    t < |s.threads| && (s.threads[t].pc.Leads() || s.threads[t].pc.Done?) && !HasMissing(s, t)
  }

  /** The request is bound to be told anything but "not found". */
  ghost predicate WillFind(s: State, t: nat) {
    && t < |s.threads| && s.threads[t].key in s.store
    && match s.threads[t].pc
       case Waiting(l) => Finding(s, l) && s.threads[l].key == s.threads[t].key
       case _ => Finding(s, t)
  }

  lemma HasMissingStays(p: Lru.Policy, s: State, t: nat, s': State)
    requires Next(p, s, s') && HasMissing(s, t)
    ensures HasMissing(s', t)
  {
    if !Tick(s, s') {
      var u: nat :| Act(p, s, u, s');
    }
  }

  /** A leader that has not read yet will find what the store holds. */
  lemma FindingStays(p: Lru.Policy, s: State, t: nat, s': State)
    requires Next(p, s, s') && Finding(s, t) && s.threads[t].key in s.store
    ensures Finding(s', t)
  {
    if !Tick(s, s') {
      var u: nat :| Act(p, s, u, s');
      if u == t && HasMissing(s', t) {
        MissingComesFrom(p, s, t, s');
      }
    }
  }

  lemma WakesWithLeaders(p: Lru.Policy, s: State, t: nat, s': State)
    requires Inv(p, s) && Next(p, s, s') && t < |s.threads| && t < |s'.threads| && s.threads[t].pc.Waiting?
    ensures s'.threads[t].pc == s.threads[t].pc || s'.threads[t].pc == s.threads[s.threads[t].pc.leader].pc
  {
    if !Tick(s, s') {
      var u: nat :| Act(p, s, u, s');
      assert InCall(s.threads, s.calls, s.published, t);
    }
  }

  lemma WillMissStays(p: Lru.Policy, s: State, t: nat, s': State)
    requires Inv(p, s) && Next(p, s, s') && WillMiss(s, t)
    ensures WillMiss(s', t)
  {
    NextIsSteady(p, s, s');
    if s.threads[t].pc.Waiting? {
      WakesWithLeaders(p, s, t, s');
      HasMissingStays(p, s, s.threads[t].pc.leader, s');
    } else {
      HasMissingStays(p, s, t, s');
    }
  }

  lemma WillFindStays(p: Lru.Policy, s: State, t: nat, s': State)
    requires Inv(p, s) && Next(p, s, s') && WillFind(s, t)
    ensures WillFind(s', t)
  {
    NextIsSteady(p, s, s');
    if s.threads[t].pc.Waiting? {
      WakesWithLeaders(p, s, t, s');
      FindingStays(p, s, s.threads[t].pc.leader, s');
    } else {
      FindingStays(p, s, t, s');
    }
  }

  lemma {:induction false} FateIsSealed(p: Lru.Policy, run: seq<State>, j: nat, i: nat, t: nat)
    requires IsRun(p, run) && j <= i < |run|
    ensures WillMiss(run[j], t) ==> WillMiss(run[i], t)
    ensures WillFind(run[j], t) ==> WillFind(run[i], t)
  {
    if j < i {
      FateIsSealed(p, run, j, i - 1, t);
      RunInv(p, run, i - 1);
      assert StepAt(p, run, i - 1);
      if WillMiss(run[i - 1], t) {
        WillMissStays(p, run[i - 1], t, run[i]);
      }
      if WillFind(run[i - 1], t) {
        WillFindStays(p, run[i - 1], t, run[i]);
      }
    }
  }

  /** At moment `j` thread `t`, having missed the cache, joins the call in flight or starts one. */
  ghost predicate Enters(run: seq<State>, j: nat, t: nat)
    requires j < |run| - 1
  {
    && t < |run[j].threads| && t < |run[j + 1].threads|
    && run[j].threads[t].pc.Entering? && !run[j + 1].threads[t].pc.Entering?
  }

  lemma EnteringStep(p: Lru.Policy, s: State, t: nat, s': State)
    requires Next(p, s, s') && t < |s.threads| && t < |s'.threads|
    requires s.threads[t].pc.Entering? && !s'.threads[t].pc.Entering?
    ensures s' == Enter(s, t)
  {
    var u: nat :| Act(p, s, u, s');
    assert u == t;
  }

  /** On entering a call, with its key in the store, a request's fate depends on its leader alone. */
  lemma EnteringSealsFate(p: Lru.Policy, s: State, t: nat, s': State)
    requires Inv(p, s) && t < |s.threads| && s.threads[t].pc.Entering? && s' == Enter(s, t)
    requires s.threads[t].key in s.store
    ensures if ReadNothing(s, s.threads[t].key) then WillMiss(s', t) else WillFind(s', t)
  {
  }

  /** A request whose key is in the store when it joins or starts a load is told "not found" exactly
      when it joins a call whose leader has already read nothing. */
  lemma ToldMissingIff(p: Lru.Policy, run: seq<State>, j: nat, i: nat, t: nat)
    requires IsRun(p, run) && j < i < |run| && Enters(run, j, t) && run[j].threads[t].key in run[j].store
    requires t < |run[i].threads| && run[i].threads[t].pc.Done?
    ensures run[i].threads[t].pc.o.Missing? <==> ReadNothing(run[j], run[j].threads[t].key)
  {
    RunInv(p, run, j);
    assert StepAt(p, run, j);
    EnteringStep(p, run[j], t, run[j + 1]);
    EnteringSealsFate(p, run[j], t, run[j + 1]);
    FateIsSealed(p, run, j + 1, i, t);
  }

  /** A request is here only after it has joined or started a load. */
  predicate PastEntry(pc: Pc) {
    !pc.Start? && !pc.Entering? && !(pc.Done? && pc.o.Loaded?)
  }

  lemma BeforePastEntry(p: Lru.Policy, run: seq<State>, i: nat, t: nat)
    requires IsRun(p, run) && 0 < i < |run| && t < |run[i].threads| && PastEntry(run[i].threads[t].pc)
    ensures t < |run[i - 1].threads|
    ensures PastEntry(run[i - 1].threads[t].pc) || Enters(run, i - 1, t)
  {
    Steady(p, run, i - 1, i);
    assert StepAt(p, run, i - 1);
    StepsFrom(p, run[i - 1], t, run[i]);
  }

  /** The step in which a request that did not hit the cache joined or started a load. */
  lemma {:induction false} EntersBefore(p: Lru.Policy, run: seq<State>, f: nat, i: nat, t: nat) returns (j: nat)
    requires IsRun(p, run) && f <= i < |run| && t < |run[f].threads| && t < |run[i].threads|
    requires run[f].threads[t].pc.Start? && PastEntry(run[i].threads[t].pc)
    ensures f <= j < i && Enters(run, j, t)
  {
    BeforePastEntry(p, run, i, t);
    if Enters(run, i - 1, t) {
      j := i - 1;
    } else {
      j := EntersBefore(p, run, f, i - 1, t);
    }
  }

  lemma StepsFrom(p: Lru.Policy, s: State, t: nat, s': State)
    requires Next(p, s, s') && t < |s.threads| && t < |s'.threads|
    ensures var a, b := s.threads[t].pc, s'.threads[t].pc;
            && (a.Start? ==> b.Start? || b.Entering? || (b.Done? && b.o.Loaded?))
            && (a.Done? ==> b == a)
  {
    if !Tick(s, s') {
      var u: nat :| Act(p, s, u, s');
    }
  }

  /** A request for a key the store held before its first step is told "not found" exactly when, at some
      moment of its own, it joins a call whose leader has already read nothing. */
  lemma MisledIffJoinedTooLate(p: Lru.Policy, run: seq<State>, f: nat, i: nat, t: nat)
    requires IsRun(p, run) && f <= i < |run| && t < |run[f].threads| && t < |run[i].threads|
    requires run[f].threads[t].pc.Start? && run[f].threads[t].key in run[f].store
    requires run[i].threads[t].pc.Done?
    ensures run[i].threads[t].pc.o.Missing? <==>
              exists j :: f <= j < i && Enters(run, j, t) && ReadNothing(run[j], run[j].threads[t].key)
  {
    if run[i].threads[t].pc.o.Missing? {
      var j := EntersBefore(p, run, f, i, t);
      Steady(p, run, f, j);
      ToldMissingIff(p, run, j, i, t);
    }
    if j :| f <= j < i && Enters(run, j, t) && ReadNothing(run[j], run[j].threads[t].key) {
      Steady(p, run, f, j);
      ToldMissingIff(p, run, j, i, t);
    }
  }

  /** Two requests for one key. The first finds nothing; the release `obj` is published; the second starts,
      joins the call of the first before it is published, and is told there is no such release. */
  function Misled(k: string, obj: Object, i: nat): State
    requires i <= 9
  {
    var idle: multiset<string> := multiset{};
    var empty: Store := map[];
    var full: Store := map[k := obj];
    var missing := Missing(0, 3);
    match i
    case 0 => At(k, 0, empty, map[], map[], Start, Start, idle)
    case 1 => At(k, 1, empty, map[], map[], Entering, Start, idle)
    case 2 => At(k, 2, empty, map[k := 0], map[], Rechecking, Start, idle)
    case 3 => At(k, 3, empty, map[k := 0], map[], Reading, Start, idle)
    case 4 => At(k, 4, empty, map[k := 0], map[], Publishing(missing), Start, multiset{k})
    case 5 => At(k, 5, full, map[k := 0], map[], Publishing(missing), Start, multiset{k})
    case 6 => At(k, 6, full, map[k := 0], map[], Publishing(missing), Entering, multiset{k})
    case 7 => At(k, 7, full, map[k := 0], map[], Publishing(missing), Waiting(0), multiset{k})
    case 8 => At(k, 8, full, map[], map[0 := missing], Done(missing), Waiting(0), multiset{k})
    case _ => At(k, 9, full, map[], map[0 := missing], Done(missing), Done(missing), multiset{k})
  }

  function At(k: string, clock: nat, store: Store, calls: Calls, published: Outcomes, first: Pc, second: Pc,
              failed: multiset<string>): State
  {
    State(clock, store, [], calls, published, [Thread(k, first), Thread(k, second)],
          failed, multiset{}, failed, multiset{})
  }

  lemma MisledFirstHalf(p: Lru.Policy, k: string, obj: Object)
    ensures Act(p, Misled(k, obj, 0), 0, Misled(k, obj, 1)) && Act(p, Misled(k, obj, 1), 0, Misled(k, obj, 2))
    ensures Act(p, Misled(k, obj, 2), 0, Misled(k, obj, 3))
  {
    assert Misled(k, obj, 1) == Lookup(Misled(k, obj, 0), 0);
    assert Misled(k, obj, 2) == Enter(Misled(k, obj, 1), 0);
    assert Misled(k, obj, 3) == Recheck(Misled(k, obj, 2), 0);
  }

  lemma MisledMiddle(p: Lru.Policy, k: string, obj: Object)
    ensures Act(p, Misled(k, obj, 3), 0, Misled(k, obj, 4)) && Tick(Misled(k, obj, 4), Misled(k, obj, 5))
    ensures Act(p, Misled(k, obj, 5), 1, Misled(k, obj, 6))
  {
    assert Misled(k, obj, 4) == Read(Misled(k, obj, 3), 0);
    assert Misled(k, obj, 6) == Lookup(Misled(k, obj, 5), 1);
  }

  lemma MisledSecondHalf(p: Lru.Policy, k: string, obj: Object)
    ensures Act(p, Misled(k, obj, 6), 1, Misled(k, obj, 7)) && Act(p, Misled(k, obj, 7), 0, Misled(k, obj, 8))
    ensures Act(p, Misled(k, obj, 8), 1, Misled(k, obj, 9))
  {
    assert Misled(k, obj, 7) == Enter(Misled(k, obj, 6), 1);
    assert map[k := 0 as nat] - {k} == map[];
    assert Misled(k, obj, 8) == Publish(Misled(k, obj, 7), 0, Missing(0, 3));
    assert Misled(k, obj, 9) == Wake(Misled(k, obj, 8), 1, 0);
  }

  /** So a waiter's not-found can be false throughout its own request, whatever release is there. */
  lemma LateJoinerIsMisled(p: Lru.Policy, k: string, obj: Object) returns (run: seq<State>)
    requires p.Counted?
    ensures IsRun(p, run) && |run| == 10
    ensures |run[5].threads| == 2 && run[5].threads[1] == Thread(k, Start)
    ensures |run[9].threads| == 2 && run[9].threads[1] == Thread(k, Done(Missing(0, 3)))
    ensures forall j :: 5 <= j < 10 ==> k in run[j].store && run[j].store[k] == obj
  {
    run := seq(10, i requires 0 <= i < 10 => Misled(k, obj, i));
    forall i | 0 <= i < 9
      ensures StepAt(p, run, i)
    {
      MisledSteps(p, k, obj, i);
    }
  }

  lemma MisledSteps(p: Lru.Policy, k: string, obj: Object, i: nat)
    requires i < 9
    ensures Next(p, Misled(k, obj, i), Misled(k, obj, i + 1))
  {
    match i
    case 0 => MisledFirstHalf(p, k, obj);
    case 1 => MisledFirstHalf(p, k, obj);
    case 2 => MisledFirstHalf(p, k, obj);
    case 3 => MisledMiddle(p, k, obj);
    case 4 => MisledMiddle(p, k, obj);
    case 5 => MisledMiddle(p, k, obj);
    case _ => MisledSecondHalf(p, k, obj);
  }

  // ----- Termination -----

  function Rank(pc: Pc): nat {
    match pc
    case Idle => 0
    case Start => 7
    case Entering => 6
    case Rechecking => 5
    case Reading => 4
    case Parsing(_) => 3
    case Adding(_) => 2
    case Publishing(_) => 1
    case Waiting(_) => 1
    case Done(_) => 0
  }

  function Work(th: seq<Thread>): nat {
    if th == [] then 0 else Work(th[..|th| - 1]) + Rank(th[|th| - 1].pc)
  }

  lemma {:induction false} WorkMoves(th: seq<Thread>, t: nat, pc: Pc)
    requires t < |th|
    ensures Work(Move(th, t, pc)) + Rank(th[t].pc) == Work(th) + Rank(pc)
    decreases |th|
  {
    var n := |th| - 1;
    if t < n {
      WorkMoves(th[..n], t, pc);
      assert Move(th, t, pc)[..n] == Move(th[..n], t, pc);
    } else {
      assert Move(th, t, pc)[..n] == th[..n];
    }
  }

  lemma {:induction false} WorkIsBounded(th: seq<Thread>)
    ensures Work(th) <= 7 * |th|
  {
    if th != [] {
      WorkIsBounded(th[..|th| - 1]);
    }
  }

  /** How many steps of a run are taken by threads, rather than by time passing. */
  ghost function Acts(run: seq<State>): nat {
    if |run| <= 1 then 0
    else Acts(run[..|run| - 1]) + if Tick(run[|run| - 2], run[|run| - 1]) then 0 else 1
  }

  /** Every step of a thread uses up work, whatever fails or is evicted: n requests take at most 7n
      steps together. */
  lemma {:induction false} LoadsTerminate(p: Lru.Policy, run: seq<State>)
    requires IsRun(p, run)
    ensures Acts(run) + Work(run[|run| - 1].threads) <= Work(run[0].threads) <= 7 * |run[0].threads|
    decreases |run|
  {
    WorkIsBounded(run[0].threads);
    if |run| > 1 {
      var n := |run| - 1;
      PrefixIsRun(p, run, n);
      LoadsTerminate(p, run[..n]);
      assert StepAt(p, run, n - 1);
      NextUsesUpWork(p, run[n - 1], run[n]);
    }
  }

  lemma PrefixIsRun(p: Lru.Policy, run: seq<State>, n: nat)
    requires IsRun(p, run) && 0 < n <= |run|
    ensures IsRun(p, run[..n])
  {
    var before := run[..n];
    forall i | 0 <= i < |before| - 1
      ensures StepAt(p, before, i)
    {
      assert StepAt(p, run, i);
    }
  }

  lemma NextUsesUpWork(p: Lru.Policy, s: State, s': State)
    requires Next(p, s, s')
    ensures Work(s'.threads) + (if Tick(s, s') then 0 else 1) <= Work(s.threads)
  {
    if !Tick(s, s') {
      var t: nat :| Act(p, s, t, s');
      ProgramOrderUsesUpWork(s.threads[t].pc, s'.threads[t].pc);
      WorkMoves(s.threads, t, s'.threads[t].pc);
    }
  }

  ghost predicate CanAct(p: Lru.Policy, s: State, t: nat) {
    exists s' :: Act(p, s, t, s')
  }

  ghost predicate Unfinished(s: State, t: nat) {
    t < |s.threads| && !s.threads[t].pc.Idle? && !s.threads[t].pc.Done?
  }

  lemma UnlessWaitingCanAct(p: Lru.Policy, s: State, t: nat)
    requires Unfinished(s, t)
    requires s.threads[t].pc.Waiting? ==> s.threads[t].pc.leader in s.published
    ensures CanAct(p, s, t)
  {
    match s.threads[t].pc
    case Start => assert Act(p, s, t, Lookup(s, t));
    case Entering => assert Act(p, s, t, Enter(s, t));
    case Rechecking => assert Act(p, s, t, Recheck(s, t));
    case Reading => assert Act(p, s, t, Read(s, t));
    case Parsing(_) => ParsingCanAct(p, s, t);
    case Adding(_) => AddingCanAct(p, s, t);
    case Publishing(o) => assert Act(p, s, t, Publish(s, t, o));
    case Waiting(l) => assert Act(p, s, t, Wake(s, t, l));
  }

  lemma ParsingCanAct(p: Lru.Policy, s: State, t: nat)
    requires t < |s.threads| && s.threads[t].pc.Parsing?
    ensures CanAct(p, s, t)
  {
    var decoded := s.threads[t].pc.obj.decoded;
    if M.Loadable(decoded) {
      var m := M.LoadableLoads(decoded);
      assert Act(p, s, t, Goto(s, t, Adding(m)));
    } else {
      assert Act(p, s, t, Reject(s, t));
    }
  }

  lemma AddingCanAct(p: Lru.Policy, s: State, t: nat)
    requires t < |s.threads| && s.threads[t].pc.Adding?
    ensures CanAct(p, s, t)
  {
    assert Act(p, s, t, Add(p, s, t, s.threads[t].pc.m));
  }

  /** No deadlock: an unfinished request can step, or waits on a live leader that can. */
  lemma NoDeadlock(p: Lru.Policy, run: seq<State>, i: nat, t: nat)
    requires IsRun(p, run) && i < |run| && Unfinished(run[i], t)
    ensures CanAct(p, run[i], t)
         || (run[i].threads[t].pc.Waiting? && CanAct(p, run[i], run[i].threads[t].pc.leader)
             && run[i].threads[run[i].threads[t].pc.leader].pc.Leads())
  {
    var s := run[i];
    RunInv(p, run, i);
    assert InCall(s.threads, s.calls, s.published, t);
    if s.threads[t].pc.Waiting? && s.threads[t].pc.leader !in s.published {
      UnlessWaitingCanAct(p, s, s.threads[t].pc.leader);
    } else {
      UnlessWaitingCanAct(p, s, t);
    }
  }

  /** When no thread can step, every request is answered and no call is left in flight. */
  lemma QuietMeansFinished(p: Lru.Policy, run: seq<State>, i: nat)
    requires IsRun(p, run) && i < |run| && forall t :: !CanAct(p, run[i], t)
    ensures forall t :: !Unfinished(run[i], t)
    ensures run[i].calls == map[]
  {
    forall t | Unfinished(run[i], t)
      ensures false
    {
      NoDeadlock(p, run, i, t);
    }
    RunInv(p, run, i);
    forall k | k in run[i].calls
      ensures false
    {
      assert Unfinished(run[i], run[i].calls[k]);
    }
  }
}
