/** The whole read path: many requests, each loading its manifest through the manifest cache and its
    blob through the blob cache, in any interleaving over a store that gains keys. The two protocols
    run side by side on one store and one clock. A request passes from the first to the second when its
    manifest is loaded and its answer needs a blob. A manifest whose key passes the blob test is read
    through the blob cache too, and may leave its trace there at any step. */
module Gateway {
  import opened Wrappers
  import opened Store
  import opened Response
  import Manifest
  import Metrics
  import Site
  import StorageKeys
  import GoPath
  import opened GoText
  import Lru
  import L = LoadProtocol
  import LR = LoadRuns
  import B = BlobProtocol

  datatype Config = Config(page: Body, requests: seq<Request>, manifests: Lru.Policy, blobs: Lru.Policy)

  datatype State = State(load: L.State, blob: B.State)

  function SiteOf(c: Config, t: nat): Site.Site
    requires t < |c.requests| && Refusal(c.requests[t]).None?
  {
    Site.ParseSite(c.requests[t].path).value
  }

  ghost predicate Starts(c: Config, th: L.Thread, t: nat)
    requires t < |c.requests|
  {
    if Refusal(c.requests[t]).Some? then th.pc.Idle? else th == L.Thread(KeyOf(SiteOf(c, t)), L.Start)
  }

  ghost predicate Init(c: Config, s: State) {
    && L.Init(s.load) && B.Init(s.blob) && s.load.store == s.blob.store
    && |s.load.threads| == |s.blob.threads| == |c.requests|
    && forall t :: 0 <= t < |c.requests| ==> Starts(c, s.load.threads[t], t)
  }

  /** What request `t` will do with the manifest it has loaded. */
  function PlanOf(c: Config, t: nat, m: Manifest.Manifest): Plan
    requires t < |c.requests| && Refusal(c.requests[t]).None?
  {
    Serve(c.page, c.requests[t], SiteOf(c, t), m)
  }

  ghost predicate HasLoaded(th: L.Thread) {
    th.pc.Done? && th.pc.o.Loaded?
  }

  /** Request `t` has its manifest and needs the blob `key`. */
  ghost predicate NeedsBlob(c: Config, s: State, t: nat, key: string) {
    && t < |c.requests| && Refusal(c.requests[t]).None?
    && t < |s.load.threads| && HasLoaded(s.load.threads[t])
    && var plan := PlanOf(c, t, s.load.threads[t].pc.o.m);
       plan.Stream? && plan.key == key
  }

  /** Time passes: the store may gain keys, and manifest reads may leave their traces in the blob cache. */
  ghost predicate Elapses(c: Config, s: State, s': State) {
    L.Tick(s.load, s'.load) && B.Tick(c.blobs, s.blob, s'.blob)
  }

  ghost predicate LoadStep(c: Config, s: State, t: nat, s': State) {
    L.Act(c.manifests, s.load, t, s'.load) && B.Tick(c.blobs, s.blob, s'.blob)
  }

  ghost predicate BlobStep(c: Config, s: State, t: nat, s': State) {
    L.Tick(s.load, s'.load) && B.Act(c.blobs, s.blob, t, s'.blob)
  }

  ghost predicate Dispatch(c: Config, s: State, t: nat, key: string, s': State) {
    NeedsBlob(c, s, t, key) && L.Tick(s.load, s'.load) && B.Begin(s.blob, t, key, s'.blob)
  }

  /** Request `t` takes one step. */
  ghost predicate Proceeds(c: Config, s: State, t: nat, s': State) {
    LoadStep(c, s, t, s') || BlobStep(c, s, t, s') || exists key :: Dispatch(c, s, t, key, s')
  }

  ghost predicate Next(c: Config, s: State, s': State) {
    && s'.load.store == s'.blob.store
    && (Elapses(c, s, s') || exists t: nat :: Proceeds(c, s, t, s'))
  }

  ghost predicate StepAt(c: Config, run: seq<State>, i: int)
    requires 0 <= i < |run| - 1
  {
    Next(c, run[i], run[i + 1])
  }

  ghost predicate IsRun(c: Config, run: seq<State>) {
    && c.manifests.Counted? && c.blobs.Budgeted? && c.blobs.bytesCap >= 0
    && run != [] && Init(c, run[0])
    && forall i :: 0 <= i < |run| - 1 ==> StepAt(c, run, i)
  }

  // ----- Each protocol sees a run of its own -----

  ghost function Loads(run: seq<State>): (r: seq<L.State>)
    ensures |r| == |run| && forall i :: 0 <= i < |run| ==> r[i] == run[i].load
  {
    seq(|run|, i requires 0 <= i < |run| => run[i].load)
  }

  ghost function Blobs(run: seq<State>): (r: seq<B.State>)
    ensures |r| == |run| && forall i :: 0 <= i < |run| ==> r[i] == run[i].blob
  {
    seq(|run|, i requires 0 <= i < |run| => run[i].blob)
  }

  lemma NextProjects(c: Config, s: State, s': State)
    requires Next(c, s, s')
    ensures L.Next(c.manifests, s.load, s'.load) && B.Next(c.blobs, s.blob, s'.blob)
  {
  }

  lemma RunProjects(c: Config, run: seq<State>)
    requires IsRun(c, run)
    ensures LR.IsRun(c.manifests, Loads(run)) && B.IsRun(c.blobs, Blobs(run))
  {
    forall i | 0 <= i < |run| - 1
      ensures LR.StepAt(c.manifests, Loads(run), i) && B.StepAt(c.blobs, Blobs(run), i)
    {
      assert StepAt(c, run, i);
      NextProjects(c, run[i], run[i + 1]);
    }
  }

  /** The requests, their keys and the shared store; and a request under way in the blob cache is
      fetching the blob its loaded manifest calls for. */
  ghost predicate Linked(c: Config, s: State) {
    && s.load.store == s.blob.store
    && |s.load.threads| == |s.blob.threads| == |c.requests|
    && (forall t :: 0 <= t < |c.requests| ==> RightKey(c, s, t))
    && (forall t :: 0 <= t < |c.requests| && !s.blob.threads[t].pc.Idle? ==>
          NeedsBlob(c, s, t, s.blob.threads[t].key))
  }

  ghost predicate RightKey(c: Config, s: State, t: nat)
    requires t < |c.requests| && t < |s.load.threads|
  {
    if Refusal(c.requests[t]).Some? then s.load.threads[t].pc.Idle?
    else s.load.threads[t].key == KeyOf(SiteOf(c, t)) && !s.load.threads[t].pc.Idle?
  }

  lemma LoadStepKeepsLinked(c: Config, s: State, t: nat, s': State)
    requires Linked(c, s) && LoadStep(c, s, t, s') && s'.load.store == s'.blob.store
    ensures Linked(c, s')
  {
    forall u | 0 <= u < |c.requests|
      ensures RightKey(c, s', u)
    {
      assert RightKey(c, s, u);
    }
    forall u | 0 <= u < |c.requests| && !s'.blob.threads[u].pc.Idle?
      ensures NeedsBlob(c, s', u, s'.blob.threads[u].key)
    {
      assert NeedsBlob(c, s, u, s.blob.threads[u].key);
      assert u != t;
    }
  }

  lemma OtherStepsKeepLinked(c: Config, s: State, s': State)
    requires Linked(c, s) && s'.load.store == s'.blob.store && L.Tick(s.load, s'.load)
    requires Elapses(c, s, s') || exists t: nat :: Proceeds(c, s, t, s') && !LoadStep(c, s, t, s')
    ensures Linked(c, s')
  {
    forall u | 0 <= u < |c.requests|
      ensures RightKey(c, s', u)
    {
      assert RightKey(c, s, u);
    }
    forall u | 0 <= u < |c.requests| && !s'.blob.threads[u].pc.Idle?
      ensures NeedsBlob(c, s', u, s'.blob.threads[u].key)
    {
      if !s.blob.threads[u].pc.Idle? {
        assert NeedsBlob(c, s, u, s.blob.threads[u].key);
      }
    }
  }

  lemma {:induction false} RunIsLinked(c: Config, run: seq<State>, i: nat)
    requires IsRun(c, run) && i < |run|
    ensures Linked(c, run[i])
  {
    if i == 0 {
      forall t | 0 <= t < |c.requests|
        ensures RightKey(c, run[0], t)
      {
        assert Starts(c, run[0].load.threads[t], t);
      }
    } else {
      RunIsLinked(c, run, i - 1);
      assert StepAt(c, run, i - 1);
      NextKeepsLinked(c, run[i - 1], run[i]);
    }
  }

  lemma NextKeepsLinked(c: Config, s: State, s': State)
    requires Linked(c, s) && Next(c, s, s')
    ensures Linked(c, s')
  {
    if Elapses(c, s, s') {
      OtherStepsKeepLinked(c, s, s');
    } else {
      var t: nat :| Proceeds(c, s, t, s');
      if LoadStep(c, s, t, s') {
        LoadStepKeepsLinked(c, s, t, s');
      } else {
        OtherStepsKeepLinked(c, s, s');
      }
    }
  }

  // ----- Answers -----

  function ReadOf(o: B.Outcome): Result<Reader, ReadError> {
    match o
    case Delivery(r) => Ok(r)
    case Missing(_) => Err(NotExist)
    case Failed(e) => Err(e)
  }

  /** The answer of request `t`, once it has one. */
  ghost function AnswerOf(c: Config, s: State, t: nat): Option<Response>
    requires t < |c.requests|
  {
    if Refusal(c.requests[t]).Some? then Refusal(c.requests[t])
    else if t >= |s.load.threads| || t >= |s.blob.threads| then None
    else
      match s.load.threads[t].pc
      case Done(Loaded(m)) =>
        StreamsDocuments(c.page, c.requests[t], SiteOf(c, t), m);
        (match PlanOf(c, t, m)
         case Answer(r) => Some(r)
         case Stream(key, head) =>
           if s.blob.threads[t].pc.Done? then Some(Finish(head, ReadOf(s.blob.threads[t].pc.o))) else None)
      case Done(Missing(_, _)) => Some(RELEASE_NOT_FOUND)
      case Done(_) => Some(INTERNAL_ERROR)
      case _ => None
  }

  /** The backend, or a timeout, failed a read this request depends on. */
  ghost predicate BackendFailed(s: State, t: nat) {
    || (t < |s.load.threads| && s.load.threads[t].pc == L.Done(L.BackendError))
    || (t < |s.blob.threads| && s.blob.threads[t].pc == B.Done(B.Failed(Backend)))
  }

  lemma LoadedIsReference(c: Config, run: seq<State>, i: nat, j: nat, t: nat)
    requires IsRun(c, run) && i <= j < |run| && t < |c.requests| && Refusal(c.requests[t]).None?
    requires t < |run[i].load.threads| && HasLoaded(run[i].load.threads[t])
    ensures var k, store := KeyOf(SiteOf(c, t)), run[j].load.store;
            k in store && Manifest.LoadsTo(store[k].decoded, run[i].load.threads[t].pc.o.m)
  {
    RunProjects(c, run);
    RunIsLinked(c, run, i);
    assert RightKey(c, run[i], t);
    LR.SuccessIsCurrent(c.manifests, Loads(run), i, j, t);
  }

  /** If request `t` reads a blob that the cache would hold, the store reports its true size. */
  ghost predicate HonestRead(c: Config, s: State, t: nat, store: Store) {
    t < |s.blob.threads| && !s.blob.threads[t].pc.Idle? ==> B.HonestAt(c.blobs, store, s.blob.threads[t].key)
  }

  /** The manifest is loaded, and the blob read, if it has ended, was delivered. */
  ghost predicate Succeeded(c: Config, s: State, t: nat) {
    && t < |c.requests| && Refusal(c.requests[t]).None? && AnswerOf(c, s, t).Some?
    && t < |s.load.threads| && HasLoaded(s.load.threads[t])
    && t < |s.blob.threads| && (s.blob.threads[t].pc.Done? ==> s.blob.threads[t].pc.o.Delivery?)
  }

  lemma SuccessIsDirect(c: Config, run: seq<State>, i: nat, j: nat, t: nat)
    requires IsRun(c, run) && i <= j < |run| && Succeeded(c, run[i], t) && HonestRead(c, run[i], t, run[j].load.store)
    ensures AnswerOf(c, run[i], t)
         == Some(Direct(c.page, run[j].load.store, c.requests[t], SiteOf(c, t), run[i].load.threads[t].pc.o.m))
  {
    RunIsLinked(c, run, i);
    RunIsLinked(c, run, j);
    if PlanOf(c, t, run[i].load.threads[t].pc.o.m).Stream? {
      RunProjects(c, run);
      B.DeliveriesAreTheStores(c.blobs, Blobs(run), i, j, t);
      assert NeedsBlob(c, run[i], t, run[i].blob.threads[t].key);
    }
  }

  /** An answer made of a loaded manifest, and a blob if it needs one, is the reference answer on the
      store of every moment from `i` on. */
  lemma SuccessMatchesReference(c: Config, run: seq<State>, i: nat, j: nat, t: nat)
    requires IsRun(c, run) && i <= j < |run| && Succeeded(c, run[i], t) && HonestRead(c, run[i], t, run[j].load.store)
    ensures IsReference(c.page, run[j].load.store, c.requests[t], AnswerOf(c, run[i], t).value)
  {
    LoadedIsReference(c, run, i, j, t);
    SuccessIsDirect(c, run, i, j, t);
  }

  /** A dangling blob is dangling in the reference too, on the store as it stood at the blob read. */
  lemma DanglingMatchesReference(c: Config, run: seq<State>, i: nat, t: nat)
    requires IsRun(c, run) && i < |run|
    requires t < |c.requests| && Refusal(c.requests[t]).None?
    requires t < |run[i].blob.threads|
    requires run[i].blob.threads[t].pc.Done? && run[i].blob.threads[t].pc.o.Missing?
    ensures AnswerOf(c, run[i], t).Some? && run[i].blob.threads[t].pc.o.at < i
    ensures IsReference(c.page, run[run[i].blob.threads[t].pc.o.at].load.store, c.requests[t],
                        AnswerOf(c, run[i], t).value)
    ensures var before := run[run[i].blob.threads[t].pc.o.at].load.threads;
            t < |before| && HasLoaded(before[t])
  {
    RunProjects(c, run);
    RunIsLinked(c, run, i);
    B.MissingWasTrue(c.blobs, Blobs(run), i, t);
    var at, key := run[i].blob.threads[t].pc.o.at, run[i].blob.threads[t].key;
    RunIsLinked(c, run, at);
    assert NeedsBlob(c, run[at], t, key) && NeedsBlob(c, run[i], t, key);
    LoadedStays(c, run, at, i, t);
    LoadedIsReference(c, run, at, at, t);
    DanglingAnswer(c, run[i], t, key, run[at].load.store);
  }

  /** Where the blob is missing, the answer is the direct one. */
  lemma DanglingAnswer(c: Config, s: State, t: nat, key: string, store: Store)
    requires Linked(c, s) && NeedsBlob(c, s, t, key) && key !in store
    requires s.blob.threads[t].pc.Done? && s.blob.threads[t].pc.o.Missing?
    ensures AnswerOf(c, s, t) == Some(Direct(c.page, store, c.requests[t], SiteOf(c, t), s.load.threads[t].pc.o.m))
  {
  }

  /** A finished load keeps its result. */
  lemma {:induction false} LoadedStays(c: Config, run: seq<State>, i: nat, j: nat, t: nat)
    requires IsRun(c, run) && i <= j < |run| && t < |run[i].load.threads| && run[i].load.threads[t].pc.Done?
    ensures t < |run[j].load.threads| && run[j].load.threads[t] == run[i].load.threads[t]
  {
    if i < j {
      LoadedStays(c, run, i, j - 1, t);
      StepKeepsDone(c, run, j - 1, t);
    }
  }

  lemma StepKeepsDone(c: Config, run: seq<State>, i: nat, t: nat)
    requires IsRun(c, run) && i < |run| - 1 && t < |run[i].load.threads| && run[i].load.threads[t].pc.Done?
    ensures t < |run[i + 1].load.threads| && run[i + 1].load.threads[t] == run[i].load.threads[t]
  {
    assert StepAt(c, run, i);
    DoneStays(c, run[i], run[i + 1], t);
  }

  lemma DoneStays(c: Config, s: State, s': State, t: nat)
    requires Next(c, s, s') && t < |s.load.threads| && s.load.threads[t].pc.Done?
    ensures t < |s'.load.threads| && s'.load.threads[t] == s.load.threads[t]
  {
    if !Elapses(c, s, s') {
      var u: nat :| Proceeds(c, s, u, s');
      if LoadStep(c, s, u, s') {
        assert L.Moves(s.load, u, s'.load);
      }
    }
  }

  /** A release that was not found was absent from the store at the moment of the read. */
  lemma MissingMatchesReference(c: Config, run: seq<State>, i: nat, t: nat)
    requires IsRun(c, run) && i < |run|
    requires t < |c.requests| && Refusal(c.requests[t]).None?
    requires t < |run[i].load.threads|
    requires run[i].load.threads[t].pc.Done? && run[i].load.threads[t].pc.o.Missing?
    ensures run[i].load.threads[t].pc.o.at < i
    ensures IsReference(c.page, run[run[i].load.threads[t].pc.o.at].load.store, c.requests[t], RELEASE_NOT_FOUND)
  {
    RunProjects(c, run);
    RunIsLinked(c, run, i);
    assert RightKey(c, run[i], t);
    LR.MissingWasTrue(c.manifests, Loads(run), i, t);
  }

  lemma MalformedMatchesReference(c: Config, run: seq<State>, i: nat, t: nat)
    requires IsRun(c, run) && i < |run|
    requires t < |c.requests| && Refusal(c.requests[t]).None?
    requires t < |run[i].load.threads|
    requires run[i].load.threads[t].pc == L.Done(L.Malformed)
    ensures IsReference(c.page, run[i].load.store, c.requests[t], INTERNAL_ERROR)
  {
    RunProjects(c, run);
    RunIsLinked(c, run, i);
    assert RightKey(c, run[i], t);
    LR.RejectionIsCurrent(c.manifests, Loads(run), i, i, t);
  }

  /** The request reads a blob whose reported size is wrong, and which is small enough to be read into
      memory: too short, it fails; too long, it is answered cut off at the reported size. */
  ghost predicate Misread(c: Config, s: State, t: nat) {
    && t < |c.requests| && Refusal(c.requests[t]).None? && t < |s.load.threads| && HasLoaded(s.load.threads[t])
    && var m := s.load.threads[t].pc.o.m;
       Serve(c.page, c.requests[t], SiteOf(c, t), m).Stream? && MisreadAs(c, s, t, m)
  }

  ghost predicate MisreadAs(c: Config, s: State, t: nat, m: Manifest.Manifest)
    requires t < |c.requests| && Refusal(c.requests[t]).None? && PlanOf(c, t, m).Stream?
  {
    StreamsDocuments(c.page, c.requests[t], SiteOf(c, t), m);
    var plan, store := PlanOf(c, t, m), s.load.store;
    && B.Buffered(c.blobs, store, plan.key) && !store[plan.key].Honest()
    && var obj := store[plan.key];
       AnswerOf(c, s, t) == Some(if |obj.body| < obj.reported.value then INTERNAL_ERROR
                                 else Finish(plan.head, Ok(Reader(obj.body[..obj.reported.value], obj.reported))))
  }

  /** The backend failed a read this request depends on, and the request was answered so. */
  ghost predicate FailsWithBackend(c: Config, s: State, t: nat) {
    t < |c.requests| && BackendFailed(s, t) && AnswerOf(c, s, t) == Some(INTERNAL_ERROR)
  }

  /** The answer of request `t` is the cacheless handler's on the store as it stood at some moment
      between `f` and `i`. */
  ghost predicate ReferredTo(c: Config, run: seq<State>, f: nat, i: nat, t: nat)
    requires f <= i < |run| && t < |c.requests| && AnswerOf(c, run[i], t).Some?
  {
    exists j :: f <= j <= i && IsReference(c.page, run[j].load.store, c.requests[t], AnswerOf(c, run[i], t).value)
  }

  /** The caches are invisible. In every interleaving of any requests over a store that only gains
      keys, every answer is one that a handler without any cache gives on the store as it stood at some
      moment of the run up to then, unless the backend failed a read, or misreports the size of the
      blob. */
  lemma AnswersMatchReference(c: Config, run: seq<State>, i: nat, t: nat)
    requires IsRun(c, run) && i < |run| && t < |c.requests| && AnswerOf(c, run[i], t).Some?
    ensures FailsWithBackend(c, run[i], t) || Misread(c, run[i], t) || ReferredTo(c, run, 0, i, t)
  {
    var s := run[i];
    RunIsLinked(c, run, i);
    if Refusal(c.requests[t]).Some? {
      assert IsReference(c.page, run[i].load.store, c.requests[t], AnswerOf(c, run[i], t).value);
    } else if HasLoaded(s.load.threads[t]) {
      assert Starts(c, run[0].load.threads[t], t);
      LoadedAnswerIsCurrent(c, run, 0, i, t);
    } else if s.load.threads[t].pc.o.Missing? {
      MissingMatchesReference(c, run, i, t);
    } else if s.load.threads[t].pc.o.Malformed? {
      MalformedMatchesReference(c, run, i, t);
    }
  }

  /** The release was there before the request began, and yet the request joined a load of it whose
      leader had already read nothing, and is told that there is no such release. */
  ghost predicate JoinedTooLate(c: Config, run: seq<State>, f: nat, i: nat, t: nat)
    requires f <= i < |run| && t < |c.requests|
  {
    && Refusal(c.requests[t]).None? && KeyOf(SiteOf(c, t)) in run[f].load.store
    && AnswerOf(c, run[i], t) == Some(RELEASE_NOT_FOUND)
    && exists j :: f <= j < i && LR.Enters(Loads(run), j, t) && LR.ReadNothing(run[j].load, KeyOf(SiteOf(c, t)))
  }

  /** Answers are current. Let `f` be any moment before the request's first step. Then its answer is
      what a cacheless handler gives on the store as it stood at some moment between `f` and the answer,
      unless the backend failed a read, the request joined a load too late, or the backend misreports
      the size of the blob; and what it is then is said too. */
  lemma AnswersAreCurrent(c: Config, run: seq<State>, f: nat, i: nat, t: nat)
    requires IsRun(c, run) && f <= i < |run| && t < |c.requests| && AnswerOf(c, run[i], t).Some?
    requires Refusal(c.requests[t]).None? ==> t < |run[f].load.threads| && run[f].load.threads[t].pc.Start?
    ensures FailsWithBackend(c, run[i], t) || JoinedTooLate(c, run, f, i, t) || Misread(c, run[i], t)
         || ReferredTo(c, run, f, i, t)
  {
    RunIsLinked(c, run, i);
    if Refusal(c.requests[t]).Some? {
      assert IsReference(c.page, run[i].load.store, c.requests[t], AnswerOf(c, run[i], t).value);
    } else if HasLoaded(run[i].load.threads[t]) {
      LoadedAnswerIsCurrent(c, run, f, i, t);
    } else if run[i].load.threads[t].pc.o.Missing? {
      MissingIsCurrent(c, run, f, i, t);
    } else if run[i].load.threads[t].pc.o.Malformed? {
      MalformedMatchesReference(c, run, i, t);
    }
  }

  lemma LoadedAnswerIsCurrent(c: Config, run: seq<State>, f: nat, i: nat, t: nat)
    requires IsRun(c, run) && f <= i < |run| && t < |c.requests| && Refusal(c.requests[t]).None?
    requires Linked(c, run[i]) && AnswerOf(c, run[i], t).Some? && HasLoaded(run[i].load.threads[t])
    requires t < |run[f].load.threads| && run[f].load.threads[t].pc.Start?
    ensures FailsWithBackend(c, run[i], t) || Misread(c, run[i], t) || ReferredTo(c, run, f, i, t)
  {
    var pc := run[i].blob.threads[t].pc;
    if pc.Done? && pc.o.Missing? {
      DanglingIsCurrent(c, run, f, i, t);
    } else if pc == B.Done(B.Failed(Backend)) {
      assert NeedsBlob(c, run[i], t, run[i].blob.threads[t].key);
    } else if HonestRead(c, run[i], t, run[i].load.store) {
      HonestAnswer(c, run, i, t);
    } else {
      DishonestAnswer(c, run, i, t);
    }
  }

  lemma DanglingIsCurrent(c: Config, run: seq<State>, f: nat, i: nat, t: nat)
    requires IsRun(c, run) && f <= i < |run| && t < |c.requests| && Refusal(c.requests[t]).None?
    requires t < |run[f].load.threads| && run[f].load.threads[t].pc.Start? && AnswerOf(c, run[i], t).Some?
    requires t < |run[i].blob.threads| && run[i].blob.threads[t].pc.Done? && run[i].blob.threads[t].pc.o.Missing?
    ensures ReferredTo(c, run, f, i, t)
  {
    DanglingMatchesReference(c, run, i, t);
    var at := run[i].blob.threads[t].pc.o.at;
    if at < f {
      LoadedStays(c, run, at, f, t);
    }
  }

  lemma HonestAnswer(c: Config, run: seq<State>, i: nat, t: nat)
    requires IsRun(c, run) && i < |run| && t < |c.requests| && Refusal(c.requests[t]).None?
    requires Linked(c, run[i]) && AnswerOf(c, run[i], t).Some? && HasLoaded(run[i].load.threads[t])
    requires HonestRead(c, run[i], t, run[i].load.store)
    requires var pc := run[i].blob.threads[t].pc; pc != B.Done(B.Failed(Backend)) && !(pc.Done? && pc.o.Missing?)
    ensures IsReference(c.page, run[i].load.store, c.requests[t], AnswerOf(c, run[i], t).value)
  {
    var pc := run[i].blob.threads[t].pc;
    if pc.Done? && pc.o.Failed? {
      RunProjects(c, run);
      B.NoShortReads(c.blobs, Blobs(run), i, t);
      B.FailuresAreKnown(c.blobs, Blobs(run), i, t);
    }
    SuccessMatchesReference(c, run, i, i, t);
  }

  lemma DishonestAnswer(c: Config, run: seq<State>, i: nat, t: nat)
    requires IsRun(c, run) && i < |run| && t < |c.requests| && Refusal(c.requests[t]).None?
    requires Linked(c, run[i]) && AnswerOf(c, run[i], t).Some? && HasLoaded(run[i].load.threads[t])
    requires !HonestRead(c, run[i], t, run[i].load.store)
    requires var pc := run[i].blob.threads[t].pc; pc != B.Done(B.Failed(Backend)) && !(pc.Done? && pc.o.Missing?)
    ensures Misread(c, run[i], t)
  {
    RunProjects(c, run);
    assert NeedsBlob(c, run[i], t, run[i].blob.threads[t].key);
    B.BufferedReadsAreExact(c.blobs, Blobs(run), i, i, t);
  }

  lemma MissingIsCurrent(c: Config, run: seq<State>, f: nat, i: nat, t: nat)
    requires IsRun(c, run) && f <= i < |run| && t < |c.requests| && Refusal(c.requests[t]).None?
    requires t < |run[i].load.threads| && run[i].load.threads[t].pc.Done? && run[i].load.threads[t].pc.o.Missing?
    requires t < |run[f].load.threads| && run[f].load.threads[t].pc.Start?
    ensures AnswerOf(c, run[i], t) == Some(RELEASE_NOT_FOUND)
    ensures JoinedTooLate(c, run, f, i, t) || ReferredTo(c, run, f, i, t)
  {
    RunIsLinked(c, run, i);
    if KeyOf(SiteOf(c, t)) in run[f].load.store {
      var j := JoinedAt(c, run, f, i, t);
    } else {
      assert IsReference(c.page, run[f].load.store, c.requests[t], RELEASE_NOT_FOUND);
    }
  }

  lemma JoinedAt(c: Config, run: seq<State>, f: nat, i: nat, t: nat) returns (j: nat)
    requires IsRun(c, run) && f <= i < |run| && t < |c.requests| && Refusal(c.requests[t]).None?
    requires t < |run[i].load.threads| && run[i].load.threads[t].pc.Done? && run[i].load.threads[t].pc.o.Missing?
    requires t < |run[f].load.threads| && run[f].load.threads[t].pc.Start?
    requires KeyOf(SiteOf(c, t)) in run[f].load.store
    ensures f <= j < i && LR.Enters(Loads(run), j, t) && LR.ReadNothing(run[j].load, KeyOf(SiteOf(c, t)))
  {
    RunProjects(c, run);
    RunIsLinked(c, run, f);
    assert RightKey(c, run[f], t);
    var loads := Loads(run);
    LR.MisledIffJoinedTooLate(c.manifests, loads, f, i, t);
    j :| f <= j < i && LR.Enters(loads, j, t) && LR.ReadNothing(loads[j], loads[j].threads[t].key);
    RunIsLinked(c, run, j);
    assert RightKey(c, run[j], t);
  }

  /** The bytes answered, in every run: none for HEAD, a 304 or an error; and for any other document
      those of the built-in page, or of the blob that the answer's tag names among those of the release
      its path names. */
  lemma BodiesMatchTags(c: Config, run: seq<State>, i: nat, t: nat)
    requires IsRun(c, run) && i < |run| && t < |c.requests| && HonestRead(c, run[i], t, run[i].load.store)
    requires AnswerOf(c, run[i], t).Some?
    ensures var resp := AnswerOf(c, run[i], t).value;
            if !resp.Document? then Egress(resp) == 0
            else
              && Refusal(c.requests[t]).None? && Egress(resp) == |resp.body|
              && var s, store := SiteOf(c, t), run[i].load.store;
                 KeyOf(s) in store && Manifest.Loadable(store[KeyOf(s)].decoded)
                 && BodyMatchesTag(c.page, store, c.requests[t], s, store[KeyOf(s)].decoded.value.files.value, resp)
  {
    var resp := AnswerOf(c, run[i], t).value;
    if resp.Document? {
      RunIsLinked(c, run, i);
      assert Succeeded(c, run[i], t);
      SuccessIsDirect(c, run, i, i, t);
      LoadedIsReference(c, run, i, i, t);
      var m, store := run[i].load.threads[t].pc.o.m, run[i].load.store;
      DirectBodyMatchesTag(c.page, store, c.requests[t], SiteOf(c, t), m);
      TagIsPublished(c.page, store, c.requests[t], SiteOf(c, t), store[KeyOf(SiteOf(c, t))].decoded, m, resp);
    }
  }

  lemma TagIsPublished(page: Body, store: Store, req: Request, s: Site.Site, decoded: Option<Manifest.Raw>,
                       m: Manifest.Manifest, r: Response)
    requires r.Document? && Manifest.LoadsTo(decoded, m) && BodyMatchesTag(page, store, req, s, m.files, r)
    ensures BodyMatchesTag(page, store, req, s, decoded.value.files.value, r)
  {
    if p :| p in m.files && Tagged(store, s, m.files[p], r) {
      var files := decoded.value.files.value;
      var k :| k in files && Manifest.Strip(k) == p && m.files[p] == files[k];
      assert Tagged(store, s, files[k], r);
    }
  }

  /** What a blob read is of, in every run: a blob that the manifest its request's path names refers to;
      and it lies under that site's own prefix exactly when the site is plainly named and the blob id
      stays below the site's blobs. */
  lemma BlobReadsAreReferenced(c: Config, run: seq<State>, i: nat, t: nat)
    requires IsRun(c, run) && i < |run| && t < |c.requests|
    requires t < |run[i].blob.threads| && !run[i].blob.threads[t].pc.Idle?
    ensures Refusal(c.requests[t]).None?
    ensures var s, store, key := SiteOf(c, t), run[i].load.store, run[i].blob.threads[t].key;
            && KeyOf(s) in store && Manifest.Loadable(store[KeyOf(s)].decoded)
            && var files := store[KeyOf(s)].decoded.value.files.value;
               exists p :: p in files && key == StorageKeys.BlobKey(s.project, s.name, files[p].blob)
                 && (HasPrefix(key, StorageKeys.BlobPrefix(s.project, s.name)) <==>
                       GoPath.Plain(s.project) && GoPath.Plain(s.name)
                       && StorageKeys.Stays(s.project, s.name, files[p].blob))
  {
    RunIsLinked(c, run, i);
    var s, key := SiteOf(c, t), run[i].blob.threads[t].key;
    assert NeedsBlob(c, run[i], t, key);
    LoadedIsReference(c, run, i, i, t);
    var m := run[i].load.threads[t].pc.o.m;
    StreamedBlobIsReferenced(c.page, c.requests[t], s, m);
    var q :| q in m.files && key == StorageKeys.BlobKey(s.project, s.name, m.files[q].blob);
    var files := run[i].load.store[KeyOf(s)].decoded.value.files.value;
    var p :| p in files && m.files[q] == files[p];
    Site.ParseSiteIsExact(c.requests[t].path, s);
    StorageKeys.BlobStaysInSiteIff(s.project, s.name, files[p].blob);
  }

  /** Confinement: no blob read in any run leaves its site when the site is plainly named and the
      release's blob ids are made of plain segments, as digests are. */
  lemma BlobReadsStayInSite(c: Config, run: seq<State>, i: nat, t: nat)
    requires IsRun(c, run) && i < |run| && t < |c.requests| && Refusal(c.requests[t]).None?
    requires t < |run[i].blob.threads| && !run[i].blob.threads[t].pc.Idle?
    requires var s := SiteOf(c, t);
             && GoPath.Plain(s.project) && GoPath.Plain(s.name)
             && (KeyOf(s) in run[i].load.store ==> PlainIds(run[i].load.store[KeyOf(s)].decoded))
    ensures HasPrefix(run[i].blob.threads[t].key, StorageKeys.BlobPrefix(SiteOf(c, t).project, SiteOf(c, t).name))
  {
    var s := SiteOf(c, t);
    BlobReadsAreReferenced(c, run, i, t);
    var files := run[i].load.store[KeyOf(s)].decoded.value.files.value;
    forall p | p in files
      ensures StorageKeys.Stays(s.project, s.name, files[p].blob)
    {
      StorageKeys.PlainIdStays(s.project, s.name, files[p].blob);
    }
  }

  /** Every blob id of the release is made of plain segments. */
  ghost predicate PlainIds(decoded: Option<Manifest.Raw>) {
    decoded.Some? && decoded.value.files.Some? ==>
      forall p :: p in decoded.value.files.value ==> GoPath.AllPlain(Split(decoded.value.files.value[p].blob, '/'))
  }

  // ----- The counters -----

  function SiteKeyOf(c: Config, t: nat): Metrics.SiteKey
    requires t < |c.requests| && Refusal(c.requests[t]).None?
  {
    Metrics.SiteKey(SiteOf(c, t).project, SiteOf(c, t).name)
  }

  predicate OfSite(c: Config, t: nat, k: Metrics.SiteKey)
    requires t < |c.requests|
  {
    Refusal(c.requests[t]).None? && SiteKeyOf(c, t) == k
  }

  /** Request `t` has been counted: it has taken its first step. */
  ghost predicate Begun(c: Config, s: State, t: nat)
    requires t < |c.requests|
  {
    Refusal(c.requests[t]).None? && t < |s.load.threads| && !s.load.threads[t].pc.Start?
  }

  /** The body bytes of the answer of request `t`, once it has one. */
  ghost function EgressOf(c: Config, s: State, t: nat): nat
    requires t < |c.requests|
  {
    if AnswerOf(c, s, t).Some? then Egress(AnswerOf(c, s, t).value) else 0
  }

  ghost function BegunOf(c: Config, s: State, t: nat): nat
    requires t < |c.requests|
  {
    if Begun(c, s, t) then 1 else 0
  }

  /** How many of the first `n` requests are a site's and have begun, and the bytes of their answers. */
  ghost function BegunAt(c: Config, s: State, k: Metrics.SiteKey, n: nat): nat
    requires n <= |c.requests|
  {
    if n == 0 then 0 else BegunAt(c, s, k, n - 1) + if OfSite(c, n - 1, k) then BegunOf(c, s, n - 1) else 0
  }

  ghost function EgressAt(c: Config, s: State, k: Metrics.SiteKey, n: nat): nat
    requires n <= |c.requests|
  {
    if n == 0 then 0 else EgressAt(c, s, k, n - 1) + if OfSite(c, n - 1, k) then EgressOf(c, s, n - 1) else 0
  }

  /** What a step makes the counters do for request `t`: count it when it takes its first step, and its
      bytes when it is answered. */
  ghost function CountedFor(c: Config, s: State, s': State, t: nat, at: int): seq<Metrics.Op>
    requires t < |c.requests|
  {
    if Refusal(c.requests[t]).Some? then []
    else Metrics.OpsOf(SiteKeyOf(c, t), !Begun(c, s, t) && Begun(c, s', t), BytesEnding(c, s, s', t), at)
  }

  /** The body bytes of request `t`, if this step answers it. */
  ghost function BytesEnding(c: Config, s: State, s': State, t: nat): Option<nat>
    requires t < |c.requests|
  {
    if AnswerOf(c, s, t).None? && AnswerOf(c, s', t).Some? then Some(EgressOf(c, s', t)) else None
  }

  ghost function CountedIn(c: Config, s: State, s': State, n: nat, at: int): seq<Metrics.Op>
    requires n <= |c.requests|
  {
    if n == 0 then [] else CountedIn(c, s, s', n - 1, at) + CountedFor(c, s, s', n - 1, at)
  }

  /** When each step of a run happens, and whether a sweep, and with what time to live, follows it. */
  datatype Schedule = Schedule(at: int -> int, sweep: int -> Option<int>)

  ghost function SweepAfter(times: Schedule, i: int): seq<Metrics.Op> {
    match times.sweep(i)
    case Some(ttl) => [Metrics.Evict(ttl, times.at(i))]
    case None => []
  }

  /** Everything a run makes the counters do. */
  ghost function Log(c: Config, run: seq<State>, times: Schedule): seq<Metrics.Op> {
    if |run| <= 1 then []
    else
      var i := |run| - 2;
      Log(c, run[..i + 1], times) + CountedIn(c, run[i], run[i + 1], |c.requests|, times.at(i)) + SweepAfter(times, i)
  }

  lemma SweepsAddNothing(times: Schedule, i: int, k: Metrics.SiteKey)
    ensures Metrics.Added(SweepAfter(times, i), k) == 0 && Metrics.Requested(SweepAfter(times, i), k) == 0
  {
    if times.sweep(i).Some? {
      Metrics.Snoc([], Metrics.Evict(times.sweep(i).value, times.at(i)), k);
      assert [] + SweepAfter(times, i) == SweepAfter(times, i);
    }
  }

  lemma BlobDoneStays(c: Config, s: State, s': State, t: nat)
    requires Next(c, s, s') && t < |s.blob.threads| && s.blob.threads[t].pc.Done?
    ensures t < |s'.blob.threads| && s'.blob.threads[t] == s.blob.threads[t]
  {
    NextProjects(c, s, s');
    if u: nat :| B.Act(c.blobs, s.blob, u, s'.blob) {
      assert B.Moves(s.blob, u, s'.blob);
    }
  }

  /** An answer, once given, stands. */
  lemma AnswerStays(c: Config, s: State, s': State, t: nat)
    requires Linked(c, s) && Linked(c, s') && Next(c, s, s') && t < |c.requests| && AnswerOf(c, s, t).Some?
    ensures AnswerOf(c, s', t) == AnswerOf(c, s, t)
  {
    if Refusal(c.requests[t]).None? {
      DoneStays(c, s, s', t);
      if s.blob.threads[t].pc.Done? {
        BlobDoneStays(c, s, s', t);
      }
    }
  }

  lemma BegunStays(c: Config, s: State, s': State, t: nat)
    requires Linked(c, s) && Linked(c, s') && Next(c, s, s') && t < |c.requests| && Begun(c, s, t)
    ensures Begun(c, s', t)
  {
    if !Elapses(c, s, s') {
      var u: nat :| Proceeds(c, s, u, s');
      if LoadStep(c, s, u, s') {
        assert L.Moves(s.load, u, s'.load);
      }
    }
  }

  /** What the counters were made to do for request `t` is what changed about it. */
  ghost predicate Matches(c: Config, s: State, s': State, t: nat, at: int, k: Metrics.SiteKey)
    requires t < |c.requests|
  {
    var ops := CountedFor(c, s, s', t, at);
    && (if OfSite(c, t, k) then EgressOf(c, s', t) == EgressOf(c, s, t) + Metrics.Added(ops, k)
        else Metrics.Added(ops, k) == 0)
    && (if OfSite(c, t, k) then BegunOf(c, s', t) == BegunOf(c, s, t) + Metrics.Requested(ops, k)
        else Metrics.Requested(ops, k) == 0)
  }

  lemma EgressEnds(c: Config, s: State, s': State, t: nat)
    requires t < |c.requests| && (AnswerOf(c, s, t).Some? ==> AnswerOf(c, s', t) == AnswerOf(c, s, t))
    ensures EgressOf(c, s', t) == EgressOf(c, s, t)
                                  + if BytesEnding(c, s, s', t).Some? then BytesEnding(c, s, s', t).value else 0
  {
  }

  lemma CountsFor(c: Config, s: State, s': State, t: nat, at: int, k: Metrics.SiteKey)
    requires Linked(c, s) && Linked(c, s') && Next(c, s, s') && t < |c.requests|
    ensures Matches(c, s, s', t, at, k)
  {
    if AnswerOf(c, s, t).Some? {
      AnswerStays(c, s, s', t);
    }
    if Begun(c, s, t) {
      BegunStays(c, s, s', t);
    }
    EgressEnds(c, s, s', t);
    MatchesIf(c, s, s', t, at, k);
  }

  lemma MatchesIf(c: Config, s: State, s': State, t: nat, at: int, k: Metrics.SiteKey)
    requires t < |c.requests| && (Begun(c, s, t) ==> Begun(c, s', t))
    requires EgressOf(c, s', t) == EgressOf(c, s, t)
                                   + if BytesEnding(c, s, s', t).Some? then BytesEnding(c, s, s', t).value else 0
    ensures Matches(c, s, s', t, at, k)
  {
    if Refusal(c.requests[t]).None? {
      Metrics.OpsOfCount(SiteKeyOf(c, t), !Begun(c, s, t) && Begun(c, s', t), BytesEnding(c, s, s', t), at, k);
    }
  }

  lemma {:induction false} EgressIn(c: Config, s: State, s': State, n: nat, at: int, k: Metrics.SiteKey)
    requires n <= |c.requests| && forall t :: 0 <= t < n ==> Matches(c, s, s', t, at, k)
    ensures EgressAt(c, s', k, n) == EgressAt(c, s, k, n) + Metrics.Added(CountedIn(c, s, s', n, at), k)
  {
    if n > 0 {
      EgressIn(c, s, s', n - 1, at, k);
      assert Matches(c, s, s', n - 1, at, k);
      Metrics.AddedAppend(CountedIn(c, s, s', n - 1, at), CountedFor(c, s, s', n - 1, at), k);
    }
  }

  lemma {:induction false} BegunIn(c: Config, s: State, s': State, n: nat, at: int, k: Metrics.SiteKey)
    requires n <= |c.requests| && forall t :: 0 <= t < n ==> Matches(c, s, s', t, at, k)
    ensures BegunAt(c, s', k, n) == BegunAt(c, s, k, n) + Metrics.Requested(CountedIn(c, s, s', n, at), k)
  {
    if n > 0 {
      BegunIn(c, s, s', n - 1, at, k);
      assert Matches(c, s, s', n - 1, at, k);
      Metrics.RequestedAppend(CountedIn(c, s, s', n - 1, at), CountedFor(c, s, s', n - 1, at), k);
    }
  }

  lemma StepCounts(c: Config, s: State, s': State, at: int, k: Metrics.SiteKey)
    requires Linked(c, s) && Linked(c, s') && Next(c, s, s')
    ensures var n, ops := |c.requests|, CountedIn(c, s, s', |c.requests|, at);
            && EgressAt(c, s', k, n) == EgressAt(c, s, k, n) + Metrics.Added(ops, k)
            && BegunAt(c, s', k, n) == BegunAt(c, s, k, n) + Metrics.Requested(ops, k)
  {
    forall t | 0 <= t < |c.requests|
      ensures Matches(c, s, s', t, at, k)
    {
      CountsFor(c, s, s', t, at, k);
    }
    EgressIn(c, s, s', |c.requests|, at, k);
    BegunIn(c, s, s', |c.requests|, at, k);
  }

  lemma {:induction false} NothingCounted(c: Config, s: State, k: Metrics.SiteKey, n: nat)
    requires Init(c, s) && n <= |c.requests|
    ensures EgressAt(c, s, k, n) == 0 && BegunAt(c, s, k, n) == 0
  {
    if n > 0 {
      NothingCounted(c, s, k, n - 1);
      assert Starts(c, s.load.threads[n - 1], n - 1);
    }
  }

  lemma {:induction false} LogCounts(c: Config, run: seq<State>, times: Schedule, k: Metrics.SiteKey)
    requires IsRun(c, run)
    ensures var s, n := run[|run| - 1], |c.requests|;
            && Metrics.Added(Log(c, run, times), k) == EgressAt(c, s, k, n)
            && Metrics.Requested(Log(c, run, times), k) == BegunAt(c, s, k, n)
    decreases |run|
  {
    if |run| == 1 {
      NothingCounted(c, run[0], k, |c.requests|);
    } else {
      var i := |run| - 2;
      var counted, swept := CountedIn(c, run[i], run[i + 1], |c.requests|, times.at(i)), SweepAfter(times, i);
      PrefixIsRun(c, run, i + 1);
      LogCounts(c, run[..i + 1], times, k);
      RunIsLinked(c, run, i);
      RunIsLinked(c, run, i + 1);
      assert StepAt(c, run, i);
      StepCounts(c, run[i], run[i + 1], times.at(i), k);
      SweepsAddNothing(times, i, k);
      Metrics.AddedAppend(Log(c, run[..i + 1], times), counted, k);
      Metrics.AddedAppend(Log(c, run[..i + 1], times) + counted, swept, k);
      Metrics.RequestedAppend(Log(c, run[..i + 1], times), counted, k);
      Metrics.RequestedAppend(Log(c, run[..i + 1], times) + counted, swept, k);
    }
  }

  /** Metering is exact under concurrency: after any run, with sweeps at any moments, the counters of a
      site, and what sweeps dropped of them, are the number of its requests under way or answered and the
      body bytes of their answers. */
  lemma CountersMatchAnswers(c: Config, run: seq<State>, times: Schedule, k: Metrics.SiteKey)
    requires IsRun(c, run)
    ensures var s, log := run[|run| - 1], Log(c, run, times);
            && Metrics.Count(Metrics.Run(log).bytes, k) + Metrics.Dropped(log, k) == EgressAt(c, s, k, |c.requests|)
            && Metrics.Count(Metrics.Run(log).requests, k) + Metrics.RequestsDropped(log, k)
               == BegunAt(c, s, k, |c.requests|)
  {
    LogCounts(c, run, times, k);
    Metrics.BytesAreConserved(Log(c, run, times), k);
    Metrics.RequestsAreConserved(Log(c, run, times), k);
  }

  /** How many of the first `n` requests name the site. */
  function RequestsOf(c: Config, k: Metrics.SiteKey, n: nat): nat
    requires n <= |c.requests|
  {
    if n == 0 then 0 else RequestsOf(c, k, n - 1) + if OfSite(c, n - 1, k) then 1 else 0
  }

  ghost predicate AllAnswered(c: Config, s: State) {
    forall t :: 0 <= t < |c.requests| ==> AnswerOf(c, s, t).Some?
  }

  lemma {:induction false} AllBegun(c: Config, s: State, k: Metrics.SiteKey, n: nat)
    requires n <= |c.requests| && AllAnswered(c, s)
    ensures BegunAt(c, s, k, n) == RequestsOf(c, k, n)
  {
    if n > 0 {
      AllBegun(c, s, k, n - 1);
      assert AnswerOf(c, s, n - 1).Some?;
    }
  }

  /** The bytes of the documents that the first `n` requests have been answered with, for a site. */
  ghost function BodyBytes(c: Config, s: State, k: Metrics.SiteKey, n: nat): nat
    requires n <= |c.requests|
  {
    if n == 0 then 0
    else BodyBytes(c, s, k, n - 1) + if OfSite(c, n - 1, k) then BodyLength(AnswerOf(c, s, n - 1)) else 0
  }

  function BodyLength(answer: Option<Response>): nat {
    match answer
    case Some(Document(_, _, _, _, _, _, _, body)) => |body|
    case _ => 0
  }

  lemma {:induction false} EgressIsBodies(c: Config, s: State, k: Metrics.SiteKey, n: nat)
    requires n <= |c.requests|
    ensures EgressAt(c, s, k, n) == BodyBytes(c, s, k, n)
  {
    if n > 0 {
      EgressIsBodies(c, s, k, n - 1);
    }
  }

  /** And when every request is answered, the counters of a site, and what sweeps dropped of them, are the
      number of requests whose paths name it, and the bytes of the documents they were answered with. */
  lemma CountersAtTheEnd(c: Config, run: seq<State>, times: Schedule, k: Metrics.SiteKey)
    requires IsRun(c, run) && AllAnswered(c, run[|run| - 1])
    ensures var s, log := run[|run| - 1], Log(c, run, times);
            && Metrics.Count(Metrics.Run(log).requests, k) + Metrics.RequestsDropped(log, k)
               == RequestsOf(c, k, |c.requests|)
            && Metrics.Count(Metrics.Run(log).bytes, k) + Metrics.Dropped(log, k) == BodyBytes(c, s, k, |c.requests|)
  {
    CountersMatchAnswers(c, run, times, k);
    AllBegun(c, run[|run| - 1], k, |c.requests|);
    EgressIsBodies(c, run[|run| - 1], k, |c.requests|);
  }

  lemma PrefixIsRun(c: Config, run: seq<State>, n: nat)
    requires IsRun(c, run) && 0 < n <= |run|
    ensures IsRun(c, run[..n])
  {
    var before := run[..n];
    forall i | 0 <= i < |before| - 1
      ensures StepAt(c, before, i)
    {
      assert StepAt(c, run, i);
    }
  }

  // ----- Every request is answered -----

  /** Some request can take a step, or pass from its manifest to its blob. */
  ghost predicate CanProceed(c: Config, s: State) {
    exists s', t: nat :: Proceeds(c, s, t, s') && s'.load.store == s'.blob.store
  }

  lemma LoadCanProceed(c: Config, s: State, t: nat)
    requires s.load.store == s.blob.store && LR.CanAct(c.manifests, s.load, t)
    ensures CanProceed(c, s)
  {
    var load :| L.Act(c.manifests, s.load, t, load);
    assert L.Moves(s.load, t, load);
    var s' := State(load, s.blob.(clock := s.blob.clock + 1));
    assert B.Tick(c.blobs, s.blob, s'.blob);
    assert LoadStep(c, s, t, s') && Proceeds(c, s, t, s');
  }

  lemma BlobCanProceed(c: Config, s: State, t: nat)
    requires s.load.store == s.blob.store && B.CanAct(c.blobs, s.blob, t)
    ensures CanProceed(c, s)
  {
    var blob :| B.Act(c.blobs, s.blob, t, blob);
    assert B.Moves(s.blob, t, blob);
    var s' := State(s.load.(clock := s.load.clock + 1), blob);
    assert L.Tick(s.load, s'.load);
    assert BlobStep(c, s, t, s') && Proceeds(c, s, t, s');
  }

  lemma DispatchCanProceed(c: Config, s: State, t: nat, key: string)
    requires Linked(c, s) && NeedsBlob(c, s, t, key) && s.blob.threads[t].pc.Idle?
    ensures CanProceed(c, s)
  {
    var blob := s.blob.(clock := s.blob.clock + 1, threads := s.blob.threads[t := B.Thread(key, B.Looking)]);
    var s' := State(s.load.(clock := s.load.clock + 1), blob);
    assert L.Tick(s.load, s'.load) && B.Begin(s.blob, t, key, blob);
    assert Dispatch(c, s, t, key, s') && Proceeds(c, s, t, s');
  }

  /** No deadlock: while some request has no answer, some request can proceed. */
  lemma UnansweredMeansProgress(c: Config, run: seq<State>, i: nat, t: nat)
    requires IsRun(c, run) && i < |run| && t < |c.requests|
    requires AnswerOf(c, run[i], t).None?
    ensures CanProceed(c, run[i])
  {
    var s := run[i];
    RunIsLinked(c, run, i);
    RunProjects(c, run);
    assert RightKey(c, s, t);
    if !s.load.threads[t].pc.Done? {
      LR.NoDeadlock(c.manifests, Loads(run), i, t);
      if LR.CanAct(c.manifests, s.load, t) {
        LoadCanProceed(c, s, t);
      } else {
        LoadCanProceed(c, s, s.load.threads[t].pc.leader);
      }
    } else {
      var key := PlanOf(c, t, s.load.threads[t].pc.o.m).key;
      assert NeedsBlob(c, s, t, key);
      if s.blob.threads[t].pc.Idle? {
        DispatchCanProceed(c, s, t, key);
      } else {
        B.GetsFinish(c.blobs, s.blob, t);
        BlobCanProceed(c, s, t);
      }
    }
  }

  function BlobWork(th: seq<B.Thread>): nat {
    if th == [] then 0 else BlobWork(th[..|th| - 1]) + B.Rank(th[|th| - 1].pc)
  }

  lemma {:induction false} BlobWorkMoves(th: seq<B.Thread>, t: nat, next: B.Thread)
    requires t < |th|
    ensures BlobWork(th[t := next]) + B.Rank(th[t].pc) == BlobWork(th) + B.Rank(next.pc)
    decreases |th|
  {
    var n := |th| - 1;
    if t < n {
      BlobWorkMoves(th[..n], t, next);
      assert th[t := next][..n] == th[..n][t := next];
    } else {
      assert th[t := next][..n] == th[..n];
    }
  }

  lemma {:induction false} BlobWorkIsBounded(th: seq<B.Thread>)
    ensures BlobWork(th) <= 5 * |th|
  {
    if th != [] {
      BlobWorkIsBounded(th[..|th| - 1]);
    }
  }

  function WorkLeft(s: State): nat {
    LR.Work(s.load.threads) + BlobWork(s.blob.threads)
  }

  ghost function StepCost(c: Config, s: State, s': State): nat {
    if Elapses(c, s, s') then 0 else 1
  }

  /** How many steps of a run are taken by requests, rather than by time passing. */
  ghost function Steps(c: Config, run: seq<State>): nat {
    if |run| <= 1 then 0
    else Steps(c, run[..|run| - 1]) + StepCost(c, run[|run| - 2], run[|run| - 1])
  }

  lemma NextUsesUpWork(c: Config, s: State, s': State)
    requires c.blobs.Budgeted? && Next(c, s, s')
    ensures WorkLeft(s') + StepCost(c, s, s') <= WorkLeft(s)
  {
    if !Elapses(c, s, s') {
      var t: nat :| Proceeds(c, s, t, s');
      if LoadStep(c, s, t, s') {
        LR.ProgramOrderUsesUpWork(s.load.threads[t].pc, s'.load.threads[t].pc);
        LR.WorkMoves(s.load.threads, t, s'.load.threads[t].pc);
      } else if BlobStep(c, s, t, s') {
        BlobProgramOrder(s.blob.threads[t].pc, s'.blob.threads[t].pc);
        BlobWorkMoves(s.blob.threads, t, s'.blob.threads[t]);
      } else {
        var key :| Dispatch(c, s, t, key, s');
        BlobWorkMoves(s.blob.threads, t, B.Thread(key, B.Looking));
      }
    }
  }

  lemma BlobProgramOrder(a: B.Pc, b: B.Pc)
    requires B.Precedes(a, b)
    ensures B.Rank(b) < B.Rank(a)
  {
  }

  /** n requests take at most 12n steps together, whatever fails or is evicted. */
  lemma {:induction false} RequestsTerminate(c: Config, run: seq<State>)
    requires IsRun(c, run)
    ensures Steps(c, run) + WorkLeft(run[|run| - 1]) <= 12 * |c.requests|
    decreases |run|
  {
    if |run| == 1 {
      WorkAtStart(c, run[0]);
    } else {
      var n := |run| - 1;
      PrefixIsRun(c, run, n);
      RequestsTerminate(c, run[..n]);
      StepUsesUpWork(c, run, n - 1);
      assert run[..n][n - 1] == run[n - 1];
    }
  }

  lemma WorkAtStart(c: Config, s: State)
    requires Init(c, s)
    ensures WorkLeft(s) <= 12 * |c.requests|
  {
    LR.WorkIsBounded(s.load.threads);
    BlobWorkIsBounded(s.blob.threads);
  }

  lemma StepUsesUpWork(c: Config, run: seq<State>, i: nat)
    requires IsRun(c, run) && i < |run| - 1
    ensures WorkLeft(run[i + 1]) + StepCost(c, run[i], run[i + 1]) <= WorkLeft(run[i])
  {
    assert StepAt(c, run, i);
    NextUsesUpWork(c, run[i], run[i + 1]);
  }
}
