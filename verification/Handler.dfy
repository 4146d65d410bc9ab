/** The handler itself (internal/server/server.go), one request at a time, over the real caches and
    counters: `loadManifest`, `ServeHTTP` and what they call, proved to answer as the cacheless
    reference does and to count exactly the bytes it sends. `backend` is the object store behind the
    caches as it stands during the request; `faults` says which of its reads fail. */
module Handler {
  import opened Wrappers
  import opened Store
  import opened Response
  import MC = ManifestCache
  import BC = BlobCache
  import Metrics
  import Manifest
  import Site
  import Lru
  import L = LoadProtocol
  import B = BlobProtocol
  import LruInclusion
  import StorageKeys

  /** Which reads of the backend fail, if they are made: that of the manifest, and that of the blob, at
      once or after `cut` bytes. */
  datatype Faults = Faults(manifest: bool, blob: bool, cut: Option<nat>) {
    predicate Any() {
      manifest || blob || cut.Some?
    }
  }

  class Handler {
    const page: Body  // the built-in 404 document
    const cache: MC.ManifestCache
    const store: BC.CachingStore
    const caching: bool  // with no budget for blobs the backend is used unwrapped
    const metrics: Metrics.Metrics

    ghost predicate Valid()
      reads this, cache, cache.ll, cache.ll.repr, store, store.cache, store.cache.ll, store.cache.ll.repr
    {
      cache.Valid() && store.Valid()
    }

    /** Both caches hold only what the backend holds. */
    ghost predicate Current(backend: Store)
      reads this, cache, cache.ll, store, store.cache, store.cache.ll
    {
      && L.SoundCache(cache.Policy(), backend, cache.Contents())
      && B.SoundCache(store.Policy(), backend, store.cache.Contents())
    }

    constructor (page: Body, manifests: int, manifestBytes: int, blobBytes: int, maxBlobBytes: int)
      ensures Valid() && forall backend :: Current(backend)
      ensures fresh(cache) && fresh(cache.ll) && fresh(cache.ll.repr)
      ensures fresh(store) && fresh(store.cache) && fresh(store.cache.ll) && fresh(store.cache.ll.repr)
      ensures this.page == page && fresh(metrics) && metrics.Value() == Metrics.NO_SERIES
      ensures cache.Policy() == Lru.Counted(if manifests <= 0 then 1024 else manifests,
                                            if manifestBytes < 0 then 0 else manifestBytes)
      ensures caching <==> blobBytes > 0
      ensures caching ==>
        store.Policy() == Lru.Budgeted(blobBytes, if maxBlobBytes <= 0 then 1048576 else maxBlobBytes)
    {
      this.page := page;
      this.cache := new MC.ManifestCache(if manifests <= 0 then 1024 else manifests, manifestBytes);
      this.store := new BC.CachingStore(if blobBytes > 0 then blobBytes else 1, maxBlobBytes);
      this.caching := blobBytes > 0;
      this.metrics := new Metrics.Metrics();
    }

    /** The first lookup and the leader's re-check. */
    method Cached(key: string, backend: Store) returns (hit: Option<Manifest.Manifest>)
      requires cache.Valid() && L.SoundCache(cache.Policy(), backend, cache.Contents())
      modifies cache, cache.ll, cache.ll.repr
      ensures cache.Valid() && L.SoundCache(cache.Policy(), backend, cache.Contents())
      ensures cache.ll.repr == old(cache.ll.repr)
      ensures hit.Some? ==> key in backend && Manifest.LoadsTo(backend[key].decoded, hit.value)
      ensures hit.Some? <==> Lru.Has(old(cache.Contents()), key)
      ensures cache.Contents() == if hit.Some? then Lru.Touch(old(cache.Contents()), key) else old(cache.Contents())
    {
      hit := Lookup(key, backend);
      if hit.None? {
        hit := Lookup(key, backend);
      }
    }

    method Lookup(key: string, backend: Store) returns (hit: Option<Manifest.Manifest>)
      requires cache.Valid() && L.SoundCache(cache.Policy(), backend, cache.Contents())
      modifies cache, cache.ll, cache.ll.repr
      ensures cache.Valid() && L.SoundCache(cache.Policy(), backend, cache.Contents())
      ensures cache.ll.repr == old(cache.ll.repr)
      ensures hit.Some? ==> key in backend && Manifest.LoadsTo(backend[key].decoded, hit.value)
      ensures hit.Some? <==> Lru.Has(old(cache.Contents()), key)
      ensures cache.Contents() == if hit.Some? then Lru.Touch(old(cache.Contents()), key) else old(cache.Contents())
    {
      if Lru.Has(cache.Contents(), key) {
        L.CacheHitIsTruthful(cache.Policy(), backend, cache.Contents(), key);
        L.TouchKeepsSound(cache.Policy(), backend, cache.Contents(), key);
      }
      hit := cache.Get(key);
    }

    /** Read, parse, and cache. */
    method Fetch(key: string, backend: Store, faults: Faults) returns (r: Result<Manifest.Manifest, Response>)
      requires cache.Valid() && L.SoundCache(cache.Policy(), backend, cache.Contents())
      modifies cache, cache.ll, cache.ll.repr
      ensures cache.Valid() && L.SoundCache(cache.Policy(), backend, cache.Contents())
      ensures fresh(cache.ll.repr - old(cache.ll.repr))
      ensures if faults.manifest then r == Err(INTERNAL_ERROR) else Found(backend, key, r)
      ensures cache.Contents() == Loaded(cache.Policy(), old(cache.Contents()), key, r)
    {
      if faults.manifest {
        return Err(INTERNAL_ERROR);
      }
      if key !in backend {
        return Err(RELEASE_NOT_FOUND);
      }
      var loaded := Parse(backend[key].decoded);
      if loaded.None? {
        return Err(INTERNAL_ERROR);
      }
      var m := loaded.value;
      L.InsertKeepsSound(cache.Policy(), backend, cache.Contents(), Lru.Entry(key, m, m.approxBytes));
      cache.Add(key, m);
      return Ok(m);
    }

    static method Parse(decoded: Option<Manifest.Raw>) returns (m: Option<Manifest.Manifest>)
      ensures m.Some? <==> Manifest.Loadable(decoded)
      ensures m.Some? ==> Manifest.LoadsTo(decoded, m.value)
    {
      var loaded := Manifest.Load(decoded);
      m := if loaded.Ok? then Some(loaded.value) else None;
    }

    /** A cached manifest, or a fresh one: the leader's path through `loadManifest`. The backend is
        read exactly on a miss, and the cache changes as the demand traces of LruInclusion say. */
    method LoadManifest(s: Site.Site, backend: Store, faults: Faults)
      returns (r: Result<Manifest.Manifest, Response>, fetched: bool)
      requires cache.Valid() && L.SoundCache(cache.Policy(), backend, cache.Contents())
      modifies cache, cache.ll, cache.ll.repr
      ensures cache.Valid() && L.SoundCache(cache.Policy(), backend, cache.Contents())
      ensures fresh(cache.ll.repr - old(cache.ll.repr))
      ensures if fetched && faults.manifest then r == Err(INTERNAL_ERROR) else Found(backend, KeyOf(s), r)
      ensures fetched <==> !Lru.Has(old(cache.Contents()), KeyOf(s))
      ensures cache.Contents() == AfterLoad(cache.Policy(), old(cache.Contents()), KeyOf(s), r)
    {
      var hit := Cached(KeyOf(s), backend);
      if hit.Some? {
        return Ok(hit.value), false;
      }
      r := Fetch(KeyOf(s), backend, faults);
      fetched := true;
    }

    /** Stream a blob, through the blob cache if there is one: a cached blob is served even if the
        backend fails. */
    method ReadBlob(key: string, backend: Store, faults: Faults) returns (r: Result<Reader, ReadError>)
      requires store.Valid() && B.SoundCache(store.Policy(), backend, store.cache.Contents())
      requires B.HonestAt(store.Policy(), backend, key)
      modifies store.cache, store.cache.ll, store.cache.ll.repr
      ensures store.Valid() && B.SoundCache(store.Policy(), backend, store.cache.Contents())
      ensures fresh(store.cache.ll.repr - old(store.cache.ll.repr))
      ensures r == if ReadFails(caching, store.Policy(), old(store.cache.Contents()), backend, faults, key)
                   then Err(ReadError.Backend) else ReadStore(backend, key)
      ensures store.cache.Contents() ==
        AfterRead(caching, store.Policy(), old(store.cache.Contents()), backend, faults, key)
    {
      var answer := BackendAnswer(backend, faults.blob, key);
      if !caching {
        r := if answer.Err? then Err(answer.error) else Ok(Reader(answer.value.body, answer.value.reported));
        return;
      }
      GetIsTransparent(store.Policy(), backend, store.cache.Contents(), key, faults);
      var asked;
      r, asked := store.Get(key, answer, faults.cut);
    }

    /** Loading a manifest leaves the blob cache alone. */
    method Load(s: Site.Site, backend: Store, faults: Faults) returns (r: Result<Manifest.Manifest, Response>)
      requires Valid() && Current(backend)
      modifies cache, cache.ll, cache.ll.repr
      ensures Valid() && Current(backend) && fresh(cache.ll.repr - old(cache.ll.repr))
      ensures FoundUnless(faults.Any(), backend, KeyOf(s), r)
      ensures cache.Contents() == AfterLoad(cache.Policy(), old(cache.Contents()), KeyOf(s), r)
      ensures store.cache.Contents() == old(store.cache.Contents())
    {
      var fetched;
      r, fetched := LoadManifest(s, backend, faults);
    }

    /** Reading a blob leaves the manifest cache alone. */
    method Read(key: string, backend: Store, faults: Faults) returns (r: Result<Reader, ReadError>)
      requires Valid() && Current(backend) && B.HonestAt(store.Policy(), backend, key)
      modifies store.cache, store.cache.ll, store.cache.ll.repr
      ensures Valid() && Current(backend) && fresh(store.cache.ll.repr - old(store.cache.ll.repr))
      ensures r == ReadStore(backend, key) || (faults.Any() && r == Err(ReadError.Backend))
      ensures store.cache.Contents() ==
        AfterRead(caching, store.Policy(), old(store.cache.Contents()), backend, faults, key)
    {
      r := ReadBlob(key, backend, faults);
    }

    /** The error answer, or `serveBlob` and `serveNotFound`: answer from the manifest, or stream the
        blob. */
    method Respond(req: Request, s: Site.Site, loaded: Result<Manifest.Manifest, Response>, backend: Store,
                   faults: Faults)
      returns (resp: Response)
      requires Valid() && Current(backend)
      requires HonestReply(page, store.Policy(), backend, req, s)
      requires FoundUnless(faults.Any(), backend, KeyOf(s), loaded)
      modifies store.cache, store.cache.ll, store.cache.ll.repr
      ensures Valid() && Current(backend) && fresh(store.cache.ll.repr - old(store.cache.ll.repr))
      ensures AnswersUnless(faults.Any(), page, backend, req, s, loaded, resp)
      ensures store.cache.Contents() ==
        AfterRespond(page, caching, store.Policy(), old(store.cache.Contents()), backend, faults, req, s, loaded)
      ensures cache.Contents() == old(cache.Contents())
    {
      if loaded.Err? {
        return loaded.error;
      }
      HonestWhenLoaded(page, store.Policy(), backend, req, s, faults.Any(), loaded);
      var plan := Serve(page, req, s, loaded.value);
      StreamsDocuments(page, req, s, loaded.value);
      if plan.Answer? {
        return plan.response;
      }
      var read := Read(plan.key, backend, faults);
      resp := Finish(plan.head, read);
    }

    /** What follows once the request names a site: load the manifest and answer from it. */
    method Handle(req: Request, s: Site.Site, backend: Store, faults: Faults)
      returns (resp: Response, loaded: Result<Manifest.Manifest, Response>)
      requires Valid() && Current(backend) && HonestReply(page, store.Policy(), backend, req, s)
      modifies cache, cache.ll, cache.ll.repr, store.cache, store.cache.ll, store.cache.ll.repr
      ensures Valid() && Current(backend)
      ensures fresh(cache.ll.repr - old(cache.ll.repr)) && fresh(store.cache.ll.repr - old(store.cache.ll.repr))
      ensures FoundUnless(faults.Any(), backend, KeyOf(s), loaded)
      ensures AnswersUnless(faults.Any(), page, backend, req, s, loaded, resp)
      ensures cache.Contents() == AfterLoad(cache.Policy(), old(cache.Contents()), KeyOf(s), loaded)
      ensures store.cache.Contents() ==
        AfterRespond(page, caching, store.Policy(), old(store.cache.Contents()), backend, faults, req, s, loaded)
    {
      loaded := Load(s, backend, faults);
      resp := Respond(req, s, loaded, backend, faults);
    }

    /** Counting leaves the caches alone. */
    method CountRequest(k: Metrics.SiteKey, backend: Store, now: int)
      requires Valid() && Current(backend)
      modifies metrics
      ensures Valid() && Current(backend)
      ensures unchanged(cache, cache.ll, store.cache, store.cache.ll)
      ensures metrics.Value() == Metrics.Observe(old(metrics.Value()), k, now)
    {
      metrics.ObserveRequest(k, now);
    }

    method CountBytes(k: Metrics.SiteKey, n: nat, backend: Store, end: int)
      requires Valid() && Current(backend)
      modifies metrics
      ensures Valid() && Current(backend)
      ensures unchanged(cache, cache.ll, store.cache, store.cache.ll)
      ensures metrics.Value() == Metrics.AddBytes(old(metrics.Value()), k, n, end)
    {
      metrics.AddResponseBytes(k, n, end);
    }

    /** Handle a site's request and count the bytes answered. */
    method HandleMetered(req: Request, s: Site.Site, backend: Store, faults: Faults, end: int)
      returns (resp: Response, loaded: Result<Manifest.Manifest, Response>)
      requires Valid() && Current(backend) && HonestReply(page, store.Policy(), backend, req, s)
      modifies metrics, cache, cache.ll, cache.ll.repr, store.cache, store.cache.ll, store.cache.ll.repr
      ensures Valid() && Current(backend)
      ensures fresh(cache.ll.repr - old(cache.ll.repr)) && fresh(store.cache.ll.repr - old(store.cache.ll.repr))
      ensures FoundUnless(faults.Any(), backend, KeyOf(s), loaded)
      ensures AnswersUnless(faults.Any(), page, backend, req, s, loaded, resp)
      ensures metrics.Value() ==
        Metrics.AddBytes(old(metrics.Value()), Metrics.SiteKey(s.project, s.name), Egress(resp), end)
    {
      resp, loaded := Handle(req, s, backend, faults);
      CountBytes(Metrics.SiteKey(s.project, s.name), Egress(resp), backend, end);
    }

    /** Count the request, handle it, and count the bytes answered. */
    method HandleCounted(req: Request, s: Site.Site, backend: Store, faults: Faults, now: int, end: int)
      returns (resp: Response, loaded: Result<Manifest.Manifest, Response>)
      requires Valid() && Current(backend) && HonestReply(page, store.Policy(), backend, req, s)
      modifies metrics, cache, cache.ll, cache.ll.repr, store.cache, store.cache.ll, store.cache.ll.repr
      ensures Valid() && Current(backend)
      ensures fresh(cache.ll.repr - old(cache.ll.repr)) && fresh(store.cache.ll.repr - old(store.cache.ll.repr))
      ensures FoundUnless(faults.Any(), backend, KeyOf(s), loaded)
      ensures AnswersUnless(faults.Any(), page, backend, req, s, loaded, resp)
      ensures metrics.Value() == Counted(old(metrics.Value()), s, Egress(resp), now, end)
    {
      CountRequest(Metrics.SiteKey(s.project, s.name), backend, now);
      resp, loaded := HandleMetered(req, s, backend, faults, end);
    }

    /** One request from start to end: the answer is the cacheless reference's, or an internal error
        if the backend fails; both caches stay true to the backend; and the counters of its site
        gain one request and exactly the bytes answered.
        The request arrives at `now` and its answer is complete at `end`. */
    method ServeHTTP(req: Request, backend: Store, faults: Faults, now: int, end: int) returns (resp: Response)
      requires Valid() && Current(backend)
      requires Refusal(req).None? ==> HonestReply(page, store.Policy(), backend, req, Site.ParseSite(req.path).value)
      modifies metrics, cache, cache.ll, cache.ll.repr, store.cache, store.cache.ll, store.cache.ll.repr
      ensures Valid() && Current(backend)
      ensures fresh(cache.ll.repr - old(cache.ll.repr)) && fresh(store.cache.ll.repr - old(store.cache.ll.repr))
      ensures IsReference(page, backend, req, resp) || (faults.Any() && resp == INTERNAL_ERROR)
      ensures metrics.Value() ==
        if Refusal(req).Some? then old(metrics.Value())
        else Counted(old(metrics.Value()), Site.ParseSite(req.path).value, Egress(resp), now, end)
      ensures Refusal(req).None? ==>
        var s := Site.ParseSite(req.path).value;
        CountsOne(old(metrics.Value()), metrics.Value(), Metrics.SiteKey(s.project, s.name), Egress(resp), now, end)
    {
      var refusal := Refusal(req);
      if refusal.Some? {
        return refusal.value;
      }
      var s := Site.ParseSite(req.path).value;
      var loaded;
      resp, loaded := HandleCounted(req, s, backend, faults, now, end);
      FoundIsReference(faults.Any(), page, backend, req, loaded, resp);
      CountedIsOne(old(metrics.Value()), s, Egress(resp), now, end);
    }
  }

  /** The manifest cache after a load from the backend. */
  ghost function Loaded(p: Lru.Policy, contents: seq<MC.Entry>, key: string, r: Result<Manifest.Manifest, Response>)
    : seq<MC.Entry>
  {
    if r.Ok? then Lru.Insert(p, contents, Lru.Entry(key, r.value, r.value.approxBytes)) else contents
  }

  ghost function AfterLoad(p: Lru.Policy, contents: seq<MC.Entry>, key: string, r: Result<Manifest.Manifest, Response>)
    : seq<MC.Entry>
  {
    if Lru.Has(contents, key) then Lru.Touch(contents, key) else Loaded(p, contents, key, r)
  }

  /** What the backend answers: an error if it is down. */
  function BackendAnswer(backend: Store, down: bool, key: string): Result<Object, ReadError> {
    if down then Err(ReadError.Backend) else if key in backend then Ok(backend[key]) else Err(NotExist)
  }

  /** `Get` will answer from the cache. */
  ghost predicate Holds(contents: seq<BC.Entry>, key: string) {
    StorageKeys.IsBlobKey(key) && Lru.Has(contents, key)
  }

  /** The backend is asked for a blob and fails, at once or while the body is read into memory. */
  ghost predicate ReadFails(caching: bool, p: Lru.Policy, contents: seq<BC.Entry>, backend: Store, faults: Faults,
                            key: string) {
    && !(caching && Holds(contents, key))
    && (faults.blob
        || (caching && B.Buffered(p, backend, key) && faults.cut.Some?
            && faults.cut.value < backend[key].reported.value && faults.cut.value <= |backend[key].body|))
  }

  /** The blob cache after a read. */
  ghost function AfterRead(caching: bool, p: Lru.Policy, contents: seq<BC.Entry>, backend: Store,
                           faults: Faults, key: string): seq<BC.Entry>
    requires p.Budgeted?
  {
    if caching then BC.GetSpec(p, contents, key, BackendAnswer(backend, faults.blob, key), faults.cut).1 else contents
  }

  /** The blob cache after an answer: read through if the answer streams a blob, else untouched. */
  ghost function AfterRespond(page: Body, caching: bool, p: Lru.Policy, contents: seq<BC.Entry>, backend: Store,
                              faults: Faults, req: Request, s: Site.Site, loaded: Result<Manifest.Manifest, Response>)
    : seq<BC.Entry>
    requires p.Budgeted?
  {
    if loaded.Ok? && Serve(page, req, s, loaded.value).Stream?
    then AfterRead(caching, p, contents, backend, faults, Serve(page, req, s, loaded.value).key) else contents
  }

  /** What loading the manifest at `key` must yield. */
  ghost predicate Found(backend: Store, key: string, r: Result<Manifest.Manifest, Response>) {
    if key !in backend then r == Err(RELEASE_NOT_FOUND)
    else if !Manifest.Loadable(backend[key].decoded) then r == Err(INTERNAL_ERROR)
    else r.Ok? && Manifest.LoadsTo(backend[key].decoded, r.value)
  }

  /** If a blob is to be streamed, and is one that is read into memory, its reported size is its size. */
  predicate HonestPlan(p: Lru.Policy, backend: Store, plan: Plan) {
    plan.Stream? ==> B.HonestAt(p, backend, plan.key)
  }

  /** So it is for whatever manifest the release may load to. */
  ghost predicate HonestReply(page: Body, p: Lru.Policy, backend: Store, req: Request, s: Site.Site) {
    forall m :: HonestFor(page, p, backend, req, s, m)
  }

  ghost predicate HonestFor(page: Body, p: Lru.Policy, backend: Store, req: Request, s: Site.Site,
                            m: Manifest.Manifest) {
    KeyOf(s) in backend && Manifest.LoadsTo(backend[KeyOf(s)].decoded, m) ==>
      HonestPlan(p, backend, Serve(page, req, s, m))
  }

  lemma HonestWhenLoaded(page: Body, p: Lru.Policy, backend: Store, req: Request, s: Site.Site, failed: bool,
                         loaded: Result<Manifest.Manifest, Response>)
    requires HonestReply(page, p, backend, req, s) && FoundUnless(failed, backend, KeyOf(s), loaded)
    ensures loaded.Ok? ==> HonestPlan(p, backend, Serve(page, req, s, loaded.value))
  {
    assert loaded.Ok? ==> HonestFor(page, p, backend, req, s, loaded.value);
  }

  /** The answer that goes with what loading the manifest yielded. */
  ghost predicate Answers(page: Body, backend: Store, req: Request, s: Site.Site,
                          loaded: Result<Manifest.Manifest, Response>, resp: Response) {
    resp == if loaded.Ok? then Direct(page, backend, req, s, loaded.value) else loaded.error
  }

  ghost predicate FoundUnless(failed: bool, backend: Store, key: string, r: Result<Manifest.Manifest, Response>) {
    Found(backend, key, r) || (failed && r == Err(INTERNAL_ERROR))
  }

  ghost predicate AnswersUnless(failed: bool, page: Body, backend: Store, req: Request, s: Site.Site,
                                loaded: Result<Manifest.Manifest, Response>, resp: Response) {
    Answers(page, backend, req, s, loaded, resp) || (failed && resp == INTERNAL_ERROR)
  }

  lemma FoundIsReference(failed: bool, page: Body, backend: Store, req: Request,
                         loaded: Result<Manifest.Manifest, Response>, resp: Response)
    requires Refusal(req).None?
    requires var s := Site.ParseSite(req.path).value;
             && FoundUnless(failed, backend, KeyOf(s), loaded)
             && AnswersUnless(failed, page, backend, req, s, loaded, resp)
    ensures IsReference(page, backend, req, resp) || (failed && resp == INTERNAL_ERROR)
  {
  }

  /** With sound contents and an honest size, reading through the blob cache is reading the backend,
      failures included, but that cached blobs do without it; and it leaves the contents sound. */
  lemma GetIsTransparent(p: Lru.Policy, backend: Store, contents: seq<BC.Entry>, key: string, faults: Faults)
    requires p.Budgeted? && p.bytesCap >= 0 && B.HonestAt(p, backend, key) && B.SoundCache(p, backend, contents)
    ensures var (r, after) := BC.GetSpec(p, contents, key, BackendAnswer(backend, faults.blob, key), faults.cut);
            && r == (if ReadFails(true, p, contents, backend, faults, key) then Err(ReadError.Backend)
                     else ReadStore(backend, key))
            && B.SoundCache(p, backend, after)
  {
    if Lru.Has(contents, key) {
      Lru.TouchKeeps(p, contents, key);
      assert B.Genuine(p, backend, key, Lru.At(contents, key).val);
    }
    if B.Buffered(p, backend, key) {
      BC.HonestDelivery(p.ceiling, backend[key]);
      var e := Lru.Entry(key, backend[key].body, |backend[key].body|);
      if Lru.Admits(p, e) {
        Lru.InsertKeeps(p, contents, e);
      }
    }
  }

  /** The counters after a request to a site. */
  function Counted(before: Metrics.Series, s: Site.Site, egress: nat, now: int, end: int): Metrics.Series {
    var k := Metrics.SiteKey(s.project, s.name);
    Metrics.AddBytes(Metrics.Observe(before, k, now), k, egress, end)
  }

  /** A site's counters gain one request and the bytes sent, and it was last active when they were, or
      else when the request came; no other site's counters or times change. */
  ghost predicate CountsOne(before: Metrics.Series, after: Metrics.Series, k: Metrics.SiteKey, egress: nat, now: int,
                            end: int) {
    && Metrics.Count(after.requests, k) == Metrics.Count(before.requests, k) + 1
    && Metrics.Count(after.bytes, k) == Metrics.Count(before.bytes, k) + egress
    && k in after.lastSeen && after.lastSeen[k] == (if egress > 0 then end else now)
    && forall x :: x != k ==>
         && (x in after.requests <==> x in before.requests)
         && Metrics.Count(after.requests, x) == Metrics.Count(before.requests, x)
         && (x in after.bytes <==> x in before.bytes)
         && Metrics.Count(after.bytes, x) == Metrics.Count(before.bytes, x)
         && (x in after.lastSeen <==> x in before.lastSeen)
         && (x in after.lastSeen ==> after.lastSeen[x] == before.lastSeen[x])
  }

  lemma CountedIsOne(before: Metrics.Series, s: Site.Site, egress: nat, now: int, end: int)
    ensures CountsOne(before, Counted(before, s, egress, now, end), Metrics.SiteKey(s.project, s.name), egress, now,
                      end)
  {
  }

  // ----- What a request leaves cached -----

  /** The manifest of a release that was answered is in front of its cache. */
  lemma LoadedManifestIsCached(p: Lru.Policy, contents: seq<MC.Entry>, key: string,
                               r: Result<Manifest.Manifest, Response>)
    requires p.Counted? && r.Ok?
    ensures var after := AfterLoad(p, contents, key, r);
            && after != [] && after[0].key == key
            && (!Lru.Has(contents, key) ==>
                  && after[0] == Lru.Entry(key, r.value, r.value.approxBytes)
                  && Lru.BoundedTo(p.cap, p.bytesCap, [after[0]] + contents, after))
            && (Lru.Has(contents, key) ==> after == [Lru.At(contents, key)] + Lru.Without(contents, key))
  {
    if !Lru.Has(contents, key) {
      var e := Lru.Entry(key, r.value, r.value.approxBytes);
      Lru.InsertRetains(p, contents, e);
      Lru.TrimIsBounded(p.cap, p.bytesCap, [e] + contents);
    }
  }

  lemma ReadBlobIsCached(p: Lru.Policy, contents: seq<BC.Entry>, backend: Store, key: string)
    requires p.Budgeted? && p.bytesCap >= 0 && B.SoundCache(p, backend, contents)
    requires B.Buffered(p, backend, key) && B.HonestAt(p, backend, key) && |backend[key].body| <= p.bytesCap
    ensures var after := AfterRead(true, p, contents, backend, Faults(false, false, None), key);
            after != [] && after[0] == Lru.Entry(key, backend[key].body, |backend[key].body|)
  {
    BC.HonestDelivery(p.ceiling, backend[key]);
    if Lru.Has(contents, key) {
      assert B.Genuine(p, backend, key, Lru.At(contents, key).val);
    } else {
      Lru.InsertRetains(p, contents, Lru.Entry(key, backend[key].body, |backend[key].body|));
    }
  }

  /** The blob a request was answered with is in front of its cache, if it is one that is read into memory
      and within the budget, and no read failed. An answer without a blob leaves the cache alone. */
  lemma AnsweredBlobIsCached(page: Body, p: Lru.Policy, contents: seq<BC.Entry>, backend: Store, req: Request,
                             s: Site.Site, m: Manifest.Manifest)
    requires p.Budgeted? && p.bytesCap >= 0 && B.SoundCache(p, backend, contents)
    ensures var plan := Serve(page, req, s, m);
            var after := AfterRespond(page, true, p, contents, backend, Faults(false, false, None), req, s, Ok(m));
            && (plan.Answer? ==> after == contents)
            && (plan.Stream? && B.Buffered(p, backend, plan.key) && B.HonestAt(p, backend, plan.key)
                && |backend[plan.key].body| <= p.bytesCap ==>
                  && after != []
                  && after[0] == Lru.Entry(plan.key, backend[plan.key].body, |backend[plan.key].body|))
  {
    var plan := Serve(page, req, s, m);
    if plan.Stream? && B.Buffered(p, backend, plan.key) && B.HonestAt(p, backend, plan.key)
       && |backend[plan.key].body| <= p.bytesCap
    {
      ReadBlobIsCached(p, contents, backend, plan.key);
    }
  }

  // ----- The caches follow the demand traces -----

  /** A load through the manifest cache is one step of the demand trace, with the same backend read. */
  lemma LoadFollowsTrace(p: Lru.Policy, sim: LruInclusion.Sim<string, Manifest.Manifest>, key: string,
                         load: LruInclusion.Backing<string, Manifest.Manifest>, r: Result<Manifest.Manifest, Response>)
    requires p.Counted? && (r.Ok? <==> key in sim.published) && (r.Ok? ==> load(key) == (r.value, r.value.approxBytes))
    ensures var next := LruInclusion.Serve(p, load, sim, LruInclusion.Request(key));
            && next.list == (if Lru.Has(sim.list, key) then Lru.Touch(sim.list, key) else Loaded(p, sim.list, key, r))
            && next.fetches == sim.fetches + if Lru.Has(sim.list, key) then 0 else 1
  {
  }

  /** So is a read of a blob with an honest known size through the blob cache. */
  lemma GetFollowsTrace(p: Lru.Policy, sim: LruInclusion.Sim<string, Body>, key: string, backend: Store)
    requires p.Budgeted? && StorageKeys.IsBlobKey(key) && (key in backend <==> key in sim.published)
    requires key in backend ==> backend[key].reported == Some(|backend[key].body|)
    ensures var load: LruInclusion.Backing<string, Body> :=
              k => if k in backend then (backend[k].body, |backend[k].body|) else ([], 0);
            var answer := if key in backend then Ok(backend[key]) else Err(NotExist);
            BC.GetSpec(p, sim.list, key, answer, None).1
              == LruInclusion.Serve(p, load, sim, LruInclusion.Request(key)).list
  {
    if key in backend {
      BC.HonestDelivery(p.ceiling, backend[key]);
    }
  }
}
