/** What the handler answers (`ServeHTTP`, `serveBlob`, `serveNotFound`, internal/server/server.go) as a
    function of the request, the loaded manifest and the blob read; and the cacheless handler that the
    cached one must agree with. */
module Response {
  import opened Wrappers
  import opened Store
  import opened GoText
  import GoPath
  import opened Manifest
  import CacheHeader
  import Resolve
  import StorageKeys
  import Site

  /** A request: `ifNoneMatch` is "" when the header is absent; `ifModifiedSince` is the instant the
      header names, if it is present and parses. */
  datatype Request = Request(method_: string, path: string, ifNoneMatch: string, ifModifiedSince: Option<int>) {
    predicate IsHead() {
      method_ == "HEAD"
    }

    predicate IsAllowed() {
      method_ == "GET" || method_ == "HEAD"
    }
  }

  datatype Response =
    | Plain(status: nat, message: string)
    | Document(status: nat, contentType: string, cacheControl: string, etag: Option<string>, lastModified: string,
               noindex: bool, contentLength: Option<int>, body: Body)

  /** Body bytes counted as egress. Error texts are not counted. */
  function Egress(r: Response): nat {
    if r.Document? then |r.body| else 0
  }

  /** What is left to do once the manifest is known: answer, or stream a blob under these headers. */
  datatype Plan = Answer(response: Response) | Stream(key: string, head: Response)

  const NANOS_PER_SECOND := 1_000_000_000

  function TruncateToSecond(instant: int): int {
    instant - instant % NANOS_PER_SECOND
  }

  predicate ConditionalNotModified(req: Request, etag: string, modTime: int) {
    if req.ifNoneMatch != "" then CacheHeader.NotModified(req.ifNoneMatch, etag)
    else req.ifModifiedSince.Some? && modTime != 0 && TruncateToSecond(modTime) <= req.ifModifiedSince.value
  }

  function ServeBlob(req: Request, s: Site.Site, m: Manifest, entry: File, status: nat): Plan {
    var etag := CacheHeader.ETag(entry.blob);
    var isHtml := HasPrefix(entry.contentType, "text/html");
    var head := Document(status, entry.contentType, CacheHeader.CacheControl(entry.cache), Some(etag),
                         m.lastModified, isHtml && !m.IsProduction(), None, []);
    if status == 200 && ConditionalNotModified(req, etag, m.modTime) then Answer(head.(status := 304))
    else if req.IsHead() then Answer(head)
    else Stream(StorageKeys.BlobKey(s.project, s.name, entry.blob), head)
  }

  /** `page` is the built-in 404 document. */
  function ServeNotFound(page: Body, req: Request, s: Site.Site, m: Manifest): Plan {
    match m.Lookup(m.NotFoundDoc())
    case Some(entry) => ServeBlob(req, s, m, entry, 404)
    case None =>
      Answer(Document(404, "text/html; charset=utf-8", CacheHeader.CacheControl("html"), None, "",
                      !m.IsProduction(), None, if req.IsHead() then [] else page))
  }

  function Resolution(s: Site.Site, m: Manifest): Resolve.Result {
    Resolve.Resolve(s.rest, p => m.Lookup(p).Some?, m.spa)
  }

  function Entry(m: Manifest, path: string): File {
    match m.Lookup(path)
    case Some(f) => f
    case None => File("", "", "")
  }

  /** The entry a request is served with status 200, if any: a hit, or the fallback of a single-page
      release. */
  function Served(s: Site.Site, m: Manifest): Option<File> {
    match Resolution(s, m)
    case Hit(path) => Some(Entry(m, path))
    case SpaFallback(path) => Some(Entry(m, path))
    case NotFound => None
  }

  function Serve(page: Body, req: Request, s: Site.Site, m: Manifest): Plan {
    match Served(s, m)
    case Some(entry) => ServeBlob(req, s, m, entry, 200)
    case None => ServeNotFound(page, req, s, m)
  }

  /** The answer once the blob read has ended. */
  function Finish(head: Response, read: Result<Reader, ReadError>): Response
    requires head.Document?
  {
    match read
    case Ok(r) =>
      head.(contentLength := if r.size.Some? && r.size.value >= 0 then r.size else None, body := r.body)
    case Err(e) => if e == NotExist then Plain(404, "blob not found") else Plain(500, "internal error")
  }

  lemma StreamsDocuments(page: Body, req: Request, s: Site.Site, m: Manifest)
    ensures Serve(page, req, s, m).Stream? ==> Serve(page, req, s, m).head.Document?
  {
  }

  const RELEASE_NOT_FOUND: Response := Plain(404, "release not found")
  const INTERNAL_ERROR: Response := Plain(500, "internal error")

  /** Requests answered before any manifest is needed. */
  function Refusal(req: Request): Option<Response> {
    if !req.IsAllowed() then Some(Plain(405, "method not allowed"))
    else if Site.ParseSite(req.path).None? then Some(Plain(400, "bad request"))
    else None
  }

  // ----- The cacheless reference handler -----

  function ReadStore(store: Store, key: string): Result<Reader, ReadError> {
    if key in store then Ok(Reader(store[key].body, store[key].reported)) else Err(NotExist)
  }

  /** The answer of a handler that reads the store for everything, given what the manifest loads to. */
  function Direct(page: Body, store: Store, req: Request, s: Site.Site, m: Manifest): Response {
    StreamsDocuments(page, req, s, m);
    match Serve(page, req, s, m)
    case Answer(r) => r
    case Stream(key, head) => Finish(head, ReadStore(store, key))
  }

  function KeyOf(s: Site.Site): string {
    StorageKeys.ManifestKey(s.project, s.name, s.releaseSha)
  }

  /** `resp` is what a cacheless handler may answer on this store. It is determined by the store, but
      for the iteration order in which a manifest with clashing keys is re-keyed. */
  ghost predicate IsReference(page: Body, store: Store, req: Request, resp: Response) {
    match Refusal(req)
    case Some(r) => resp == r
    case None =>
      var s := Site.ParseSite(req.path).value;
      var k := KeyOf(s);
      if k !in store then resp == RELEASE_NOT_FOUND
      else if !Loadable(store[k].decoded) then resp == INTERNAL_ERROR
      else exists m :: LoadsTo(store[k].decoded, m) && resp == Direct(page, store, req, s, m)
  }

  /** On a store whose manifest has no clashing keys there is one reference answer. */
  lemma ReferenceIsUnique(page: Body, store: Store, req: Request, a: Response, b: Response)
    requires IsReference(page, store, req, a) && IsReference(page, store, req, b)
    requires Refusal(req).None? ==>
      var k := KeyOf(Site.ParseSite(req.path).value);
      k in store && Loadable(store[k].decoded) ==> NoClash(store[k].decoded.value.files.value)
    ensures a == b
  {
    if Refusal(req).None? {
      var s := Site.ParseSite(req.path).value;
      var k := KeyOf(s);
      if k in store && Loadable(store[k].decoded) {
        var m :| LoadsTo(store[k].decoded, m) && a == Direct(page, store, req, s, m);
        var m' :| LoadsTo(store[k].decoded, m') && b == Direct(page, store, req, s, m');
        LoadIsDeterministic(store[k].decoded, m, m');
      }
    }
  }

  /** On every store every request has a reference answer. */
  lemma ReferenceExists(page: Body, store: Store, req: Request) returns (resp: Response)
    ensures IsReference(page, store, req, resp)
  {
    if Refusal(req).Some? {
      return Refusal(req).value;
    }
    var s := Site.ParseSite(req.path).value;
    var k := KeyOf(s);
    if k !in store {
      return RELEASE_NOT_FOUND;
    }
    if !Loadable(store[k].decoded) {
      return INTERNAL_ERROR;
    }
    var m := LoadableLoads(store[k].decoded);
    return Direct(page, store, req, s, m);
  }

  lemma ResolvedIsLoaded(s: Site.Site, m: Manifest)
    ensures !Resolution(s, m).NotFound? ==> Resolution(s, m).path in m.files
  {
    Resolve.ResolveIsSound(s.rest, p => m.Lookup(p).Some?, m.spa);
  }

  /** What is streamed is the blob of some entry. */
  lemma StreamSource(page: Body, req: Request, s: Site.Site, m: Manifest) returns (p: string)
    requires Serve(page, req, s, m).Stream?
    ensures p in m.files
    ensures Serve(page, req, s, m) == ServeBlob(req, s, m, m.files[p], if Served(s, m).Some? then 200 else 404)
  {
    ResolvedIsLoaded(s, m);
    p := if Resolution(s, m).NotFound? then m.NotFoundDoc() else Resolution(s, m).path;
  }

  /** Only blobs the release refers to are ever read, whatever the request path. */
  lemma StreamedBlobIsReferenced(page: Body, req: Request, s: Site.Site, m: Manifest)
    requires Serve(page, req, s, m).Stream?
    ensures exists p :: p in m.files
                        && Serve(page, req, s, m).key == StorageKeys.BlobKey(s.project, s.name, m.files[p].blob)
  {
    var p := StreamSource(page, req, s, m);
  }

  // ----- Answers -----

  /** The answer is to be a blob that the store does not hold. */
  predicate Dangling(page: Body, store: Store, req: Request, s: Site.Site, m: Manifest) {
    Serve(page, req, s, m).Stream? && Serve(page, req, s, m).key !in store
  }

  /** No entry of the manifest is to be served: no candidate of the path, nor the index of a
      single-page release. */
  ghost predicate NothingToServe(s: Site.Site, m: Manifest) {
    && !(m.spa && Resolve.INDEX_HTML in m.files)
    && forall c :: c in Resolve.Candidates(Resolve.Stack(s.rest), HasSuffix(s.rest, "/")) ==> c !in m.files
  }

  lemma ServedIff(s: Site.Site, m: Manifest)
    ensures Served(s, m).None? <==> NothingToServe(s, m)
  {
    Resolve.ResolveIsSound(s.rest, p => m.Lookup(p).Some?, m.spa);
  }

  /** An answer has status 404 exactly when the manifest has nothing for the path, or it has and the
      blob to be sent is missing. */
  lemma StatusIs404Iff(page: Body, store: Store, req: Request, s: Site.Site, m: Manifest)
    ensures Direct(page, store, req, s, m).status == 404 <==> NothingToServe(s, m) || Dangling(page, store, req, s, m)
  {
    ServedIff(s, m);
    StreamsDocuments(page, req, s, m);
  }

  /** A single-page release with an index answers 404 only for a missing blob. */
  lemma SinglePageReleaseAlwaysServes(page: Body, store: Store, req: Request, s: Site.Site, m: Manifest)
    requires m.spa && Resolve.INDEX_HTML in m.files
    ensures Served(s, m).Some?
    ensures Direct(page, store, req, s, m).status == 404 <==> Dangling(page, store, req, s, m)
  {
    ServedIff(s, m);
    StatusIs404Iff(page, store, req, s, m);
  }

  function AsHead(req: Request): Request {
    req.(method_ := "HEAD")
  }

  /** The request without its validators. */
  function Unconditional(req: Request): Request {
    req.(ifNoneMatch := "", ifModifiedSince := None)
  }

  /** HEAD is answered as GET, but without body and length, exactly when GET does not fail for want of a
      blob: HEAD is answered before any blob is opened. */
  lemma HeadMirrorsGetIff(page: Body, store: Store, req: Request, s: Site.Site, m: Manifest)
    requires !req.IsHead()
    ensures var get, head := Direct(page, store, req, s, m), Direct(page, store, AsHead(req), s, m);
            get.Document? && head == get.(body := [], contentLength := None) <==> !Dangling(page, store, req, s, m)
  {
    StreamsDocuments(page, req, s, m);
  }

  lemma RootIsIndex(s: Site.Site, m: Manifest, index: File)
    requires s.rest == "/" && m.Lookup(Resolve.INDEX_HTML) == Some(index)
    ensures Served(s, m) == Some(index)
  {
    Resolve.NormalizeIsTheStack("/");
    assert Split("/", '/') == ["", ""];
    assert [""][1..] == [] && ["", ""][1..] == [""];
    assert Resolve.Stack("/") == [];
  }

  lemma LostBlobAnswers(page: Body, store: Store, path: string, s: Site.Site, m: Manifest, index: File)
    requires Served(s, m) == Some(index) && StorageKeys.BlobKey(s.project, s.name, index.blob) !in store
    ensures Direct(page, store, Request("GET", path, "", None), s, m) == Plain(404, "blob not found")
    ensures var head := Direct(page, store, Request("HEAD", path, "", None), s, m);
            head.Document? && head.status == 200 && head.etag == Some(CacheHeader.ETag(index.blob))
  {
  }

  lemma IndexLoads(raw: Raw, index: File) returns (m: Manifest)
    requires raw.files == Some(map[Resolve.INDEX_HTML := index]) && index.blob != ""
    ensures LoadsTo(Some(raw), m) && m.Lookup(Resolve.INDEX_HTML) == Some(index)
  {
    m := LoadableLoads(Some(raw));
    StripFacts(Resolve.INDEX_HTML);
    OwnedEntryIsKept(raw.files.value, m.files, Resolve.INDEX_HTML);
  }

  lemma DirectIsReference(page: Body, store: Store, req: Request, s: Site.Site, m: Manifest)
    requires req.IsAllowed() && Site.ParseSite(req.path) == Some(s)
    requires KeyOf(s) in store && LoadsTo(store[KeyOf(s)].decoded, m)
    ensures IsReference(page, store, req, Direct(page, store, req, s, m))
  {
  }

  /** A store that holds a release but not the blob of its index: a GET of the release is answered 404,
      and a HEAD of it 200 with a tag. */
  lemma HeadHidesMissingBlob(page: Body, project: string, name: string, sha: string, raw: Raw, index: File)
    returns (store: Store, path: string, head: Response)
    requires GoPath.Plain(project) && GoPath.Plain(name) && GoPath.Plain(sha)
    requires raw.files == Some(map[Resolve.INDEX_HTML := index]) && GoPath.AllPlain(Split(index.blob, '/'))
    ensures store == map[StorageKeys.ManifestKey(project, name, sha) := Object([], None, Some(raw))]
    ensures path == Site.FileUrl(project, name, sha, "")
    ensures IsReference(page, store, Request("GET", path, "", None), Plain(404, "blob not found"))
    ensures IsReference(page, store, Request("HEAD", path, "", None), head)
    ensures head.Document? && head.status == 200 && head.etag == Some(CacheHeader.ETag(index.blob))
  {
    var s := Site.Site(project, name, sha, "/");
    store := map[KeyOf(s) := Object([], None, Some(raw))];
    path := Site.FileUrl(project, name, sha, "");
    Site.RootUrlParses(project, name, sha);
    BlobIsLost(project, name, sha, index.blob, store);
    head := LostIndexAnswers(page, store, path, s, raw, index);
  }

  lemma LostIndexAnswers(page: Body, store: Store, path: string, s: Site.Site, raw: Raw, index: File)
    returns (head: Response)
    requires Site.ParseSite(path) == Some(s) && s.rest == "/"
    requires KeyOf(s) in store && store[KeyOf(s)].decoded == Some(raw)
    requires raw.files == Some(map[Resolve.INDEX_HTML := index]) && index.blob != ""
    requires StorageKeys.BlobKey(s.project, s.name, index.blob) !in store
    ensures IsReference(page, store, Request("GET", path, "", None), Plain(404, "blob not found"))
    ensures IsReference(page, store, Request("HEAD", path, "", None), head)
    ensures head.Document? && head.status == 200 && head.etag == Some(CacheHeader.ETag(index.blob))
  {
    var m := IndexLoads(raw, index);
    RootIsIndex(s, m, index);
    LostBlobAnswers(page, store, path, s, m, index);
    DirectIsReference(page, store, Request("GET", path, "", None), s, m);
    DirectIsReference(page, store, Request("HEAD", path, "", None), s, m);
    head := Direct(page, store, Request("HEAD", path, "", None), s, m);
  }

  lemma BlobIsLost(project: string, name: string, sha: string, id: string, store: Store)
    requires GoPath.Plain(project) && GoPath.Plain(name) && GoPath.Plain(sha) && GoPath.AllPlain(Split(id, '/'))
    requires forall k :: k in store ==> k == StorageKeys.ManifestKey(project, name, sha)
    ensures StorageKeys.BlobKey(project, name, id) !in store && id != ""
  {
    SplitNone("", '/');
    StorageKeys.PlainIdStays(project, name, id);
    StorageKeys.BlobKeyIsManifestKeyIff(project, name, sha, project, name, id);
  }

  /** A miss is answered by the release's own not-found document, under that document's tag, or by the
      built-in page without one; a HEAD by the same headers; and a GET whose not-found document has
      lost its blob by a plain 404. */
  lemma MissIsAnswered(page: Body, store: Store, req: Request, s: Site.Site, m: Manifest)
    requires NothingToServe(s, m)
    ensures var r, doc := Direct(page, store, req, s, m), m.Lookup(m.NotFoundDoc());
            && r.status == 404
            && match doc
               case None => r.Document? && r.etag == None && r.body == if req.IsHead() then [] else page
               case Some(f) =>
                 var key := StorageKeys.BlobKey(s.project, s.name, f.blob);
                 if !req.IsHead() && key !in store then r == Plain(404, "blob not found")
                 else r.Document? && r.etag == Some(CacheHeader.ETag(f.blob))
                      && r.body == if req.IsHead() then [] else store[key].body
  {
    ServedIff(s, m);
  }

  /** Only HEAD, 304 and empty blobs have no body: every other document is the built-in page, or the
      very blob its tag names. */
  ghost predicate BodyMatchesTag(page: Body, store: Store, req: Request, s: Site.Site, files: Files, r: Response)
    requires r.Document?
  {
    if req.IsHead() || r.status == 304 then r.body == []
    else if r.etag == None then r.body == page
    else exists p :: p in files && Tagged(store, s, files[p], r)
  }

  ghost predicate Tagged(store: Store, s: Site.Site, f: File, r: Response)
    requires r.Document?
  {
    var key := StorageKeys.BlobKey(s.project, s.name, f.blob);
    r.etag == Some(CacheHeader.ETag(f.blob)) && key in store && r.body == store[key].body
  }

  lemma DirectBodyMatchesTag(page: Body, store: Store, req: Request, s: Site.Site, m: Manifest)
    requires Direct(page, store, req, s, m).Document?
    ensures BodyMatchesTag(page, store, req, s, m.files, Direct(page, store, req, s, m))
  {
    var r := Direct(page, store, req, s, m);
    if Serve(page, req, s, m).Stream? {
      var p := StreamSource(page, req, s, m);
      assert Tagged(store, s, m.files[p], r);
    }
  }

  // ----- Revalidation -----

  /** How a conditional request is answered, in terms of the unconditional HEAD and GET: by the headers
      of the one under status 304, or as the other. */
  lemma Revalidation(page: Body, store: Store, req: Request, s: Site.Site, m: Manifest)
    ensures var head := Direct(page, store, AsHead(Unconditional(req)), s, m);
            && head.Document? && head.body == [] && (head.status == 200 <==> Served(s, m).Some?)
            && (Served(s, m).Some? ==> head.etag == Some(CacheHeader.ETag(Served(s, m).value.blob)))
            && Direct(page, store, req, s, m)
               == if Served(s, m).Some?
                     && ConditionalNotModified(req, CacheHeader.ETag(Served(s, m).value.blob), m.modTime)
                  then head.(status := 304) else Direct(page, store, Unconditional(req), s, m)
  {
  }

  /** A list of tags, whatever date comes with it, is answered by a bodiless 304 exactly when the path is
      served and one of them is the tag it is served under, and otherwise as if the request had come
      without validators (sections 13.1.2 and 13.2.2 of RFC 9110). */
  lemma TagsRevalidate(page: Body, store: Store, req: Request, s: Site.Site, m: Manifest, tags: seq<CacheHeader.Tag>)
    requires tags != [] && (forall t :: t in tags ==> t.Valid()) && req.ifNoneMatch == CacheHeader.Header(tags)
    ensures var head := Direct(page, store, AsHead(Unconditional(req)), s, m);
            head.Document?
            && Direct(page, store, req, s, m)
               == if head.status == 200
                     && exists i :: 0 <= i < |tags| && head.etag == Some(CacheHeader.ETag(tags[i].sha))
                  then head.(status := 304) else Direct(page, store, Unconditional(req), s, m)
  {
    Revalidation(page, store, req, s, m);
    CacheHeader.HeaderTrims(tags);
    if Served(s, m).Some? {
      CacheHeader.NotModifiedIffListed(tags, Served(s, m).value.blob);
      TagsListedIff(tags, Served(s, m).value.blob);
    }
  }

  lemma TagsListedIff(tags: seq<CacheHeader.Tag>, blob: string)
    ensures (exists i :: 0 <= i < |tags| && tags[i].sha == blob)
       <==> (exists i :: 0 <= i < |tags| && CacheHeader.ETag(blob) == CacheHeader.ETag(tags[i].sha))
  {
    if i :| 0 <= i < |tags| && CacheHeader.ETag(blob) == CacheHeader.ETag(tags[i].sha) {
      CacheHeader.ETagIsInjective(blob, tags[i].sha);
    }
  }

  /** A star, however padded, gets the 304 of whatever is served; a header of blanks is a tag that matches
      nothing, and hides the date. */
  lemma StarRevalidates(page: Body, store: Store, req: Request, s: Site.Site, m: Manifest)
    requires req.ifNoneMatch != ""
    ensures var head := Direct(page, store, AsHead(Unconditional(req)), s, m);
            && head.Document?
            && (TrimSpace(req.ifNoneMatch) == "*" ==>
                  Direct(page, store, req, s, m)
                  == if head.status == 200 then head.(status := 304) else Direct(page, store, Unconditional(req), s, m))
            && (TrimSpace(req.ifNoneMatch) == "" ==>
                  Direct(page, store, req, s, m) == Direct(page, store, Unconditional(req), s, m))
  {
    Revalidation(page, store, req, s, m);
    if Served(s, m).Some? {
      CacheHeader.StarMatchesAnything(req.ifNoneMatch, Served(s, m).value.blob);
    }
  }

  /** A date, which names a whole second, is answered by a 304 exactly when the path is served and the
      release was created before the end of that second. */
  lemma DateRevalidates(page: Body, store: Store, req: Request, s: Site.Site, m: Manifest)
    requires req.ifNoneMatch == "" && req.ifModifiedSince.Some? && req.ifModifiedSince.value % NANOS_PER_SECOND == 0
    ensures var head := Direct(page, store, AsHead(Unconditional(req)), s, m);
            head.Document?
            && Direct(page, store, req, s, m)
               == if head.status == 200 && m.modTime != 0 && m.modTime < req.ifModifiedSince.value + NANOS_PER_SECOND
                  then head.(status := 304) else Direct(page, store, Unconditional(req), s, m)
  {
    Revalidation(page, store, req, s, m);
    TruncationCompares(m.modTime, req.ifModifiedSince.value);
  }

  lemma TruncationCompares(instant: int, second: int)
    requires second % NANOS_PER_SECOND == 0
    ensures TruncateToSecond(instant) <= second <==> instant < second + NANOS_PER_SECOND
  {
  }

  /** A 200 is served under the tag of the entry it is served from. */
  lemma TagOfA200(page: Body, store: Store, req: Request, s: Site.Site, m: Manifest)
    requires var r := Direct(page, store, req, s, m); r.Document? && r.status == 200
    ensures Served(s, m).Some?
    ensures Direct(page, store, req, s, m).etag == Some(CacheHeader.ETag(Served(s, m).value.blob))
  {
  }

  /** Revalidation closes the loop. Replaying the comma-free tag of a 200, against any release on any
      store, is answered by a bodiless 304 exactly when the path is served under the same tag there, and
      otherwise as if it had not been replayed. */
  lemma ReplayedTag(page: Body, store: Store, req: Request, s: Site.Site, m: Manifest,
                    store': Store, s': Site.Site, m': Manifest)
    requires var r := Direct(page, store, req, s, m);
             r.Document? && r.status == 200 && r.etag.Some? && ',' !in r.etag.value
    ensures var tag := Direct(page, store, req, s, m).etag;
            var head := Direct(page, store', AsHead(Unconditional(req)), s', m');
            && head.Document? && head.body == []
            && Direct(page, store', req.(ifNoneMatch := tag.value), s', m')
               == if head.status == 200 && head.etag == tag then head.(status := 304)
                  else Direct(page, store', Unconditional(req), s', m')
  {
    TagOfA200(page, store, req, s, m);
    var blob := Served(s, m).value.blob;
    CommaInTag(blob);
    ReplayDecides(page, store', req, s', m', blob);
  }

  lemma ReplayDecides(page: Body, store: Store, req: Request, s: Site.Site, m: Manifest, blob: string)
    requires ',' !in blob
    ensures var tag := CacheHeader.ETag(blob);
            var head := Direct(page, store, AsHead(Unconditional(req)), s, m);
            && head.Document? && head.body == []
            && Direct(page, store, req.(ifNoneMatch := tag), s, m)
               == if head.status == 200 && head.etag == Some(tag) then head.(status := 304)
                  else Direct(page, store, Unconditional(req), s, m)
  {
    var tag := CacheHeader.ETag(blob);
    var replay := req.(ifNoneMatch := tag);
    Revalidation(page, store, replay, s, m);
    assert Unconditional(replay) == Unconditional(req);
    if Served(s, m).Some? {
      TagMatchesItself(replay, blob, Served(s, m).value.blob, m.modTime);
    }
  }

  lemma TagMatchesItself(replay: Request, blob: string, other: string, modTime: int)
    requires ',' !in blob && replay.ifNoneMatch == CacheHeader.ETag(blob)
    ensures ConditionalNotModified(replay, CacheHeader.ETag(other), modTime)
       <==> CacheHeader.ETag(other) == CacheHeader.ETag(blob)
  {
    CacheHeader.ETagEnds(blob);
    CacheHeader.ReplayMatchesOnlyItself(blob, other);
    if CacheHeader.ETag(other) == CacheHeader.ETag(blob) {
      CacheHeader.ETagIsInjective(other, blob);
    }
  }

  /** With a comma in the tag, not even the release that sent it answers 304. */
  lemma CommaDefeatsRevalidation(page: Body, store: Store, req: Request, s: Site.Site, m: Manifest)
    requires var r := Direct(page, store, req, s, m);
             r.Document? && r.status == 200 && r.etag.Some? && ',' in r.etag.value
    ensures var tag := Direct(page, store, req, s, m).etag;
            Direct(page, store, req.(ifNoneMatch := tag.value), s, m) == Direct(page, store, Unconditional(req), s, m)
  {
    TagOfA200(page, store, req, s, m);
    var blob := Served(s, m).value.blob;
    Revalidation(page, store, req.(ifNoneMatch := CacheHeader.ETag(blob)), s, m);
    CacheHeader.ETagEnds(blob);
    CommaInTag(blob);
    CacheHeader.ReplayMatchesIffCommaFree(blob);
  }

  lemma CommaInTag(blob: string)
    ensures ',' in CacheHeader.ETag(blob) <==> ',' in blob
  {
    var tag := CacheHeader.ETag(blob);
    if ',' in tag {
      var i :| 0 <= i < |tag| && tag[i] == ',';
      assert tag[i] == blob[i - 1];
    }
    if ',' in blob {
      var i :| 0 <= i < |blob| && blob[i] == ',';
      assert tag[i + 1] == ',';
    }
  }
}
