# Static gateway: a verified model

The gateway serves static site releases straight from object storage. A request
`/<project>/<name>/<release-sha>/<path>` names an immutable release; the gateway loads the release's
manifest, resolves the clean URL against it, and streams the blob the manifest points to. Two
in-process LRU caches and a single-flight group make that fast: parsed manifests, and small blob
bodies. This project models the cached read path and proves it against the simple handler it speeds
up, one that reads the store for everything.

## What is proved

**The caches are invisible** (`Gateway`, `LoadProtocol`, `LoadRuns`, `BlobProtocol`). The whole read
path is a step system: any number of request threads, a manifest cache, a single-flight group, a blob
cache, and a store that only gains keys. Every mutex section is one step, and so is each decision of the
single-flight group. In every interleaving an answer is one the cacheless handler gives on the store as
it stood at some moment between the request's arrival and its answer, unless the backend failed a read
or misreports the size of the blob, or the request joined a load whose leader had already read nothing
(below); and for each of these it is said what the answer is. Successes stay correct for ever after,
every byte answered is of the built-in page or of the blob that the answer's tag names, and a site's
counters always add up to exactly the requests begun and the bytes answered.
For every key, loads that reached `add` equal evictions plus one if the key is cached, and backend
reads equal those loads plus failures plus the one leader that is between its read and its `add`; and
the blob cache, where several misses may read the same blob, has a like account of every read. No
run deadlocks, and n requests take at most 12n steps together.

**The caches are exact** (`LinkedList`, `CacheIndex`, `ManifestCache`, `BlobCache`, `Lru`,
`LruInclusion`, `Recency`, `CacheRuns`, `BlobRuns`). Both caches are classes over a doubly linked ring with a sentinel (Go's `container/list`)
and a map from keys to its elements, with a running byte count. Every method is proved to compute a
function on recency lists, and those functions are proved to keep the longest prefix that fits, to
retain what they admit, and to obey the LRU inclusion property on every demand trace. The step systems
use the same functions; over every concurrent run the manifest cache is proved to hold the longest list of
the most recently used manifests within its two bounds, in numbers, a list defined from what requests do.

**The string pipeline is exact** (`GoText`, `GoPath`, `Site`, `Resolve`, `Manifest`, `StorageKeys`).
`path.Clean` is a fold of segments over a stack, proved to be the normal form of the four rewrite rules
in its documentation, in whatever order they are applied. On it rest normalization, resolution as "first
existing candidate", the round trip from a published key to the URL that serves it, re-keying for every
map iteration order, and storage keys: where any id of any site leads, when two share a key, and when a
blob key stays under its own site.

**Revalidation and metering** (`CacheHeader`, `Response`, `Metrics`). If-None-Match matches exactly the
listed tags; a conditional request is answered by a bodiless 304 exactly when the tag, or the date, of the
unconditional answer matches, and otherwise as if it had no condition; every byte counted is on a counter
or was dropped by a sweep, and none of the last billing window is ever dropped.

**Answers are spelled out** (`Answers`). What a request is answered is stated from the store, the decoded
manifest and the path alone, in literal statuses, headers and bodies, for hits, clean URLs, single-page
routes, not-found documents, missing blobs, refusals and errors.

**One request through the real classes** (`Handler`). `ServeHTTP` over the linked-list caches and the
counters answers as the cacheless reference, changes both caches as the recency-list functions say, and
counts exactly the body bytes it sends. When the backend fails, what is cached is still served.

## Where the code and its description differ

- `internal/server/server.go:169-176` says coalescing can never serve stale content. That holds of
  manifests (`LoadRuns.SuccessIsCurrent`). It does not hold of "release not found": a request for a release
  that was there before it began is told so exactly when it joins a call whose leader has already read
  nothing (`LoadRuns.MisledIffJoinedTooLate`). `LoadRuns.LateJoinerIsMisled` is such a run.
- The repository's `README.md:66-70` says that the blob key is always
  `sites/<project>/<name>/blobs/<blobSha>`. Keys are cleaned paths, and neither `Load` nor `parseSite`
  refuses "." or "..". A key lies under that prefix exactly when project and name are plain and the id
  stays below the directory (`StorageKeys.BlobStaysInSiteIff`; for an id without slashes, exactly when it
  is not "", "." or ".."). Ids that climb reach their site's manifests and the blobs of any other site
  (`StorageKeys.ClimbingIdReachesManifest`, `StorageKeys.ClimbingIdReachesOtherSite`), and sites named with
  dots can share manifest keys (`StorageKeys.DottedSitesShareKeys`). Digests are plain, and for them the
  prefix is kept in every run (`Gateway.BlobReadsStayInSite`). That every blob read is of a blob the
  manifest refers to holds without any condition.
- HEAD is not always answered as GET. It is answered before any blob is opened, so that where the blob is
  missing GET is a 404 and HEAD a 200 with a tag. They agree exactly otherwise
  (`Response.HeadMirrorsGetIff`, `Response.HeadHidesMissingBlob`). For the same reason a single-page
  release with an index does answer 404, but only for a missing blob.
- Raising `BLOB_CACHE_BYTES` can add backend reads. It never does exactly when the per-blob ceiling is
  within the smaller budget (`LruInclusion.BlobBudgetIsMonotoneIff`); `LruInclusion.FloodCostsARead` is a
  trace where it does. The manifest cache needs no such condition.
- `internal/manifest/manifest.go:155-163` says an already canonical entry wins, which is proved; when
  there is none, which of `/a` and `//a` wins depends on map iteration order, and the result is
  independent of the order exactly when no two such keys clash (`Manifest.OrderIsImmaterialIffNoClash`).
- A blob id with a comma can never be revalidated by its own tag
  (`CacheHeader.ReplayMatchesIffCommaFree`, `Response.CommaDefeatsRevalidation`): `NotModified` splits
  the header at commas, quoted or not.
- `internal/blobstore/cache.go:74-78` surfaces a body shorter than its reported size. A longer one is
  cut off silently; `BlobCache.DeliveryIsFaithfulIff` says exactly when a delivered body is the stored
  one, and `Gateway.AnswersAreCurrent` what requests are then answered.
- The repository's README and `internal/resolve/resolve.go:114-118` say that inputs with `..` are
  rejected by the server layer. No code does; normalization drops such segments instead, and that is
  what is modelled.
- The check for `"."` at `internal/resolve/resolve.go:124` can never fire (`Resolve.NormalizeIsTheStack`).

## Model

| member | source | states |
|---|---|---|
| Gateway.AnswersAreCurrent | internal/server/server.go:119-293 | Linearizability of the cached handler, whatever sizes the backend reports for blobs: every answer equals the cacheless reference's on the store at some moment between any moment before the request's first step and the answer, or it is an internal error on a backend failure, or "release not found" because the request joined a load whose leader had already read nothing, or it reads a cacheable blob of misreported size, and is then an internal error if that is short and the body cut off if it is long |
| Gateway.AnswersMatchReference | internal/server/server.go:119-293 | Without the late-join exception: every answer is the reference's on the store at some moment of the run, or one of the other two |
| Gateway.SuccessMatchesReference | internal/server/server.go:140-166 | An answer made from a loaded manifest (and its blob) is the reference's on the store of its own and every later moment: success never goes stale |
| Gateway.DanglingMatchesReference | internal/server/server.go:253-262 | A "blob not found" answer is the reference's on the store as it stood at the request's own blob read, after its manifest was loaded |
| Gateway.MissingMatchesReference | internal/server/server.go:141-146 | A "release not found" answer is the reference's on the store as it stood at the leader's read |
| Gateway.MalformedMatchesReference | internal/server/server.go:147-149 | A release whose manifest does not load is an internal error for the reference too |
| Gateway.BlobReadsAreReferenced | internal/blobstore/blobstore.go:54-59 | In every run each blob read is of a blob that the manifest named by the request's path refers to; it lies under that site's own prefix exactly when project and name are plain and the id stays below the site's blobs |
| Gateway.BlobReadsStayInSite | internal/blobstore/blobstore.go:54-59 | Confinement: for a plainly named site whose release has ids of plain segments, no blob read in any run leaves the site's prefix |
| Gateway.BodiesMatchTags | internal/server/server.go:218-314 | In every run: no body bytes for HEAD, a 304 or an error; any other document is the built-in page, or exactly the stored bytes of the blob (of honest size) that its tag names among those of the release its path names |
| Gateway.CountersMatchAnswers | internal/metrics/metrics.go:80-144 | Metering under concurrency: after any run, with idle sweeps at any moments, a site's counters and what sweeps dropped of them are exactly the number of its requests begun and the sum of the body bytes of their answers |
| Gateway.CountersAtTheEnd | internal/metrics/metrics.go:80-144 | And when every request is answered: the number of requests whose paths name the site, and the body bytes of the documents they were answered with |
| Gateway.RunProjects | internal/server/server.go:119-167 | Every run of the whole system is at once a run of the manifest-load protocol and one of the blob protocol, so both sets of theorems apply to it |
| Gateway.UnansweredMeansProgress | internal/server/server.go:177-213 | Deadlock freedom of the whole read path: while any request lacks an answer some request can step |
| Gateway.RequestsTerminate | internal/server/server.go:119-293 | Termination: n requests take at most 12n steps in all, whatever fails or is evicted |
| LoadProtocol.NextKeeps | internal/server/server.go:177-213 | Every step of every thread, and every publication, keeps the invariant: single-flight group and threads agree, the cache is sound and within budget, threads hold true values, reads balance |
| LoadProtocol.AddKeepsFaithful | internal/server/server.go:183-206 | When a leader adds its manifest no other thread is fetching that key, so what is being fetched is never cached |
| LoadProtocol.OnlyLeaderFetches | internal/server/server.go:182-208 | Two threads leading loads lead them for different keys |
| Lru.InsertConservesKeys | internal/server/cache.go:66-92 | The added key and those cached before are, afterwards, each either kept or evicted, and a key that was cached is not there twice |
| LoadRuns.ExactAccounting | internal/server/server.go:177-213 | In every reachable state, per key: adds = evictions + (1 if cached); reads = adds + failures + (1 if its leader is between read and add) |
| LoadRuns.AddIsAlwaysFresh | internal/server/cache.go:70-78 | The refresh branch of `add` is never taken by `loadManifest` in any run |
| LoadRuns.OneLeaderPerKey | internal/server/server.go:182 | At most one load per key is in flight |
| LoadRuns.ColdBurstReadsOnce | internal/server/server.go:171-174 | A burst on a cold release costs at most one backend read while nothing fails and the manifest stays cached |
| CacheRuns.CacheIsMostRecent | internal/server/cache.go:53-103 | At every moment of every interleaving the cache lists the manifests that requests got from it or gave it most recently, in that order; the recency list is defined from what threads do, without the cache |
| CacheRuns.CacheIsTheLongestRecent | internal/server/cache.go:64-103 | And on a store whose manifests have no clashing keys it is the longest such list within both bounds, in numbers: the contents are a function of the history |
| CacheRuns.CacheIsLongestRecent | internal/server/cache.go:64-103 | The same for any store, as long as a manifest is not loaded again with another size |
| CacheRuns.AddedIsCached | internal/server/cache.go:66-92 | The step that adds a manifest leaves its entry in front, and behind it what was cached as far as both bounds allow, and no less |
| CacheRuns.CachedIsServedAtOnce | internal/server/server.go:179-181 | A request whose manifest is cached is given it in its first step, without a call or a read |
| CacheRuns.ReadsEndThreeWays | internal/server/server.go:193-205 | A read of the backend can fail, and otherwise finds exactly what the store then holds |
| CacheRuns.CountersCountSteps | internal/server/server.go:177-213 | The counters of the accounting count what they say: steps in which threads read, added and failed, and in which keys left the cache |
| CacheRuns.EachIsReadOnceWhileAllFit | internal/server/cache.go:85-92 | As long as the manifests used so far fit both bounds together, all are cached, none is evicted, and each costs one backend read beyond those that failed |
| LoadRuns.CacheStaysWithinBudget | internal/server/cache.go:85-92 | At every moment of every interleaving, beyond a single manifest: at most `cap` entries and, under a byte bound, at most `bytesCap` bytes; and no key is cached twice |
| LoadRuns.SuccessIsCurrent | internal/server/server.go:174-176 | A manifest handed to any request, leader or waiter, is what the object at its key loads to, then and for ever |
| LoadRuns.RejectionIsCurrent | internal/server/server.go:202-205 | A load that failed on a malformed manifest names an object that is malformed then and for ever |
| LoadRuns.MissingWasTrue | internal/server/server.go:193-196 | A not-found was true of the store when the leader of that call was about to read, in a call the request led or waited on |
| LoadRuns.LeadersMissingIsItsOwn | internal/server/server.go:182-196 | For the leader, that moment lies strictly within its own request |
| LoadRuns.ToldMissingIff | internal/server/server.go:177-213 | A request whose key is in the store when it joins or starts a load is told "not found" exactly when it joins a call whose leader has already read nothing |
| LoadRuns.MisledIffJoinedTooLate | internal/server/server.go:169-176 | A request for a key present before it began is told "not found" exactly when, at some moment of its own, it so joins |
| LoadRuns.LateJoinerIsMisled | internal/server/server.go:169-176 | For any release, a concrete run in which a waiter is told "not found" although that release is in the store throughout its request |
| LoadRuns.LoadsTerminate | internal/server/server.go:177-213 | Steps taken plus work left never exceed the work at the start: at most 7 steps a request |
| LoadRuns.NoDeadlock | internal/server/server.go:182-208 | An unfinished request can step, or waits on a live leader that can |
| LoadRuns.QuietMeansFinished | internal/server/server.go:177-213 | When no thread can step, every request is answered and no call is left in the single-flight group |
| BlobProtocol.NextKeeps | internal/blobstore/cache.go:53-87 | Every step of concurrent `Get`, including a backend failure in the middle of a body, keeps: distinct cached blobs within budget, each what a miss on the stored object delivers |
| BlobProtocol.BudgetHolds | internal/blobstore/cache.go:154-174 | The byte budget holds at every moment, and no blob is cached twice even when several misses add the same one |
| BlobProtocol.CachedBodiesAreTheStores | internal/blobstore/cache.go:19-28 | If its own reported size is honest, a cached body is the stored object's, then and for ever |
| BlobProtocol.DeliveriesAreTheStores | internal/blobstore/cache.go:53-87 | Every reader returned yields the stored bytes and size, whether cached, buffered or streamed, unless the blob is cacheable and its own size is reported wrong |
| BlobProtocol.NoShortReads | internal/blobstore/cache.go:74-84 | A `Get` of a blob of honest size never fails with a short read |
| BlobProtocol.BufferedReadsAreExact | internal/blobstore/cache.go:74-86 | Whatever size is reported: the read of a blob into memory fails short exactly when the body is shorter, and otherwise yields its first so many bytes |
| BlobProtocol.ExactAccounting | internal/blobstore/cache.go:53-87 | In every reachable state, per key: backend reads = streamed + lost + added + found cached by another miss + refused + in hand; adds = evictions + (1 if cached) |
| BlobRuns.KeptIsCached | internal/blobstore/cache.go:154-174 | The step that adds a body leaves it in front, and behind it what was cached as far as the budget allows, and no less; only a body above the whole budget is refused, and then nothing changes |
| BlobRuns.CachedIsServedAtOnce | internal/blobstore/cache.go:57-59 | A cached blob is handed out in the first step, without a read, and moves to the front |
| BlobRuns.CountersCountSteps | internal/blobstore/cache.go:154-185 | Adds and evictions count the steps in which a key entered and left the cache |
| BlobProtocol.MissingWasTrue | internal/blobstore/cache.go:60-63 | A not-found was true at a moment when that same call was reading the backend |
| BlobProtocol.GetsFinish | internal/blobstore/cache.go:53-87 | A `Get` under way can always step, and each step brings it nearer its end |
| Lru.TrimIsLongest | internal/server/cache.go:85-103 | Eviction is exact: what survives is the longest prefix of the recency list that fits |
| Lru.LongestIsUnique | internal/server/cache.go:85-103 | And that description determines it |
| Lru.InsertRetains | internal/server/cache.go:85-92 | What is admitted is at the front afterwards: a manifest however large, a blob within budget |
| Lru.InsertKeeps | internal/server/cache.go:64-83 | Adding keeps keys distinct and the budgets, and brings in nothing but the new entry |
| Lru.TrimIsBounded | internal/server/cache.go:85-92 | In numbers: the first entry stays, beyond it both bounds hold, and to keep any more would break one |
| Lru.TrimIsWithinBytes | internal/blobstore/cache.go:171-173 | In numbers: the bytes kept are within the budget, and any more would not be |
| Recency.StaysPrefix | internal/server/cache.go:53-103 | Moving hits to the front, adding there, and evicting from the back keeps a prefix of the recency list of any history |
| Recency.StaysLongest | internal/server/cache.go:53-103 | And the longest within the bounds, if the entry used has the size it had |
| Lru.TouchKeeps | internal/server/cache.go:53-62 | A hit keeps the same entries, distinct and within budget |
| LruInclusion.Inclusion | internal/server/cache.go:53-103 | On every demand trace the contents under smaller budgets are a prefix of those under larger ones, and the larger cache never reads the backend more often; for the manifest cache with no condition on sizes |
| LruInclusion.BlobBudgetIsMonotoneIff | internal/blobstore/cache.go:53-87 | Raising the blob budget never adds a read, on all traces, if and only if the per-blob ceiling is within the smaller budget (or the budgets are equal) |
| LruInclusion.FloodCostsARead | internal/blobstore/cache.go:151-174 | Otherwise a concrete trace costs the larger cache one read more |
| LinkedList.List.PushFront | internal/server/cache.go:79 | Go's list operation on the ring: a fresh element in front, all links intact, nothing else moved |
| LinkedList.List.MoveToFront | internal/server/cache.go:58 | The element is first, the others keep their order and values |
| LinkedList.List.Remove | internal/server/cache.go:99 | Exactly that element leaves the ring |
| LinkedList.List.Back | internal/server/cache.go:95-98 | The last element, or null exactly when the list is empty |
| ManifestCache.ManifestCache.constructor | internal/server/cache.go:38-51 | An empty cache whose budgets are the arguments clamped to at least one entry and at least zero bytes |
| ManifestCache.ManifestCache.Get | internal/server/cache.go:53-62 | Finds exactly the cached keys; list, index and byte count stay consistent and the contents become the recency list with that key in front |
| ManifestCache.ManifestCache.Add | internal/server/cache.go:64-83 | New or refreshed, the entry is in front of the others in order; at most `cap` entries and, beyond a single one, at most `bytesCap` bytes are kept, and as many as that allows; the byte count stays the exact sum of sizes |
| ManifestCache.ManifestCache.EvictToBound | internal/server/cache.go:85-92 | From any consistent state: evicts until at most `cap` entries and, beyond a single one, at most `bytesCap` bytes are left, and no further; terminates |
| ManifestCache.ManifestCache.Evict | internal/server/cache.go:94-103 | Drops exactly the least recently used entry from list, index and byte count |
| ManifestCache.ManifestCache.Len | internal/server/cache.go:105-110 | The number of cached entries |
| BlobCache.BlobCache.constructor | internal/blobstore/cache.go:130-136 | An empty cache with the given budget |
| BlobCache.BlobCache.Get | internal/blobstore/cache.go:141-149 | Finds exactly the cached blobs and makes the one found the most recent |
| BlobCache.BlobCache.Add | internal/blobstore/cache.go:154-174 | A blob above the whole budget changes nothing; any other is in front of the others in order, and as many are kept as the budget allows; the loop terminates because an empty cache counts no bytes |
| BlobCache.BlobCache.Evict | internal/blobstore/cache.go:176-185 | Drops exactly the least recently used blob from list, index and byte count |
| BlobCache.BlobCache.Len | internal/blobstore/cache.go:187-192 | The number of cached blobs |
| BlobCache.NewCachingStore | internal/blobstore/cache.go:39-51 | No cache exactly when the budget is not positive; a ceiling that is not positive becomes the default |
| BlobCache.CachingStore.constructor | internal/blobstore/cache.go:43-50 | An empty cache under the given budget and defaulted ceiling |
| BlobCache.CachingStore.Get | internal/blobstore/cache.go:53-87 | The reader returned and the contents left behind on every branch (not a blob, hit, error, unknown or excessive size, short body, backend failure in mid-body, cached); the backend is asked exactly when the key is not a cached blob |
| BlobCache.ReadFull | internal/blobstore/cache.go:79-84 | Fills the buffer with the first bytes of the body; fails short, or with the backend's error, exactly when the body ends or the backend fails first |
| BlobCache.DeliveryIsFaithfulIff | internal/blobstore/cache.go:66-86 | A miss fails exactly when a cacheable body is too short, and otherwise delivers the stored bytes exactly unless a cacheable body is too long |
| BlobCache.HonestDelivery | internal/blobstore/cache.go:64-86 | With an honest size a miss delivers the stored bytes and size |
| Handler.Handler.ServeHTTP | internal/server/server.go:119-167 | One request over the real caches and counters: the answer is the cacheless reference's, or an internal error if a read of the backend fails; the caches stay true to the backend; the site's counters gain one request and exactly the bytes answered, its last activity is their time or else the request's, and nothing changes for any other site |
| Handler.Handler.Handle | internal/server/server.go:140-166 | After the load and the answer both caches hold exactly what the recency-list functions say |
| Handler.LoadedManifestIsCached | internal/server/server.go:179-207 | The manifest a request was answered from is then in front of its cache |
| Handler.AnsweredBlobIsCached | internal/blobstore/cache.go:53-87 | So is the blob it was answered with, if it is read into memory and within the budget and no read failed |
| Handler.Handler.LoadManifest | internal/server/server.go:177-213 | The leader's path: a cached manifest without the backend, otherwise what the backend holds or an error; the backend is read exactly on a miss, and no failure is cached |
| Handler.Handler.ReadBlob | internal/server/server.go:252-266 | Reading a blob through the cache, if there is one, yields what reading the backend yields, a failure at once or in mid-body included, and a cached blob without it; the cache stays true to the backend |
| Handler.Handler.constructor | internal/server/server.go:92-109 | A new handler's caches are empty; its manifest count bound defaults to 1024, and blobs are cached exactly under a positive budget |
| Handler.GetIsTransparent | internal/blobstore/cache.go:53-87 | On sound contents and an honest size, `Get` for any key is indistinguishable from the backend, its failures included, but for cached blobs, which do without it; and it keeps the contents sound |
| Handler.LoadFollowsTrace | internal/server/server.go:177-213 | A manifest load is one step of the demand traces of the inclusion theorem, with the same backend reads |
| Handler.GetFollowsTrace | internal/blobstore/cache.go:53-87 | So is a blob read of known honest size |
| Response.ReferenceIsUnique | internal/server/server.go:119-167 | The cacheless reference has one answer per store and request unless manifest keys clash |
| Response.ReferenceExists | internal/server/server.go:119-167 | And always has one |
| Answers.GetIsAnswered | internal/server/server.go:119-314 | What a plain GET is answered, in terms of the store, the decoded manifest and the path alone: the first published candidate, or a single-page release's index, with bytes, type, cache header, tag, length, date and noindex mark; else the release's not-found document under 404, or the built-in page; a plain 404 for a missing blob |
| Answers.CleanUrlIsAnswered | internal/resolve/resolve.go:50-103 | The clean-URL rules on answers: a name gets its file, else, without a dot, its directory index, else its page; a directory its index |
| Answers.SinglePageRouteGetsIndex | internal/server/server.go:161-163 | A route of a single-page release that names no file of it gets the index under 200 |
| Answers.PublishedFileIsServed | internal/server/server.go:119-293 | End to end: a plain GET of the URL of a file whose stripped key is clean and which no other key takes precedence over or contends with, published and requested with leading slashes or without, is answered by that file |
| Answers.ErrorsAreAnswered | internal/server/server.go:119-149 | 405 for any method but GET and HEAD, 400 for a path without a site, 404 for a release that is not there, 500 for one without files, with an empty blob id, or that cannot be decoded; whatever the store |
| Response.StreamedBlobIsReferenced | internal/server/server.go:252 | Only blobs the manifest refers to are streamed, whatever the request path |
| Response.SinglePageReleaseAlwaysServes | internal/server/server.go:152-166 | A single-page release with an index resolves every request to an entry, and answers 404 exactly when the blob to be sent is missing |
| Response.StatusIs404Iff | internal/server/server.go:152-262 | An answer is a 404 exactly when the manifest holds no candidate of the path (and no single-page index), or the blob to be sent is missing |
| Response.MissIsAnswered | internal/server/server.go:295-314 | A miss is a 404 whatever the method or validator: the release's not-found document under its own tag, the built-in page without one, the same headers for HEAD, and a plain 404 for a GET whose not-found document has lost its blob |
| Response.HeadMirrorsGetIff | internal/server/server.go:247-262 | HEAD is answered as GET without body and length exactly when GET does not fail for want of a blob |
| Response.HeadHidesMissingBlob | internal/server/server.go:247-262 | For any release whose only file is its index, a store that holds it without the blob: the reference answers a GET of the release's URL 404 and a HEAD of it 200 with a tag |
| Response.TagsRevalidate | internal/server/server.go:350-363 | A list of tags, whatever date comes with it, gets the unconditional HEAD's answer under status 304 exactly when that is a 200 under one of the tags, and otherwise the unconditional answer (sections 13.1.2 and 13.2.2 of RFC 9110) |
| Response.StarRevalidates | internal/cacheheader/cacheheader.go:60-67 | `*`, however padded, gets the 304 of whatever is served; a header of blanks gets the unconditional answer, whatever date comes with it |
| Response.DateRevalidates | internal/server/server.go:350-363 | A date alone does so exactly when the path is served and the release was created before the end of that second |
| Response.ReplayedTag | internal/server/server.go:218-293 | Replaying the comma-free tag of a 200 against any release on any store gets a bodiless 304 exactly when the path is served under that tag there, and otherwise the unconditional answer, a missing blob included |
| Response.CommaDefeatsRevalidation | internal/cacheheader/cacheheader.go:69-73 | Replaying a tag with a comma to the release that sent it gets the unconditional answer: the unchanged blob again |
| CacheHeader.NotModifiedIffListed | internal/cacheheader/cacheheader.go:49-75 | For every list of comma-free quoted tags, however padded and weakened, the header matches exactly the listed blob ids: the weak comparison of sections 13.1.2 and 8.8.3.2 of RFC 9110 |
| CacheHeader.TagNormalizes | internal/cacheheader/cacheheader.go:77-84 | Padding and weak prefixes never change which tag an element denotes |
| CacheHeader.StarMatchesAnything | internal/cacheheader/cacheheader.go:60-67 | A lone star, however padded, matches every tag; a blank header none |
| CacheHeader.CommaNeverMatches | internal/cacheheader/cacheheader.go:60-74 | A blob id with a comma is matched by a lone star and by nothing else |
| CacheHeader.ReplayMatchesIffCommaFree | internal/cacheheader/cacheheader.go:45-74 | A tag matches itself exactly when its blob id has no comma |
| CacheHeader.ReplayMatchesOnlyItself | internal/cacheheader/cacheheader.go:45-74 | A comma-free tag matches that of another blob id exactly when the ids are equal |
| Resolve.NormalizeIsTheStack | internal/resolve/resolve.go:119-128 | Normalization is the segment-stack fold for every input string, and its "." branch is unreachable |
| Resolve.NormalizeIsClean | internal/resolve/resolve.go:114-128 | Every normalized path is empty or has only plain segments, with no outer slash |
| Resolve.NormalizeFixesClean | internal/resolve/resolve.go:119-128 | Clean keys are fixed points |
| Resolve.NormalizeIsIdempotent | internal/resolve/resolve.go:119-128 | Normalizing twice is normalizing once |
| Resolve.NormalizeIgnoresLeadingSlashes | internal/resolve/resolve.go:119-128 | Any number of leading slashes is invisible |
| Resolve.ResolveIsFirstExisting | internal/resolve/resolve.go:50-103 | Resolution refines "first existing candidate, else the miss outcome" |
| Resolve.CleanUrlRules | internal/resolve/resolve.go:50-112 | The documented rules, spelled out for the root, a clean directory and a clean name: index, exact file, directory index, page, and the single-page index or not-found |
| Resolve.ResolveDependsOnStackAndSlash | internal/resolve/resolve.go:60-103 | It depends on the segment stack and the trailing slash alone |
| Resolve.ResolveIsSound | internal/resolve/resolve.go:60-112 | What is served exists and is clean; the fallback happens only for a single-page release and is its index; not-found exactly when no candidate exists and no fallback applies |
| Resolve.DirectoryHitIsAlsoSlashless | internal/resolve/resolve.go:75-100 | A directory hit is also the answer to the slash-less extensionless form when no file has that bare name |
| GoPath.CleaningIsTheNormalForm | internal/resolve/resolve.go:122 | The four documented rules of `path.Clean` are confluent: applied in any order until none applies they give the fold |
| GoPath.CleaningReachesTheFold | internal/resolve/resolve.go:122 | And from any segments some order of application gets there |
| GoPath.JoinPathFolds | internal/blobstore/blobstore.go:50-59 | Joining segments and one last element of any form cleans them all |
| GoPath.FoldFollowsRoute | internal/blobstore/blobstore.go:50-59 | Cleaning what follows a directory is climbing from it, and then descending, as the rest alone directs |
| GoPath.JoinPathOfPlain | internal/blobstore/blobstore.go:50-59 | Joining plain segments is separating them by slashes, and splitting gives them back |
| GoText.PiecesAreUnique | internal/server/server.go:334 | What `strings.SplitN` promises determines its result |
| GoText.TrimSpaceIs | internal/cacheheader/cacheheader.go:61 | `strings.TrimSpace` takes off all blanks at both ends and nothing else |
| GoText.SpacesAndTabsAreBlank | internal/cacheheader/cacheheader.go:80-83 | The blanks HTTP allows around list elements are among them |
| GoText.ByteLenBounds | internal/manifest/manifest.go:130 | A string's length in bytes is that of its characters for ASCII, and at most four times as much |
| GoText.ContainsInnerPart | internal/blobstore/cache.go:100-102 | A slash-delimited word occurs in a joined path exactly when it is one of its inner segments |
| Site.ParseSiteIsExact | internal/server/server.go:327-348 | Parsing accepts exactly the paths that spell a site with three non-empty slash-free segments, and returns that site |
| Site.FileToUrlRoundTrip | internal/server/server.go:331-348 | A file key whose stripped form is clean is hit by its own URL, through parsing, re-keying and resolution, even if published with leading slashes |
| Manifest.EntryIsKeptIff | internal/manifest/manifest.go:155-193 | A published key, slash-prefixed or not, is served with its own entry by every load exactly when its canonical twin, if there is one, agrees with it, and otherwise all keys that strip to its path do |
| Site.CanonicalKeyKeepsItsEntry | internal/manifest/manifest.go:162-163 | A canonical key is served with its own entry whatever slash-prefixed twins it has |
| Manifest.CanonicalizeFileKeys | internal/manifest/manifest.go:164-193 | The three loops, each in an order of its own, compute the re-keying that the lemmas below describe, in the order of the last |
| Manifest.RekeyIsRekeying | internal/manifest/manifest.go:155-193 | For every order: output keys are exactly the stripped input keys, canonical entries keep their value, any other takes that of some input with the same stripped form |
| Manifest.RekeyIsIdempotent | internal/manifest/manifest.go:164-193 | Re-keying twice, in any two orders, is re-keying once |
| Manifest.OrderIsImmaterialIffNoClash | internal/manifest/manifest.go:182-191 | The order is immaterial if and only if no two slash-prefixed keys with different entries strip to the same absent key |
| Manifest.FillIsFirstComeFirstServed | internal/manifest/manifest.go:182-191 | In the second pass the first key of the order that strips to an absent key supplies its entry |
| Manifest.TotalSizeSplits | internal/manifest/manifest.go:128-132 | The size sum does not depend on iteration order |
| Manifest.Precompute | internal/manifest/manifest.go:121-133 | The size accumulated in any order is the base plus the sum over all entries of their lengths in UTF-8 bytes; dates are kept or absent |
| Manifest.SizeIsText | internal/manifest/manifest.go:128-132 | A manifest is charged the UTF-8 length of all its keys, blob ids, content types and cache classes, 96 bytes an entry, and 512 |
| Manifest.Load | internal/manifest/manifest.go:137-153 | Succeeds exactly on a decodable value with files and no empty blob id, says which of these failed, and otherwise yields a manifest with the re-keyed files |
| Manifest.LoadedIsWellFormed | internal/manifest/manifest.go:142-152 | A loaded manifest has no slash-prefixed key, no empty blob id, and at least the base size |
| Manifest.LoadIsDeterministic | internal/manifest/manifest.go:137-153 | Without clashing keys an object loads to one manifest only |
| StorageKeys.ManifestKeySpells | internal/blobstore/blobstore.go:49-52 | Where any project, name and release of a parsed path lead, "." and ".." included |
| StorageKeys.ManifestKeysCoincideIff | internal/blobstore/blobstore.go:49-52 | Two parsed sites share a manifest key exactly when those places are the same |
| StorageKeys.PlainManifestKeyIsUnshared | internal/blobstore/blobstore.go:49-52 | No other release of any parsed site, plain or dotted, shares the key of a plainly named one |
| StorageKeys.DottedSitesShareKeys | internal/blobstore/blobstore.go:49-52 | Dotted ones can: (".", n) and (n, ".") share all their keys |
| StorageKeys.ManifestKeySplitsBackIff | internal/blobstore/blobstore.go:49-52 | A manifest key splits into the parts of the storage layout exactly when project, name and release are plain |
| StorageKeys.BlobKeyLands | internal/blobstore/blobstore.go:54-59 | A blob key is where its id leads from its site's blobs, whatever the id and the site's names |
| StorageKeys.LandingFollowsDirections | internal/blobstore/blobstore.go:54-59 | From a plainly named site: up as often as the cleaned id climbs, then down the names it ends with |
| StorageKeys.BlobStaysInSiteIff | internal/blobstore/blobstore.go:54-59 | A blob key lies under its own site's prefix exactly when project and name are plain and the id, once cleaned, names something below, climbing no higher than it comes back by the same names |
| StorageKeys.SlashFreeIdStaysIff | internal/blobstore/blobstore.go:54-59 | An id without slashes stays exactly when it is none of "", "." and ".." |
| StorageKeys.PlainIdStays | internal/blobstore/blobstore.go:54-59 | An id of plain segments stays, as a digest does |
| StorageKeys.BlobKeysCoincideIff | internal/blobstore/blobstore.go:54-59 | Two blob ids of any parsed sites share a key exactly when they lead to one place |
| StorageKeys.StayingBlobKeysCoincideIff | internal/blobstore/blobstore.go:54-59 | Ids that stay share a key exactly when site and place below it are the same |
| StorageKeys.BlobKeyIsInjective | internal/blobstore/blobstore.go:54-59 | Ids of plain segments share a key only if they are the same id of the same site |
| StorageKeys.BlobKeyIsManifestKeyIff | internal/blobstore/blobstore.go:49-59 | A blob key is a manifest key exactly when its id leads to that manifest; one that stays below the blobs of a plainly named site never is |
| StorageKeys.ClimbingIdReachesManifest | internal/blobstore/blobstore.go:54-59 | The id `../releases/x` leads to the manifest of release x |
| StorageKeys.ClimbingIdReachesOtherSite | internal/blobstore/blobstore.go:54-59 | The id `../../../q/m/blobs/x` leads to blob x of site (q, m) |
| StorageKeys.BlobTest | internal/blobstore/cache.go:97-102 | A blob key passes the substring test exactly when its id leads through a directory called "blobs", as every id does that stays below the blobs of a plainly named site |
| StorageKeys.ManifestTest | internal/blobstore/cache.go:97-102 | A manifest key passes it exactly when it leads through a directory called "blobs": for a plain release, when project or name is that |
| Metrics.Metrics.TouchSite | internal/metrics/metrics.go:64-78 | Sets the site's last activity, tracked before or not |
| Metrics.Metrics.ObserveRequest | internal/metrics/metrics.go:80-86 | Adds one request and marks the site active |
| Metrics.Metrics.AddResponseBytes | internal/metrics/metrics.go:88-96 | Adds the bytes and marks the site active; nothing at all for n <= 0 |
| Metrics.Metrics.EvictIdle | internal/metrics/metrics.go:130-144 | Visiting the tracked sites in any order and dropping as it goes removes exactly the idle sites, from all three maps |
| Metrics.SeriesAreTracked | internal/metrics/metrics.go:56-61 | In every run a series exists exactly for the tracked sites, so none leaks |
| Metrics.BytesAreConserved | internal/metrics/metrics.go:88-144 | Bytes ever added to a site equal its counter plus what sweeps dropped |
| Metrics.RequestsAreConserved | internal/metrics/metrics.go:80-144 | The same for requests |
| Metrics.LastSeenIsLatest | internal/metrics/metrics.go:63-78 | No bytes of a tracked site are later than its last activity |
| Metrics.RecentBytesSurvive | internal/metrics/metrics.go:133-144 | Bytes added since the latest cutoff of any sweep are all on the counter |
| Metrics.BillingWindowIsComplete | internal/metrics/metrics.go:104-106 | With a time to live of at least the billing window, the counter always holds all bytes of the last window |
| Metrics.RecentRequestsSurvive | internal/metrics/metrics.go:133-144 | Requests since the latest cutoff of any sweep are all on the counter too |
| Metrics.SweepKeepsExactlyActive | internal/metrics/metrics.go:130-144 | A sweep that looks back as far as any before it keeps the series of exactly the sites active within its time to live |
| Metrics.IdleIsDropped | internal/metrics/metrics.go:130-144 | After any sweep a site without activity within its time to live has no series |

## Left out

- main.go, internal/blobstore/gcs.go and internal/blobstore/fake.go: wiring, the cloud client and a test double; a backend read is a step that yields an object, a not-found or a failure (a timeout is a failure).
- internal/contenttype/contenttype.go: a constant lookup table.
- JSON decoding, `Canonical` and `ReleaseSHA`: an object carries what the decoder makes of it.
- Date parsing and formatting: dates arrive as instants and their HTTP-date text.
- Logging, buffer pooling, closing of readers, and request contexts.
- Headers of plain error answers, the Allow header, and the two constant security headers; `noindex` is modelled.
- Client disconnects and backend failures in mid-stream: a body that is streamed is sent whole, and its bytes counted whole.
- Go's integer widths: lengths, sizes and byte counts are unbounded, and the Prometheus counters are exact rather than floating point.
- Strings are sequences of characters; lengths in bytes are those of their UTF-8 encoding.
- `container/list` is Go's own library and is modelled from its documentation, as a ring with a sentinel; removed elements keep no owner link.
- The single-flight group is modelled from its documentation; a panic inside a load is not.
- Blob bodies are values: that cached slices are shared between readers, and must not be written to, is not captured.
- Races inside `touch` and `evictIdle`: each metric operation is one step, as the claim that every series is tracked fails at a finer grain.
- Gateway.AnswersAreCurrent: a manifest whose key passes the blob test is read through the blob cache as well; such a read is one step of the load, with its trace left in the blob cache at any step, and the size reported for that manifest is taken to be honest.
- Gateway.AnswersMatchReference: the same.
- Handler.Handler.constructor: without a blob budget the handler keeps an unused blob cache beside the backend, where the source has none.
- Handler.Handler.ServeHTTP: the store stands still during the request; concurrent publication is in module Gateway. The size reported for the blob to be read, if it is read into memory, is taken to be honest; a misreported one is in Gateway.AnswersAreCurrent.
- Handler.Handler.Handle: as for ServeHTTP.
- Handler.Handler.LoadManifest: no other load is in flight; concurrent loads are in modules LoadProtocol and LoadRuns. The timeout of a load is a failed read.
- Handler.Handler.ReadBlob: the size is taken to be honest; once a body is streamed uncached, a backend failure cuts off an answer whose status is already sent, which is not modelled.
- The built-in 404 page is a parameter, and request headers other than the two conditional ones are ignored.
