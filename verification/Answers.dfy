/** What requests are answered, spelled out from what was published: the store, the decoded manifest and
    the request path alone, with no word of how the gateway arrives there. */
module Answers {
  import opened Wrappers
  import opened Store
  import opened GoText
  import opened Manifest
  import opened Response
  import GoPath
  import Resolve
  import Site
  import StorageKeys

  // ----- What is published -----

  /** Some key of the release is `c`, but for leading slashes. */
  ghost predicate Publishes(files: Files, c: string) {
    exists k :: k in files && Strip(k) == c
  }

  /** The release publishes `f` as `c`: under that very key, if it has it, and else under one that is
      `c` but for leading slashes. */
  ghost predicate PublishedAs(files: Files, c: string, f: File) {
    if c in files then f == files[c] else exists k :: k in files && Strip(k) == c && f == files[k]
  }

  ghost predicate NonePublished(files: Files, candidates: seq<string>) {
    forall x :: x in candidates ==> !Publishes(files, x)
  }

  /** The path whose file is to be sent under status 200: the first candidate that is published, and for
      a single-page release without any, its index. */
  ghost predicate Chosen(raw: Raw, rest: string, c: string)
    requires raw.files.Some?
  {
    var files, candidates := raw.files.value, Resolve.Candidates(Resolve.Stack(rest), HasSuffix(rest, "/"));
    Publishes(files, c) &&
    if NonePublished(files, candidates) then raw.spa && c == "index.html"
    else exists i :: 0 <= i < |candidates| && c == candidates[i] && NonePublished(files, candidates[..i])
  }

  // ----- What is sent -----

  /** The headers a file is sent under. */
  function FileHead(raw: Raw, f: File, status: nat): Response {
    Document(status, f.contentType,
             if f.cache == "immutable" then "public, max-age=31536000, immutable"
             else "public, max-age=0, must-revalidate",
             Some("\"" + f.blob + "\""),
             if raw.created.Some? then raw.created.value.httpDate else "",
             HasPrefix(f.contentType, "text/html") && raw.environment != "production", None, [])
  }

  /** A file, unless its blob is missing. */
  function Sent(raw: Raw, f: File, status: nat, store: Store, key: string): Response {
    if key !in store then Plain(404, "blob not found")
    else
      var blob := store[key];
      FileHead(raw, f, status).(
        contentLength := if blob.reported.Some? && blob.reported.value >= 0 then blob.reported else None,
        body := blob.body)
  }

  function NotFoundName(raw: Raw): string {
    if raw.notFound == "" then "404.html" else raw.notFound
  }

  function BuiltInPage(raw: Raw, page: Body): Response {
    Document(404, "text/html; charset=utf-8", "public, max-age=0, must-revalidate", None, "",
             raw.environment != "production", None, page)
  }

  function Get(path: string): Request {
    Request("GET", path, "", None)
  }

  // ----- The manifest that is loaded -----

  lemma LoadedIsPublished(raw: Raw, m: Manifest, c: string)
    requires LoadsTo(Some(raw), m)
    ensures c in m.files <==> Publishes(raw.files.value, c)
    ensures c in m.files ==> PublishedAs(raw.files.value, c, m.files[c])
  {
    var files := raw.files.value;
    if c in m.files {
      var k :| k in files && Strip(k) == c && m.files[c] == files[k];
      StripFacts(k);
    }
  }

  lemma NoneIsLoaded(raw: Raw, m: Manifest, candidates: seq<string>)
    requires LoadsTo(Some(raw), m)
    ensures NonePublished(raw.files.value, candidates) <==> forall x :: x in candidates ==> x !in m.files
  {
    forall x | x in candidates
      ensures Publishes(raw.files.value, x) <==> x in m.files
    {
      LoadedIsPublished(raw, m, x);
    }
  }

  lemma {:induction false} FirstIsChosen(candidates: seq<string>, exists_: Resolve.Lookup, i: nat,
                                        otherwise: Resolve.Result)
    requires i < |candidates| && exists_(candidates[i]) && forall x :: x in candidates[..i] ==> !exists_(x)
    ensures Resolve.FirstExisting(candidates, exists_, otherwise) == Resolve.Hit(candidates[i])
    decreases i
  {
    if i > 0 {
      assert candidates[0] in candidates[..i];
      assert candidates[1..][..i - 1] == candidates[..i][1..];
      FirstIsChosen(candidates[1..], exists_, i - 1, otherwise);
    }
  }

  lemma {:induction false} NoneIsChosen(candidates: seq<string>, exists_: Resolve.Lookup, otherwise: Resolve.Result)
    requires forall x :: x in candidates ==> !exists_(x)
    ensures Resolve.FirstExisting(candidates, exists_, otherwise) == otherwise
  {
    if candidates != [] {
      NoneIsChosen(candidates[1..], exists_, otherwise);
    }
  }

  /** What the candidates that are loaded say about the entry that is served. */
  lemma FirstIsServed(s: Site.Site, m: Manifest, candidates: seq<string>, i: nat)
    requires candidates == Resolve.Candidates(Resolve.Stack(s.rest), HasSuffix(s.rest, "/"))
    requires i < |candidates| && candidates[i] in m.files && forall x :: x in candidates[..i] ==> x !in m.files
    ensures Served(s, m) == Some(m.files[candidates[i]])
  {
    var exists_: Resolve.Lookup := p => m.Lookup(p).Some?;
    Resolve.ResolveIsFirstExisting(s.rest, exists_, m.spa);
    FirstIsChosen(candidates, exists_, i, Resolve.Miss(exists_, m.spa));
    assert Resolution(s, m) == Resolve.Hit(candidates[i]);
  }

  lemma IndexIsServed(s: Site.Site, m: Manifest, candidates: seq<string>)
    requires candidates == Resolve.Candidates(Resolve.Stack(s.rest), HasSuffix(s.rest, "/"))
    requires m.spa && "index.html" in m.files && forall x :: x in candidates ==> x !in m.files
    ensures Served(s, m) == Some(m.files["index.html"])
  {
    var exists_: Resolve.Lookup := p => m.Lookup(p).Some?;
    Resolve.ResolveIsFirstExisting(s.rest, exists_, m.spa);
    NoneIsChosen(candidates, exists_, Resolve.Miss(exists_, m.spa));
    assert Resolution(s, m) == Resolve.SpaFallback("index.html");
  }

  lemma ChosenIsServed(s: Site.Site, m: Manifest, raw: Raw, c: string)
    requires LoadsTo(Some(raw), m) && Chosen(raw, s.rest, c)
    ensures c in m.files && Served(s, m) == Some(m.files[c])
  {
    var files := raw.files.value;
    var candidates := Resolve.Candidates(Resolve.Stack(s.rest), HasSuffix(s.rest, "/"));
    LoadedIsPublished(raw, m, c);
    if NonePublished(files, candidates) {
      NoneIsLoaded(raw, m, candidates);
      IndexIsServed(s, m, candidates);
    } else {
      var i :| 0 <= i < |candidates| && c == candidates[i] && NonePublished(files, candidates[..i]);
      NoneIsLoaded(raw, m, candidates[..i]);
      FirstIsServed(s, m, candidates, i);
    }
  }

  lemma FirstPublished(files: Files, candidates: seq<string>, n: nat) returns (i: nat)
    requires n < |candidates| && Publishes(files, candidates[n])
    ensures i < |candidates| && Publishes(files, candidates[i]) && NonePublished(files, candidates[..i])
    decreases n
  {
    if NonePublished(files, candidates[..n]) {
      i := n;
    } else {
      var x :| x in candidates[..n] && Publishes(files, x);
      var j :| 0 <= j < n && candidates[j] == x;
      i := FirstPublished(files, candidates, j);
    }
  }

  lemma UnchosenIsMissed(s: Site.Site, m: Manifest, raw: Raw)
    requires LoadsTo(Some(raw), m) && forall c :: !Chosen(raw, s.rest, c)
    ensures Served(s, m).None?
  {
    var files := raw.files.value;
    var candidates := Resolve.Candidates(Resolve.Stack(s.rest), HasSuffix(s.rest, "/"));
    if !NonePublished(files, candidates) {
      var x :| x in candidates && Publishes(files, x);
      var n :| 0 <= n < |candidates| && candidates[n] == x;
      var i := FirstPublished(files, candidates, n);
      assert Chosen(raw, s.rest, candidates[i]);
    } else {
      assert !Chosen(raw, s.rest, "index.html");
      NoneIsLoaded(raw, m, candidates);
      LoadedIsPublished(raw, m, "index.html");
      ServedIff(s, m);
    }
  }

  // ----- Answers -----

  lemma HeadIsPublished(path: string, s: Site.Site, m: Manifest, raw: Raw, f: File, status: nat)
    requires LoadsTo(Some(raw), m)
    ensures ServeBlob(Get(path), s, m, f, status)
         == Stream(StorageKeys.BlobKey(s.project, s.name, f.blob), FileHead(raw, f, status))
  {
  }

  lemma FinishIsSent(raw: Raw, f: File, status: nat, store: Store, key: string)
    ensures Finish(FileHead(raw, f, status), ReadStore(store, key)) == Sent(raw, f, status, store, key)
  {
  }

  lemma PlannedAnswer(page: Body, store: Store, path: string, s: Site.Site, m: Manifest, raw: Raw, f: File, status: nat)
    requires Serve(page, Get(path), s, m)
          == Stream(StorageKeys.BlobKey(s.project, s.name, f.blob), FileHead(raw, f, status))
    ensures Direct(page, store, Get(path), s, m)
         == Sent(raw, f, status, store, StorageKeys.BlobKey(s.project, s.name, f.blob))
  {
    FinishIsSent(raw, f, status, store, StorageKeys.BlobKey(s.project, s.name, f.blob));
  }

  lemma ServedAnswer(page: Body, store: Store, path: string, s: Site.Site, m: Manifest, raw: Raw, f: File)
    requires LoadsTo(Some(raw), m) && Served(s, m) == Some(f)
    ensures Direct(page, store, Get(path), s, m)
         == Sent(raw, f, 200, store, StorageKeys.BlobKey(s.project, s.name, f.blob))
  {
    HeadIsPublished(path, s, m, raw, f, 200);
    PlannedAnswer(page, store, path, s, m, raw, f, 200);
  }

  lemma NamesAgree(m: Manifest, raw: Raw)
    requires LoadsTo(Some(raw), m)
    ensures m.NotFoundDoc() == NotFoundName(raw)
  {
  }

  lemma DocumentAnswer(page: Body, store: Store, path: string, s: Site.Site, m: Manifest, raw: Raw, f: File)
    requires LoadsTo(Some(raw), m) && Served(s, m).None? && m.Lookup(m.NotFoundDoc()) == Some(f)
    ensures Direct(page, store, Get(path), s, m)
         == Sent(raw, f, 404, store, StorageKeys.BlobKey(s.project, s.name, f.blob))
  {
    HeadIsPublished(path, s, m, raw, f, 404);
    PlannedAnswer(page, store, path, s, m, raw, f, 404);
  }

  lemma PageAnswer(page: Body, store: Store, path: string, s: Site.Site, m: Manifest, raw: Raw)
    requires LoadsTo(Some(raw), m) && Served(s, m).None? && m.Lookup(m.NotFoundDoc()).None?
    ensures Direct(page, store, Get(path), s, m) == BuiltInPage(raw, page)
  {
  }

  /** What a plain GET of a release is answered. With a chosen path: its file as published, with its bytes,
      type, cache class, tag, length, the release's date, and a noindex mark on HTML outside
      production; or a plain 404 if the blob is missing. Without one: so too the release's not-found
      document, under status 404, or the built-in page if it publishes none. */
  lemma GetIsAnswered(page: Body, store: Store, path: string, s: Site.Site, raw: Raw, resp: Response)
    requires Site.ParseSite(path) == Some(s)
    requires var k := StorageKeys.ManifestKey(s.project, s.name, s.releaseSha);
             k in store && store[k].decoded == Some(raw) && Loadable(Some(raw))
    requires IsReference(page, store, Get(path), resp)
    ensures forall c :: Chosen(raw, s.rest, c) ==> IsSent(raw, c, 200, store, s, resp)
    ensures (forall c :: !Chosen(raw, s.rest, c)) ==>
              if Publishes(raw.files.value, NotFoundName(raw)) then IsSent(raw, NotFoundName(raw), 404, store, s, resp)
              else resp == BuiltInPage(raw, page)
  {
    var m :| LoadsTo(Some(raw), m) && resp == Direct(page, store, Get(path), s, m);
    forall c | Chosen(raw, s.rest, c)
      ensures IsSent(raw, c, 200, store, s, resp)
    {
      ChosenIsServed(s, m, raw, c);
      LoadedIsPublished(raw, m, c);
      ServedAnswer(page, store, path, s, m, raw, m.files[c]);
    }
    if forall c :: !Chosen(raw, s.rest, c) {
      UnchosenIsMissed(s, m, raw);
      NamesAgree(m, raw);
      LoadedIsPublished(raw, m, NotFoundName(raw));
      if NotFoundName(raw) in m.files {
        DocumentAnswer(page, store, path, s, m, raw, m.files[NotFoundName(raw)]);
      } else {
        PageAnswer(page, store, path, s, m, raw);
      }
    }
  }

  /** The answer is the file published as `c`. */
  ghost predicate IsSent(raw: Raw, c: string, status: nat, store: Store, s: Site.Site, resp: Response)
    requires raw.files.Some?
  {
    exists f :: PublishedAs(raw.files.value, c, f)
                && resp == Sent(raw, f, status, store, StorageKeys.BlobKey(s.project, s.name, f.blob))
  }

  /** A route of a single-page release that names no file of it gets the index, under status 200. */
  lemma SinglePageRouteGetsIndex(page: Body, store: Store, path: string, s: Site.Site, raw: Raw, resp: Response)
    requires Site.ParseSite(path) == Some(s)
    requires var k := StorageKeys.ManifestKey(s.project, s.name, s.releaseSha);
             k in store && store[k].decoded == Some(raw) && Loadable(Some(raw))
    requires IsReference(page, store, Get(path), resp)
    requires raw.spa && "index.html" in raw.files.value
    requires NonePublished(raw.files.value, Resolve.Candidates(Resolve.Stack(s.rest), HasSuffix(s.rest, "/")))
    ensures var index := raw.files.value["index.html"];
            resp == Sent(raw, index, 200, store, StorageKeys.BlobKey(s.project, s.name, index.blob))
  {
    StripFacts("index.html");
    assert Publishes(raw.files.value, "index.html");
    assert Chosen(raw, s.rest, "index.html");
    GetIsAnswered(page, store, path, s, raw, resp);
  }

  /** The clean-URL rules on answers: for a clean path `c`, a GET of "c" is answered by the file `c`; else,
      if its last segment has no dot, by its directory index, and else by its page; and a GET of "c/" by
      its directory index. */
  lemma CleanUrlIsAnswered(page: Body, store: Store, path: string, s: Site.Site, raw: Raw, c: string, resp: Response)
    requires Site.ParseSite(path) == Some(s) && Resolve.IsClean(c)
    requires var k := StorageKeys.ManifestKey(s.project, s.name, s.releaseSha);
             k in store && store[k].decoded == Some(raw) && Loadable(Some(raw))
    requires IsReference(page, store, Get(path), resp)
    ensures s.rest == "/" + c ==>
              NameIsAnswered(raw, c, c + "/index.html", c + ".html", '.' in Split(c, '/')[|Split(c, '/')| - 1],
                             store, s, resp)
    ensures s.rest == "/" + c + "/" && Publishes(raw.files.value, c + "/index.html") ==>
              IsSent(raw, c + "/index.html", 200, store, s, resp)
  {
    GetIsAnswered(page, store, path, s, raw, resp);
    Resolve.CandidatesOfClean(c);
    Resolve.CleanHasNoLastSlash(c);
    Resolve.StackIgnoresLastSlash("/" + c);
    if s.rest == "/" + c {
      NameIsChosen(raw, s.rest, c, c + "/index.html", c + ".html", '.' in Split(c, '/')[|Split(c, '/')| - 1]);
    } else if s.rest == "/" + c + "/" {
      OneIsChosen(raw, s.rest, c + "/index.html");
    }
  }

  /** The file, or else, if the name has no dot, its directory index, or else its page. */
  ghost predicate NameIsAnswered(raw: Raw, file: string, index: string, html: string, dotted: bool, store: Store,
                                 s: Site.Site, resp: Response)
    requires raw.files.Some?
  {
    var files := raw.files.value;
    if Publishes(files, file) then IsSent(raw, file, 200, store, s, resp)
    else if dotted then true
    else if Publishes(files, index) then IsSent(raw, index, 200, store, s, resp)
    else Publishes(files, html) ==> IsSent(raw, html, 200, store, s, resp)
  }

  lemma NameIsChosen(raw: Raw, rest: string, file: string, index: string, html: string, dotted: bool)
    requires raw.files.Some?
    requires Resolve.Candidates(Resolve.Stack(rest), HasSuffix(rest, "/"))
          == if dotted then [file] else [file, index, html]
    ensures var files := raw.files.value;
            if Publishes(files, file) then Chosen(raw, rest, file)
            else if dotted then true
            else if Publishes(files, index) then Chosen(raw, rest, index)
            else Publishes(files, html) ==> Chosen(raw, rest, html)
  {
    if dotted {
      OneIsChosen(raw, rest, file);
    } else {
      OneOfThreeIsChosen(raw, rest, [file, index, html]);
    }
  }

  lemma NonePublishedBefore(files: Files, candidates: seq<string>, i: nat)
    requires i <= |candidates| && forall j :: 0 <= j < i ==> !Publishes(files, candidates[j])
    ensures NonePublished(files, candidates[..i])
  {
  }

  lemma ChosenAt(raw: Raw, rest: string, candidates: seq<string>, i: nat)
    requires raw.files.Some? && candidates == Resolve.Candidates(Resolve.Stack(rest), HasSuffix(rest, "/"))
    requires i < |candidates| && Publishes(raw.files.value, candidates[i])
    requires forall j :: 0 <= j < i ==> !Publishes(raw.files.value, candidates[j])
    ensures Chosen(raw, rest, candidates[i])
  {
    NonePublishedBefore(raw.files.value, candidates, i);
    assert candidates[i] in candidates;
  }

  lemma OneIsChosen(raw: Raw, rest: string, a: string)
    requires raw.files.Some? && Resolve.Candidates(Resolve.Stack(rest), HasSuffix(rest, "/")) == [a]
    ensures Publishes(raw.files.value, a) ==> Chosen(raw, rest, a)
  {
    if Publishes(raw.files.value, a) {
      ChosenAt(raw, rest, [a], 0);
    }
  }

  lemma OneOfThreeIsChosen(raw: Raw, rest: string, all: seq<string>)
    requires raw.files.Some? && Resolve.Candidates(Resolve.Stack(rest), HasSuffix(rest, "/")) == all && |all| == 3
    ensures var files := raw.files.value;
            if Publishes(files, all[0]) then Chosen(raw, rest, all[0])
            else if Publishes(files, all[1]) then Chosen(raw, rest, all[1])
            else Publishes(files, all[2]) ==> Chosen(raw, rest, all[2])
  {
    var files := raw.files.value;
    if Publishes(files, all[0]) {
      ChosenAt(raw, rest, all, 0);
    } else if Publishes(files, all[1]) {
      ChosenAt(raw, rest, all, 1);
    } else if Publishes(files, all[2]) {
      ChosenAt(raw, rest, all, 2);
    }
  }

  /** What is published is what is served. Take a file published under a clean path, with leading
      slashes or without, that no other key takes precedence over or contends with. A plain GET of its
      URL, with leading slashes or without, is answered by that file. */
  lemma PublishedFileIsServed(page: Body, store: Store, project: string, name: string, sha: string, raw: Raw,
                              key: string, path: string, resp: Response)
    requires GoPath.Segment(project) && GoPath.Segment(name) && GoPath.Segment(sha)
    requires Loadable(Some(raw)) && key in raw.files.value && Owns(raw.files.value, key)
    requires Resolve.IsClean(Strip(key)) && Strip(path) == Strip(key)
    requires var k := StorageKeys.ManifestKey(project, name, sha); k in store && store[k].decoded == Some(raw)
    requires IsReference(page, store, Get(Site.FileUrl(project, name, sha, path)), resp)
    ensures var f := raw.files.value[key];
            resp == Sent(raw, f, 200, store, StorageKeys.BlobKey(project, name, f.blob))
  {
    var s, c := Site.Site(project, name, sha, "/" + path), Strip(key);
    Site.UrlParses(project, name, sha, path);
    GetIsAnswered(page, store, Site.FileUrl(project, name, sha, path), s, raw, resp);
    PublishedIsChosen(raw, path, c);
    var f :| PublishedAs(raw.files.value, c, f)
             && resp == Sent(raw, f, 200, store, StorageKeys.BlobKey(project, name, f.blob));
  }

  lemma PublishedIsChosen(raw: Raw, path: string, c: string)
    requires raw.files.Some? && Publishes(raw.files.value, c) && Resolve.IsClean(c) && Strip(path) == c
    ensures Chosen(raw, "/" + path, c)
  {
    var pad := Site.StrippedSlashes(path);
    Resolve.NormalizeFixesClean(c);
    Resolve.NormalizeIgnoresLeadingSlashes(pad, c);
    Resolve.NormalizeIgnoresLeadingSlashes("/", c);
    Resolve.CandidatesOfClean(c);
    Resolve.NormalizeIsClean(c);
    assert ("/" + path)[|"/" + path| - 1] == c[|c| - 1];
    NameIsChosen(raw, "/" + path, c, c + "/index.html", c + ".html", '.' in Split(c, '/')[|Split(c, '/')| - 1]);
  }

  // ----- Refusals and errors -----

  /** Whatever the store: any method but GET and HEAD is refused, then any path without a site; a release
      that is not there is a 404, and one whose manifest has no files, or an empty blob id, or cannot be
      decoded, an internal error. */
  lemma ErrorsAreAnswered(page: Body, store: Store, req: Request, resp: Response)
    requires IsReference(page, store, req, resp)
    ensures req.method_ != "GET" && req.method_ != "HEAD" ==> resp == Plain(405, "method not allowed")
    ensures (req.method_ == "GET" || req.method_ == "HEAD") ==>
              match Site.ParseSite(req.path)
              case None => resp == Plain(400, "bad request")
              case Some(s) =>
                var k := StorageKeys.ManifestKey(s.project, s.name, s.releaseSha);
                && (k !in store ==> resp == Plain(404, "release not found"))
                && (k in store && !IsManifest(store[k].decoded) ==> resp == Plain(500, "internal error"))
  {
  }

  ghost predicate IsManifest(decoded: Option<Raw>) {
    decoded.Some? && decoded.value.files.Some? && forall f :: f in decoded.value.files.value.Values ==> f.blob != ""
  }
}
