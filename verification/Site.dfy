/** The request path prefix (`parseSite`, internal/server/server.go) and the round trip from a
    manifest file key to the URL that serves it. */
module Site {
  import opened Wrappers
  import opened GoText
  import opened GoPath
  import Resolve
  import Manifest

  datatype Site = Site(project: string, name: string, releaseSha: string, rest: string)

  function ParseSite(p: string): Option<Site> {
    FromParts(SplitN(TrimPrefix(p, "/"), '/', 4))
  }

  function FromParts(parts: seq<string>): Option<Site> {
    if |parts| < 3 || parts[0] == "" || parts[1] == "" || parts[2] == "" then None
    else Some(Site(parts[0], parts[1], parts[2], if |parts| == 4 then "/" + parts[3] else "/"))
  }

  /** `p` spells the site: its three prefix segments and its remainder, joined by slashes. */
  ghost predicate Spells(p: string, s: Site) {
    var t := TrimPrefix(p, "/");
    || (s.rest == "/" && t == Join([s.project, s.name, s.releaseSha], '/'))
    || (HasPrefix(s.rest, "/") && t == Join([s.project, s.name, s.releaseSha] + [s.rest[1..]], '/'))
  }

  lemma SpelledParses(p: string, s: Site)
    requires Segment(s.project) && Segment(s.name) && Segment(s.releaseSha) && Spells(p, s)
    ensures ParseSite(p) == Some(s)
  {
    var t := TrimPrefix(p, "/");
    var three := [s.project, s.name, s.releaseSha];
    if s.rest == "/" && t == Join(three, '/') {
      SplitNIs(three, t, '/', 4);
    } else {
      SplitNIs(three + [s.rest[1..]], t, '/', 4);
      assert s.rest == "/" + s.rest[1..];
    }
  }

  lemma ParsedIsSpelled(p: string)
    requires ParseSite(p).Some?
    ensures var s := ParseSite(p).value;
            Segment(s.project) && Segment(s.name) && Segment(s.releaseSha) && Spells(p, s)
  {
    var t := TrimPrefix(p, "/");
    var parts := SplitN(t, '/', 4);
    SplitNPieces(t, '/', 4);
    assert parts[..3] == [parts[0], parts[1], parts[2]];
    if |parts| == 4 {
      assert parts == parts[..3] + [parts[3]];
      assert ("/" + parts[3])[1..] == parts[3];
    } else {
      assert parts == parts[..3];
    }
  }

  /** Parsing accepts exactly the paths that spell a site, and returns that site. */
  lemma ParseSiteIsExact(p: string, s: Site)
    ensures ParseSite(p) == Some(s)
       <==> Segment(s.project) && Segment(s.name) && Segment(s.releaseSha) && Spells(p, s)
  {
    if ParseSite(p).Some? {
      ParsedIsSpelled(p);
    }
    if Segment(s.project) && Segment(s.name) && Segment(s.releaseSha) && Spells(p, s) {
      SpelledParses(p, s);
    }
  }

  /** The URL of a file, as the edge rewrites it. */
  function FileUrl(project: string, name: string, sha: string, key: string): string {
    "/" + Join([project, name, sha, key], '/')
  }

  lemma CleanKeyResolvesToItself(key: string, pad: string, exists_: Resolve.Lookup, spa: bool)
    requires Resolve.IsClean(key) && exists_(key)
    requires forall i :: 0 <= i < |pad| ==> pad[i] == '/'
    ensures Resolve.Resolve(pad + key, exists_, spa) == Resolve.Hit(key)
  {
    Resolve.NormalizeFixesClean(key);
    Resolve.NormalizeIgnoresLeadingSlashes(pad, key);
    Resolve.NormalizeIsClean(key);
    assert (pad + key)[|pad + key| - 1] == key[|key| - 1];
    assert !HasSuffix(pad + key, "/");
  }

  /** Every file a release publishes under a clean path is served at its own URL, even when its
      publisher wrote the key with leading slashes: the request parses to the release it names, and
      resolution against the loaded manifest hits exactly the stripped key. */
  lemma FileToUrlRoundTrip(project: string, name: string, sha: string, decoded: Option<Manifest.Raw>,
                           m: Manifest.Manifest, key: string)
    requires Segment(project) && Segment(name) && Segment(sha)
    requires Manifest.LoadsTo(decoded, m) && key in decoded.value.files.value
    requires Resolve.IsClean(Manifest.Strip(key))
    ensures ParseSite(FileUrl(project, name, sha, key)) == Some(Site(project, name, sha, "/" + key))
    ensures Resolve.Resolve("/" + key, p => p in m.files, m.spa) == Resolve.Hit(Manifest.Strip(key))
    ensures m.Lookup(Manifest.Strip(key)).Some?
  {
    UrlParses(project, name, sha, key);
    StrippedKeyResolves(key, m);
  }

  lemma UrlParses(project: string, name: string, sha: string, key: string)
    requires Segment(project) && Segment(name) && Segment(sha)
    ensures ParseSite(FileUrl(project, name, sha, key)) == Some(Site(project, name, sha, "/" + key))
  {
    var site := Site(project, name, sha, "/" + key);
    assert site.rest[1..] == key;
    assert [project, name, sha, key] == [project, name, sha] + [key];
    SpelledParses(FileUrl(project, name, sha, key), site);
  }

  /** The URL of a release's root. */
  lemma RootUrlParses(project: string, name: string, sha: string)
    requires Segment(project) && Segment(name) && Segment(sha)
    ensures ParseSite(FileUrl(project, name, sha, "")) == Some(Site(project, name, sha, "/"))
  {
    UrlParses(project, name, sha, "");
    assert "/" + "" == "/";
  }

  /** The slashes in front of a key, and one more. */
  lemma StrippedSlashes(key: string) returns (pad: string)
    ensures "/" + key == pad + Manifest.Strip(key) && forall i :: 0 <= i < |pad| ==> pad[i] == '/'
  {
    var n := |key| - |Manifest.Strip(key)|;
    pad := "/" + key[..n];
    assert key == key[..n] + key[n..];
  }

  lemma StrippedKeyResolves(key: string, m: Manifest.Manifest)
    requires Resolve.IsClean(Manifest.Strip(key)) && Manifest.Strip(key) in m.files
    ensures Resolve.Resolve("/" + key, p => p in m.files, m.spa) == Resolve.Hit(Manifest.Strip(key))
  {
    var pad := StrippedSlashes(key);
    CleanKeyResolvesToItself(Manifest.Strip(key), pad, p => p in m.files, m.spa);
  }

  /** A canonical key is served with its own entry, whatever slash-prefixed twins it has. */
  lemma CanonicalKeyKeepsItsEntry(decoded: Option<Manifest.Raw>, m: Manifest.Manifest, key: string)
    requires Manifest.LoadsTo(decoded, m) && key in decoded.value.files.value && !Manifest.Slashed(key)
    ensures m.Lookup(key) == Some(decoded.value.files.value[key])
  {
    Manifest.StripFacts(key);
    Manifest.EntryIsKeptIff(decoded, key);
  }
}
