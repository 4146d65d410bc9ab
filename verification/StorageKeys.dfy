/** Storage keys of manifests and blobs (internal/blobstore/blobstore.go), and the substring test
    that tells a cacheable blob read from any other (internal/blobstore/cache.go). Both keys are
    cleaned paths, so that "." and ".." in what they are made of move them about: the lemmas say
    exactly where to. */
module StorageKeys {
  import opened GoText
  import opened GoPath

  function ManifestKey(project: string, name: string, releaseSha: string): string {
    JoinPath(["sites", project, name, "releases", releaseSha])
  }

  function BlobKey(project: string, name: string, blobSha: string): string {
    JoinPath(["sites", project, name, "blobs", blobSha])
  }

  predicate IsBlobKey(key: string) {
    Contains(key, "/blobs/")
  }

  /** `x` is a segment with others on both sides. */
  ghost predicate Inner(segs: Segments, x: string) {
    exists i :: 0 < i < |segs| - 1 && segs[i] == x
  }

  lemma SpelledTest(segs: Segments)
    requires Cleaned(segs)
    ensures IsBlobKey(Spelling(segs)) <==> Inner(segs, "blobs")
  {
    assert ['/'] + "blobs" + ['/'] == "/blobs/";
    if segs == [] {
      assert |"."| == 1;
    } else {
      ContainsInnerPart(segs, "blobs", '/');
    }
  }

  // ----- Manifest keys -----

  /** What is left of "sites", the project and the name. */
  function SitePart(project: string, name: string): Segments {
    if project == ".." then
      (if name == ".." then [".."] else if name == "." then [] else [name])
    else
      var dir := if project == "." then ["sites"] else ["sites", project];
      if name == "." then dir else if name == ".." then dir[..|dir| - 1] else dir + [name]
  }

  /** What is left of "releases" and the release. */
  function ReleasePart(releaseSha: string): Segments {
    if releaseSha == ".." then [] else if releaseSha == "." then ["releases"] else ["releases", releaseSha]
  }

  /** The segments of a manifest key. */
  function Layout(project: string, name: string, releaseSha: string): Segments {
    SitePart(project, name) + ReleasePart(releaseSha)
  }

  lemma FoldSite(project: string, name: string)
    requires Segment(project) && Segment(name)
    ensures Fold(false, [], ["sites", project, name]) == SitePart(project, name)
  {
    FoldThree("sites", project, name);
    PushProject(project);
    PushName(project, name);
  }

  function ProjectPart(project: string): Segments {
    if project == "." then ["sites"] else if project == ".." then [] else ["sites", project]
  }

  lemma PushProject(project: string)
    requires Segment(project)
    ensures Push(false, Push(false, [], "sites"), project) == ProjectPart(project)
  {
    PushPops([], "sites");
    assert [] + ["sites"] == ["sites"] && ["sites"] + [project] == ["sites", project];
  }

  lemma PushName(project: string, name: string)
    requires Segment(project) && Segment(name)
    ensures Push(false, ProjectPart(project), name) == SitePart(project, name)
  {
    if name == ".." {
      if project != "." && project != ".." {
        PushPops(["sites"], project);
        assert ["sites"] + [project] == ["sites", project];
      } else {
        PushPops([], "sites");
      }
    }
  }

  lemma FoldThree(x: string, y: string, z: string)
    ensures Fold(false, [], [x, y, z]) == Push(false, Push(false, Push(false, [], x), y), z)
  {
    assert [x, y, z] == [x] + [y] + [z];
    FoldAppend(false, [], [x] + [y], [z]);
    FoldAppend(false, [], [x], [y]);
    FoldOne([], x);
    FoldOne(Push(false, [], x), y);
    FoldOne(Push(false, Push(false, [], x), y), z);
  }

  lemma FoldRelease(dir: Segments, releaseSha: string)
    requires Segment(releaseSha)
    ensures Fold(false, dir, ["releases", releaseSha]) == dir + ReleasePart(releaseSha)
  {
    assert ["releases", releaseSha] == ["releases"] + [releaseSha];
    FoldAppend(false, dir, ["releases"], [releaseSha]);
    FoldOne(dir, "releases");
    FoldOne(dir + ["releases"], releaseSha);
    PushPops(dir, "releases");
    assert dir + ["releases"] + [releaseSha] == dir + ["releases", releaseSha];
    assert dir + [] == dir;
  }

  /** A manifest key spells its layout. */
  lemma ManifestKeySpells(p: string, n: string, r: string)
    requires Segment(p) && Segment(n) && Segment(r)
    ensures ManifestKey(p, n, r) == Spelling(Layout(p, n, r)) && Cleaned(Layout(p, n, r))
  {
    var dirs, segs := ["sites", p, n, "releases"], ["sites", p, n] + ["releases", r];
    assert dirs + [r] == segs == ["sites", p, n, "releases", r];
    SplitNone(r, '/');
    JoinPathFolds(dirs, r);
    FoldAppend(false, [], ["sites", p, n], ["releases", r]);
    FoldSite(p, n);
    FoldRelease(SitePart(p, n), r);
    FoldIsCleaned([], segs);
  }

  /** Two sites share a manifest key exactly when their layouts agree. */
  lemma ManifestKeysCoincideIff(p: string, n: string, r: string, p': string, n': string, r': string)
    requires Segment(p) && Segment(n) && Segment(r) && Segment(p') && Segment(n') && Segment(r')
    ensures ManifestKey(p, n, r) == ManifestKey(p', n', r') <==> Layout(p, n, r) == Layout(p', n', r')
  {
    ManifestKeySpells(p, n, r);
    ManifestKeySpells(p', n', r');
    if ManifestKey(p, n, r) == ManifestKey(p', n', r') {
      SpellingIsInjective(Layout(p, n, r), Layout(p', n', r'));
    }
  }

  lemma LayoutOfPlain(p: string, n: string, r: string)
    requires Segment(p) && Segment(n) && Segment(r)
    ensures |Layout(p, n, r)| <= 5
    ensures |Layout(p, n, r)| == 5 <==> Plain(p) && Plain(n) && Plain(r)
    ensures |Layout(p, n, r)| == 5 ==> Layout(p, n, r) == ["sites", p, n, "releases", r]
  {
    assert |SitePart(p, n)| <= 3 && (|SitePart(p, n)| == 3 <==> Plain(p) && Plain(n));
    assert |ReleasePart(r)| <= 2 && (|ReleasePart(r)| == 2 <==> Plain(r));
  }

  /** No two releases of which one is plainly named share a key. */
  lemma PlainManifestKeyIsUnshared(p: string, n: string, r: string, p': string, n': string, r': string)
    requires Plain(p) && Plain(n) && Plain(r) && Segment(p') && Segment(n') && Segment(r')
    requires ManifestKey(p, n, r) == ManifestKey(p', n', r')
    ensures p == p' && n == n' && r == r'
  {
    ManifestKeysCoincideIff(p, n, r, p', n', r');
    LayoutOfPlain(p, n, r);
    LayoutOfPlain(p', n', r');
    var a, b := ["sites", p, n, "releases", r], ["sites", p', n', "releases", r'];
    assert a == b;
    assert a[1] == b[1] && a[2] == b[2] && a[4] == b[4];
  }

  /** Sites with a "." for a project or for a name, and the other alike, share their keys. */
  lemma DottedSitesShareKeys(n: string, r: string)
    requires Plain(n) && Segment(r)
    ensures ManifestKey(".", n, r) == ManifestKey(n, ".", r)
  {
    assert SitePart(".", n) == ["sites"] + [n];
    ManifestKeysCoincideIff(".", n, r, n, ".", r);
  }

  /** The storage layout: a manifest key splits into "sites", the project, the name, "releases" and
      the release exactly when these are plain. */
  lemma ManifestKeySplitsBackIff(p: string, n: string, r: string)
    requires Segment(p) && Segment(n) && Segment(r)
    ensures Split(ManifestKey(p, n, r), '/') == ["sites", p, n, "releases", r] <==> Plain(p) && Plain(n) && Plain(r)
  {
    ManifestKeySpells(p, n, r);
    LayoutOfPlain(p, n, r);
    if Layout(p, n, r) == [] {
      SplitNone(".", '/');
    } else {
      SpellingSplits(Layout(p, n, r));
    }
  }

  // ----- Blob keys -----

  /** The directory of a site's blobs. */
  function BlobDir(project: string, name: string): Segments {
    ["sites", project, name, "blobs"]
  }

  function BlobPrefix(project: string, name: string): string {
    Join(BlobDir(project, name), '/') + "/"
  }

  /** A blob id as directions from there. */
  function Directions(id: string): Route {
    RouteOf(Split(id, '/'))
  }

  /** Where an id leads, whatever the names of its site. */
  function Landing(project: string, name: string, id: string): Segments {
    Fold(false, [], BlobDir(project, name) + Split(id, '/'))
  }

  /** A blob key spells where its id leads. */
  lemma BlobKeyLands(p: string, n: string, id: string)
    requires Segment(p) && Segment(n)
    ensures BlobKey(p, n, id) == Spelling(Landing(p, n, id)) && Cleaned(Landing(p, n, id))
  {
    assert BlobDir(p, n) + [id] == ["sites", p, n, "blobs", id];
    JoinPathFolds(BlobDir(p, n), id);
    SplitFree(id, '/');
    FoldIsCleaned([], BlobDir(p, n) + Split(id, '/'));
  }

  /** From a plainly named site, ids lead where their directions say. */
  lemma LandingFollowsDirections(p: string, n: string, id: string)
    requires Plain(p) && Plain(n)
    ensures Landing(p, n, id) == From(BlobDir(p, n), Directions(id))
  {
    var dir := BlobDir(p, n);
    SplitFree(id, '/');
    FoldAppend(false, [], dir, Split(id, '/'));
    FoldOfPlain(false, [], dir);
    assert [] + dir == dir;
    FoldFollowsRoute(dir, Split(id, '/'));
  }

  /** The id leads below its site's blobs: it names something there, or climbs out and names the same
      directories again on its way back in. */
  predicate Stays(project: string, name: string, id: string) {
    var r := Directions(id);
    r.up <= 4 && BlobDir(project, name)[4 - r.up..] < r.down
  }

  /** The segments below its site's blobs that a staying id names. */
  function Below(id: string): Segments
    requires Directions(id).up <= |Directions(id).down|
  {
    Directions(id).down[Directions(id).up..]
  }

  lemma LandsBelowIffStays(p: string, n: string, id: string)
    requires Plain(p) && Plain(n)
    ensures BlobDir(p, n) < Landing(p, n, id) <==> Stays(p, n, id)
    ensures Stays(p, n, id) ==> Landing(p, n, id) == BlobDir(p, n) + Below(id)
  {
    var r := Directions(id);
    LandingFollowsDirections(p, n, id);
    if r.up <= 4 {
      ExtendsIff(BlobDir(p, n), 4 - r.up, r.down);
    } else {
      ClimbsAbove(BlobDir(p, n), r);
    }
  }

  lemma ClimbsAbove(dir: Segments, r: Route)
    requires r.up > |dir| > 0 && dir[0] == "sites"
    ensures !(dir < From(dir, r))
  {
    UpsAreDots(r.up - |dir|);
    assert From(dir, r)[0] == "..";
  }

  lemma ExtendsIff(dir: Segments, i: nat, down: Segments)
    requires i <= |dir|
    ensures dir < dir[..i] + down <==> dir[i..] < down
    ensures dir[i..] < down ==> dir[..i] + down == dir + down[|dir| - i..]
  {
    var all := dir[..i] + down;
    assert all[i..] == down;
    if dir < all {
      assert dir == all[..|dir|];
      assert dir[i..] == down[..|dir| - i];
    }
    if dir[i..] < down {
      assert down == dir[i..] + down[|dir| - i..];
      assert all == dir + down[|dir| - i..];
    }
  }

  /** After "sites", segments are all plain unless they climb above it. */
  lemma FoldUnderSites(segs: Segments)
    requires Free(segs, '/')
    ensures var f := Fold(false, [], ["sites"] + segs); f != [] && f[0] == "sites" ==> AllPlain(f)
  {
    FoldAppend(false, [], ["sites"], segs);
    FoldOne([], "sites");
    assert [] + ["sites"] == ["sites"];
    FoldFollowsRoute(["sites"], segs);
    RouteGoesDownNames(segs);
    FromIsPlain(["sites"], RouteOf(segs));
  }

  lemma UnderOwnNamesIsPlain(p: string, n: string, segs: Segments)
    requires Segment(p) && Segment(n) && Free(segs, '/')
    requires BlobDir(p, n) < Fold(false, [], BlobDir(p, n) + segs)
    ensures Plain(p) && Plain(n)
  {
    var dir, f := BlobDir(p, n), Fold(false, [], BlobDir(p, n) + segs);
    assert dir + segs == ["sites"] + ([p, n, "blobs"] + segs);
    FoldUnderSites([p, n, "blobs"] + segs);
    assert f[0] == dir[0] && f[1] == dir[1] && f[2] == dir[2];
  }

  /** A blob key lies under its own site's prefix exactly when the site is plainly named and the id
      stays below the site's blobs. */
  lemma BlobStaysInSiteIff(p: string, n: string, id: string)
    requires Segment(p) && Segment(n)
    ensures HasPrefix(BlobKey(p, n, id), BlobPrefix(p, n)) <==> Plain(p) && Plain(n) && Stays(p, n, id)
  {
    BlobKeyLands(p, n, id);
    BelowIffExtends(BlobDir(p, n), Landing(p, n, id));
    if Plain(p) && Plain(n) {
      LandsBelowIffStays(p, n, id);
    } else if BlobDir(p, n) < Landing(p, n, id) {
      SplitFree(id, '/');
      UnderOwnNamesIsPlain(p, n, Split(id, '/'));
    }
  }

  /** For an id without slashes: exactly when it is none of "", "." and "..". */
  lemma SlashFreeIdStaysIff(p: string, n: string, id: string)
    requires '/' !in id
    ensures Stays(p, n, id) <==> id != "" && id != "." && id != ".."
  {
    SplitNone(id, '/');
    assert [id][..0] == [];
    assert RouteOf([id]) == Walk(Route(0, []), id);
    assert BlobDir(p, n)[4..] == [] && BlobDir(p, n)[3..] == ["blobs"];
  }

  lemma PlainRoute(segs: Segments)
    requires AllPlain(segs)
    ensures RouteOf(segs) == Route(0, segs)
  {
    RouteThenNames([], segs);
    assert [] + segs == segs;
  }

  lemma PlainIdStays(p: string, n: string, id: string)
    requires AllPlain(Split(id, '/'))
    ensures Stays(p, n, id) && Below(id) == Split(id, '/')
  {
    var segs := Split(id, '/');
    PlainRoute(segs);
    StraightDownStays(p, n, id, segs);
  }

  lemma StraightDownStays(p: string, n: string, id: string, segs: Segments)
    requires Directions(id) == Route(0, segs) && segs != []
    ensures Stays(p, n, id) && Below(id) == segs
  {
    assert BlobDir(p, n)[4..] == [];
  }

  /** Two blob ids share a key exactly when they lead to one place. */
  lemma BlobKeysCoincideIff(p: string, n: string, id: string, p': string, n': string, id': string)
    requires Segment(p) && Segment(n) && Segment(p') && Segment(n')
    ensures BlobKey(p, n, id) == BlobKey(p', n', id') <==> Landing(p, n, id) == Landing(p', n', id')
  {
    BlobKeyLands(p, n, id);
    BlobKeyLands(p', n', id');
    if BlobKey(p, n, id) == BlobKey(p', n', id') {
      SpellingIsInjective(Landing(p, n, id), Landing(p', n', id'));
    }
  }

  /** Ids that stay share a key exactly when site and place below it are the same. */
  lemma StayingBlobKeysCoincideIff(p: string, n: string, id: string, p': string, n': string, id': string)
    requires Plain(p) && Plain(n) && Plain(p') && Plain(n') && Stays(p, n, id) && Stays(p', n', id')
    ensures BlobKey(p, n, id) == BlobKey(p', n', id') <==> p == p' && n == n' && Below(id) == Below(id')
  {
    BlobKeysCoincideIff(p, n, id, p', n', id');
    LandsBelowIffStays(p, n, id);
    LandsBelowIffStays(p', n', id');
    var a, b := Landing(p, n, id), Landing(p', n', id');
    if a == b {
      assert a[1] == b[1] && a[2] == b[2] && a[4..] == b[4..];
      assert a[4..] == Below(id) && b[4..] == Below(id');
    }
  }

  /** Ids made of plain segments share a key only if they are the same id of the same site. */
  lemma BlobKeyIsInjective(p: string, n: string, id: string, p': string, n': string, id': string)
    requires Plain(p) && Plain(n) && Plain(p') && Plain(n')
    requires AllPlain(Split(id, '/')) && AllPlain(Split(id', '/'))
    requires BlobKey(p, n, id) == BlobKey(p', n', id')
    ensures p == p' && n == n' && id == id'
  {
    PlainIdStays(p, n, id);
    PlainIdStays(p', n', id');
    StayingBlobKeysCoincideIff(p, n, id, p', n', id');
    JoinSplit(id, '/');
    JoinSplit(id', '/');
  }

  // ----- Manifest and blob keys -----

  /** A blob key is a manifest key exactly when the id leads to that manifest; one that stays below the
      blobs of a plainly named site never is, whatever the names of the other site. */
  lemma BlobKeyIsManifestKeyIff(p: string, n: string, r: string, p': string, n': string, id: string)
    requires Segment(p) && Segment(n) && Segment(r) && Segment(p') && Segment(n')
    ensures BlobKey(p', n', id) == ManifestKey(p, n, r) <==> Landing(p', n', id) == Layout(p, n, r)
    ensures Plain(p') && Plain(n') && Stays(p', n', id) ==> BlobKey(p', n', id) != ManifestKey(p, n, r)
  {
    BlobKeyLands(p', n', id);
    ManifestKeySpells(p, n, r);
    if BlobKey(p', n', id) == ManifestKey(p, n, r) {
      SpellingIsInjective(Landing(p', n', id), Layout(p, n, r));
    }
    if Plain(p') && Plain(n') && Stays(p', n', id) {
      LayoutOfPlain(p, n, r);
      LandsBelowIffStays(p', n', id);
      var a, b := Landing(p', n', id), Layout(p, n, r);
      assert a[3] == "blobs" && |a| >= 5;
      assert |b| == 5 ==> b[3] == "releases";
    }
  }

  /** Ids that climb reach the manifests of their own site. */
  lemma ClimbingIdReachesManifest(p: string, n: string, x: string)
    requires Plain(p) && Plain(n) && Plain(x)
    ensures BlobKey(p, n, Join(["..", "releases", x], '/')) == ManifestKey(p, n, x)
  {
    var id, names := Join(["..", "releases", x], '/'), ["releases", x];
    assert ["..", "releases", x] == Ups(1) + names;
    UpsThenNamesSplit(1, names);
    OutAndDown(p, n, 1, names, id);
    assert BlobDir(p, n)[..3] + names == Layout(p, n, x);
    BlobKeyIsManifestKeyIff(p, n, x, p, n, id);
  }

  /** And the blobs of any other site. */
  lemma ClimbingIdReachesOtherSite(p: string, n: string, q: string, m: string, x: string)
    requires Plain(p) && Plain(n) && Plain(q) && Plain(m) && Plain(x)
    ensures BlobKey(p, n, Join(["..", "..", "..", q, m, "blobs", x], '/')) == BlobKey(q, m, x)
  {
    var id, names := Join(["..", "..", "..", q, m, "blobs", x], '/'), [q, m, "blobs", x];
    assert ["..", "..", "..", q, m, "blobs", x] == Ups(3) + names;
    UpsThenNamesSplit(3, names);
    OutAndDown(p, n, 3, names, id);
    LandsBelow(q, m, x);
    assert BlobDir(p, n)[..1] + names == BlobDir(q, m) + [x];
    BlobKeysCoincideIff(p, n, id, q, m, x);
  }

  lemma LandsBelow(p: string, n: string, id: string)
    requires Plain(p) && Plain(n) && Plain(id)
    ensures Landing(p, n, id) == BlobDir(p, n) + [id]
  {
    SplitNone(id, '/');
    PlainIdStays(p, n, id);
    LandsBelowIffStays(p, n, id);
  }

  /** So many ups and then names lead out of the blobs' directory and down. */
  lemma OutAndDown(p: string, n: string, ups: nat, names: Segments, id: string)
    requires Plain(p) && Plain(n) && AllPlain(names) && ups <= 4 && Split(id, '/') == Ups(ups) + names
    ensures Landing(p, n, id) == BlobDir(p, n)[..4 - ups] + names
  {
    LandingFollowsDirections(p, n, id);
    RouteOfUpsThenNames(ups, names);
  }

  // ----- The blob test -----

  /** A blob key passes the blob test exactly when its id leads through some directory called "blobs":
      always, if it stays below the blobs of a plainly named site. */
  lemma BlobTest(p: string, n: string, id: string)
    requires Segment(p) && Segment(n)
    ensures IsBlobKey(BlobKey(p, n, id)) <==> Inner(Landing(p, n, id), "blobs")
    ensures Plain(p) && Plain(n) && Stays(p, n, id) ==> IsBlobKey(BlobKey(p, n, id))
  {
    BlobKeyLands(p, n, id);
    SpelledTest(Landing(p, n, id));
    if Plain(p) && Plain(n) && Stays(p, n, id) {
      LandsBelowIffStays(p, n, id);
      assert Landing(p, n, id)[3] == "blobs";
    }
  }

  /** A manifest key passes the blob test exactly when its layout leads through a directory called
      "blobs": for a plainly named release, when the project or the site is called that. */
  lemma ManifestTest(p: string, n: string, r: string)
    requires Segment(p) && Segment(n) && Segment(r)
    ensures IsBlobKey(ManifestKey(p, n, r)) <==> Inner(Layout(p, n, r), "blobs")
    ensures Plain(p) && Plain(n) && Plain(r) ==> (IsBlobKey(ManifestKey(p, n, r)) <==> p == "blobs" || n == "blobs")
  {
    ManifestKeySpells(p, n, r);
    SpelledTest(Layout(p, n, r));
    LayoutOfPlain(p, n, r);
    if Plain(p) && Plain(n) && Plain(r) {
      var segs := ["sites", p, n, "releases", r];
      assert segs[1] == p && segs[2] == n && segs[3] == "releases";
    }
  }
}
