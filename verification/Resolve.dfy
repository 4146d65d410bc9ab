/** Clean-URL resolution (internal/resolve/resolve.go): which manifest entry a request path names. */
module Resolve {
  import opened GoText
  import opened GoPath

  datatype Result = Hit(path: string) | NotFound | SpaFallback(path: string)

  type Lookup = string -> bool

  const INDEX_HTML: string := "index.html"

  function Normalize(reqPath: string): string {
    var cleaned := Clean("/" + reqPath);
    var logical := TrimPrefix(cleaned, "/");
    if logical == "." then "" else logical
  }

  function JoinIndex(dir: string): string {
    var trimmed := TrimSuffix(dir, "/");
    if trimmed == "" then INDEX_HTML else trimmed + "/" + INDEX_HTML
  }

  function Miss(exists_: Lookup, spa: bool): Result {
    if spa && exists_(INDEX_HTML) then SpaFallback(INDEX_HTML) else NotFound
  }

  function Resolve(reqPath: string, exists_: Lookup, spa: bool): Result {
    var logical := Normalize(reqPath);
    if logical == "" then
      if exists_(INDEX_HTML) then Hit(INDEX_HTML) else Miss(exists_, spa)
    else if HasSuffix(reqPath, "/") then
      if exists_(JoinIndex(logical)) then Hit(JoinIndex(logical)) else Miss(exists_, spa)
    else if exists_(logical) then Hit(logical)
    else if Ext(logical) == "" && exists_(JoinIndex(logical)) then Hit(JoinIndex(logical))
    else if Ext(logical) == "" && exists_(logical + ".html") then Hit(logical + ".html")
    else Miss(exists_, spa)
  }

  // ----- Normalization -----

  /** The stack of plain segments a request path stands for. */
  function Stack(reqPath: string): Segments {
    Fold(true, [], Split(reqPath, '/'))
  }

  /** A manifest key in canonical form: slash-separated plain segments. */
  ghost predicate IsClean(key: string) {
    key != "" && AllPlain(Split(key, '/'))
  }

  lemma StackIsPlain(reqPath: string)
    ensures AllPlain(Stack(reqPath))
  {
    SplitFree(reqPath, '/');
    FoldRootedPlain([], Split(reqPath, '/'));
  }

  lemma {:induction false} JoinOfPlain(segs: Segments)
    requires AllPlain(segs)
    ensures segs == [] ==> Join(segs, '/') == ""
    ensures segs != [] ==>
              var s := Join(segs, '/');
              IsClean(s) && Split(s, '/') == segs && s[0] != '/' && s[|s| - 1] != '/' && s != "."
  {
    if segs != [] {
      SplitJoin(segs, '/');
      JoinEnds(segs, '/');
      SplitNone(".", '/');
    }
  }

  /** `normalize` is the segment-stack fold: cleaning the slash-prefixed path, stripping the slash
      and the check for "." together compute exactly the joined stack, and that check never fires. */
  lemma NormalizeIsTheStack(reqPath: string)
    ensures Normalize(reqPath) == Join(Stack(reqPath), '/')
    ensures TrimPrefix(Clean("/" + reqPath), "/") != "."
    ensures Normalize(reqPath) == "" <==> Stack(reqPath) == []
  {
    assert "/" + reqPath == "" + ['/'] + reqPath;
    SplitAppend("", reqPath, '/');
    assert Split("/" + reqPath, '/') == [""] + Split(reqPath, '/');
    assert ([""] + Split(reqPath, '/'))[1..] == Split(reqPath, '/');
    StackIsPlain(reqPath);
    JoinOfPlain(Stack(reqPath));
    var body := Join(Stack(reqPath), '/');
    assert Clean("/" + reqPath) == "/" + body;
    assert ("/" + body)[1..] == body;
  }

  /** Every normalized path is empty or clean: no empty, "." or ".." segment, no outer slash. */
  lemma NormalizeIsClean(reqPath: string)
    ensures var n := Normalize(reqPath);
            n == "" || (IsClean(n) && n[0] != '/' && n[|n| - 1] != '/' && Split(n, '/') == Stack(reqPath))
  {
    NormalizeIsTheStack(reqPath);
    StackIsPlain(reqPath);
    JoinOfPlain(Stack(reqPath));
  }

  lemma NormalizeFixesClean(key: string)
    requires IsClean(key)
    ensures Normalize(key) == key && Stack(key) == Split(key, '/')
  {
    NormalizeIsTheStack(key);
    FoldOfPlain(true, [], Split(key, '/'));
    assert [] + Split(key, '/') == Split(key, '/');
    JoinSplit(key, '/');
  }

  lemma NormalizeIsIdempotent(reqPath: string)
    ensures Normalize(Normalize(reqPath)) == Normalize(reqPath)
  {
    NormalizeIsClean(reqPath);
    var n := Normalize(reqPath);
    if n == "" {
      NormalizeIsTheStack("");
    } else {
      NormalizeFixesClean(n);
    }
  }

  /** Leading slashes are invisible to normalization. */
  lemma {:induction false} NormalizeIgnoresLeadingSlashes(pad: string, s: string)
    requires forall i :: 0 <= i < |pad| ==> pad[i] == '/'
    ensures Stack(pad + s) == Stack(s)
    ensures Normalize(pad + s) == Normalize(s)
  {
    if pad == "" {
      assert pad + s == s;
    } else {
      var rest := pad[1..] + s;
      assert pad + s == "" + ['/'] + rest;
      SplitAppend("", rest, '/');
      assert ([""] + Split(rest, '/'))[1..] == Split(rest, '/');
      NormalizeIgnoresLeadingSlashes(pad[1..], s);
      NormalizeIsTheStack(pad + s);
      NormalizeIsTheStack(s);
    }
  }

  // ----- Resolution against its reference: the first candidate that exists -----

  /** The manifest keys a request may be served from, most preferred first. They depend on the
      segment stack and on whether the request path ends in a slash, and on nothing else. */
  function Candidates(stack: Segments, trailingSlash: bool): seq<string> {
    var logical := Join(stack, '/');
    var index := Join(stack + [INDEX_HTML], '/');
    if stack == [] || trailingSlash then [index]
    else if '.' in stack[|stack| - 1] then [logical]
    else [logical, index, logical + ".html"]
  }

  function FirstExisting(candidates: seq<string>, exists_: Lookup, otherwise: Result): Result {
    if candidates == [] then otherwise
    else if exists_(candidates[0]) then Hit(candidates[0])
    else FirstExisting(candidates[1..], exists_, otherwise)
  }

  lemma JoinIndexAppends(stack: Segments)
    requires stack != [] && AllPlain(stack)
    ensures JoinIndex(Join(stack, '/')) == Join(stack + [INDEX_HTML], '/')
  {
    JoinOfPlain(stack);
    JoinAppend(stack, [INDEX_HTML], '/');
  }

  lemma ExtOfSegments(p: string, segs: Segments)
    requires segs == Split(p, '/')
    ensures Ext(p) == FromLastDot(segs[|segs| - 1])
  {
  }

  lemma ExtOfJoin(stack: Segments)
    requires stack != [] && AllPlain(stack)
    ensures Ext(Join(stack, '/')) == "" <==> '.' !in stack[|stack| - 1]
  {
    JoinOfPlain(stack);
    var p := Join(stack, '/');
    ExtOfSegments(p, stack);
    DotIff(stack[|stack| - 1]);
  }

  lemma DotIff(seg: string)
    ensures FromLastDot(seg) == "" <==> '.' !in seg
  {
    SplitSingle(seg, '.');
  }

  lemma FirstOfThree(a: string, b: string, c: string, exists_: Lookup, otherwise: Result)
    ensures FirstExisting([a, b, c], exists_, otherwise)
         == if exists_(a) then Hit(a) else if exists_(b) then Hit(b) else if exists_(c) then Hit(c) else otherwise
  {
    assert [a, b, c][1..] == [b, c];
    assert [b, c][1..] == [c];
    assert FirstExisting([c], exists_, otherwise) == if exists_(c) then Hit(c) else otherwise;
  }

  lemma OneCandidate(a: string, exists_: Lookup, otherwise: Result)
    ensures FirstExisting([a], exists_, otherwise) == if exists_(a) then Hit(a) else otherwise
  {
  }

  lemma RootResolves(reqPath: string, exists_: Lookup, spa: bool)
    requires Stack(reqPath) == []
    ensures Resolve(reqPath, exists_, spa)
         == FirstExisting(Candidates([], HasSuffix(reqPath, "/")), exists_, Miss(exists_, spa))
  {
    NormalizeIsTheStack(reqPath);
    assert [] + [INDEX_HTML] == [INDEX_HTML];
    assert Join([INDEX_HTML], '/') == INDEX_HTML;
    OneCandidate(INDEX_HTML, exists_, Miss(exists_, spa));
  }

  /** What resolution does with a path that names something, in terms of its candidates. */
  lemma NamedChoice(logical: string, index: string, slash: bool, dotted: bool, exists_: Lookup, otherwise: Result)
    ensures FirstExisting(if slash then [index] else if dotted then [logical] else [logical, index, logical + ".html"],
                          exists_, otherwise)
         == if slash then (if exists_(index) then Hit(index) else otherwise)
            else if exists_(logical) then Hit(logical)
            else if !dotted && exists_(index) then Hit(index)
            else if !dotted && exists_(logical + ".html") then Hit(logical + ".html")
            else otherwise
  {
    OneCandidate(index, exists_, otherwise);
    OneCandidate(logical, exists_, otherwise);
    FirstOfThree(logical, index, logical + ".html", exists_, otherwise);
  }

  lemma NamedResolves(reqPath: string, exists_: Lookup, spa: bool)
    requires Stack(reqPath) != []
    ensures Resolve(reqPath, exists_, spa)
         == FirstExisting(Candidates(Stack(reqPath), HasSuffix(reqPath, "/")), exists_, Miss(exists_, spa))
  {
    var stack, slash := Stack(reqPath), HasSuffix(reqPath, "/");
    NormalizeIsTheStack(reqPath);
    StackIsPlain(reqPath);
    JoinIndexAppends(stack);
    ExtOfJoin(stack);
    NamedChoice(Join(stack, '/'), Join(stack + [INDEX_HTML], '/'), slash, '.' in stack[|stack| - 1], exists_,
                Miss(exists_, spa));
  }

  /** Resolution is "first existing candidate, else the miss outcome". */
  lemma ResolveIsFirstExisting(reqPath: string, exists_: Lookup, spa: bool)
    ensures Resolve(reqPath, exists_, spa)
         == FirstExisting(Candidates(Stack(reqPath), HasSuffix(reqPath, "/")), exists_, Miss(exists_, spa))
  {
    if Stack(reqPath) == [] {
      RootResolves(reqPath, exists_, spa);
    } else {
      NamedResolves(reqPath, exists_, spa);
    }
  }

  lemma IndexUnder(segs: Segments)
    requires segs != []
    ensures Join(segs + [INDEX_HTML], '/') == Join(segs, '/') + "/index.html"
  {
    JoinAppend(segs, [INDEX_HTML], '/');
    assert ['/'] + INDEX_HTML == "/index.html";
    assert Join(segs, '/') + ['/'] + INDEX_HTML == Join(segs, '/') + (['/'] + INDEX_HTML);
  }

  lemma StackOfClean(c: string)
    requires IsClean(c)
    ensures Stack("/" + c) == Split(c, '/') && Join(Split(c, '/'), '/') == c
    ensures Join(Split(c, '/') + [INDEX_HTML], '/') == c + "/index.html"
  {
    NormalizeFixesClean(c);
    NormalizeIgnoresLeadingSlashes("/", c);
    JoinSplit(c, '/');
    IndexUnder(Split(c, '/'));
  }

  lemma CandidatesOfClean(c: string)
    requires IsClean(c)
    ensures Candidates(Stack("/" + c), false) ==
              if '.' in Split(c, '/')[|Split(c, '/')| - 1] then [c] else [c, c + "/index.html", c + ".html"]
    ensures Candidates(Stack("/" + c), true) == [c + "/index.html"]
  {
    StackOfClean(c);
  }

  lemma StackIgnoresLastSlash(s: string)
    ensures Stack(s + "/") == Stack(s)
  {
    assert s + "/" == s + ['/'] + "";
    SplitAppend(s, "", '/');
    FoldAppend(true, [], Split(s, '/'), [""]);
  }

  lemma CleanHasNoLastSlash(c: string)
    requires IsClean(c)
    ensures !HasSuffix("/" + c, "/") && HasSuffix("/" + c + "/", "/")
  {
    NormalizeFixesClean(c);
    NormalizeIsClean(c);
    assert ("/" + c)[|c|] == c[|c| - 1];
  }

  /** What a miss is. */
  function MissOf(exists_: Lookup, spa: bool): Result {
    if spa && exists_("index.html") then SpaFallback("index.html") else NotFound
  }

  /** The clean-URL rules, for a path without dots or doubled slashes: the root is the index; a path with
      a final slash is its directory index; any other is the file of that name, and else, if its last
      segment has no dot, its directory index, and else its page. What is not there is the index of a
      single-page release, and is not found in any other. */
  lemma CleanUrlRules(c: string, exists_: Lookup, spa: bool)
    requires IsClean(c)
    ensures Resolve("/", exists_, spa) == if exists_("index.html") then Hit("index.html") else MissOf(exists_, spa)
    ensures Resolve("/" + c + "/", exists_, spa)
         == if exists_(c + "/index.html") then Hit(c + "/index.html") else MissOf(exists_, spa)
    ensures var dotted := '.' in Split(c, '/')[|Split(c, '/')| - 1];
            Resolve("/" + c, exists_, spa)
            == if exists_(c) then Hit(c)
               else if !dotted && exists_(c + "/index.html") then Hit(c + "/index.html")
               else if !dotted && exists_(c + ".html") then Hit(c + ".html")
               else MissOf(exists_, spa)
  {
    assert MissOf(exists_, spa) == Miss(exists_, spa);
    RootRule(exists_, spa);
    DirectoryRule(c, exists_, spa);
    FileRule(c, exists_, spa);
  }

  lemma RootRule(exists_: Lookup, spa: bool)
    ensures Resolve("/", exists_, spa)
         == if exists_("index.html") then Hit("index.html") else Miss(exists_, spa)
  {
    ResolveIsFirstExisting("/", exists_, spa);
    StackIgnoresLastSlash("");
    assert "" + "/" == "/" && Stack("") == [];
    assert Candidates([], true) == ["index.html"];
    OneCandidate("index.html", exists_, Miss(exists_, spa));
  }

  lemma DirectoryRule(c: string, exists_: Lookup, spa: bool)
    requires IsClean(c)
    ensures Resolve("/" + c + "/", exists_, spa)
         == if exists_(c + "/index.html") then Hit(c + "/index.html") else Miss(exists_, spa)
  {
    ResolveIsFirstExisting("/" + c + "/", exists_, spa);
    StackIgnoresLastSlash("/" + c);
    CleanHasNoLastSlash(c);
    CandidatesOfClean(c);
    OneCandidate(c + "/index.html", exists_, Miss(exists_, spa));
  }

  lemma FileRule(c: string, exists_: Lookup, spa: bool)
    requires IsClean(c)
    ensures var dotted := '.' in Split(c, '/')[|Split(c, '/')| - 1];
            Resolve("/" + c, exists_, spa)
            == if exists_(c) then Hit(c)
               else if !dotted && exists_(c + "/index.html") then Hit(c + "/index.html")
               else if !dotted && exists_(c + ".html") then Hit(c + ".html")
               else Miss(exists_, spa)
  {
    ResolveIsFirstExisting("/" + c, exists_, spa);
    CleanHasNoLastSlash(c);
    CandidatesOfClean(c);
    OneCandidate(c, exists_, Miss(exists_, spa));
    FirstOfThree(c, c + "/index.html", c + ".html", exists_, Miss(exists_, spa));
  }

  /** Requests with the same segments and the same trailing-slash shape resolve alike. */
  lemma ResolveDependsOnStackAndSlash(p: string, q: string, exists_: Lookup, spa: bool)
    requires Stack(p) == Stack(q) && HasSuffix(p, "/") == HasSuffix(q, "/")
    ensures Resolve(p, exists_, spa) == Resolve(q, exists_, spa)
  {
    ResolveIsFirstExisting(p, exists_, spa);
    ResolveIsFirstExisting(q, exists_, spa);
  }

  lemma {:induction false} FirstExistingFinds(candidates: seq<string>, exists_: Lookup, otherwise: Result)
    ensures var r := FirstExisting(candidates, exists_, otherwise);
            (exists i :: 0 <= i < |candidates| && exists_(candidates[i]) && r == Hit(candidates[i])
               && forall j :: 0 <= j < i ==> !exists_(candidates[j]))
            || (r == otherwise && forall j :: 0 <= j < |candidates| ==> !exists_(candidates[j]))
  {
    if candidates != [] && !exists_(candidates[0]) {
      var rest := candidates[1..];
      FirstExistingFinds(rest, exists_, otherwise);
      if i :| 0 <= i < |rest| && exists_(rest[i]) && FirstExisting(rest, exists_, otherwise) == Hit(rest[i])
              && forall j :: 0 <= j < i ==> !exists_(rest[j])
      {
        assert candidates[i + 1] == rest[i];
        assert forall j :: 0 < j < i + 1 ==> candidates[j] == rest[j - 1];
      } else {
        assert forall j :: 0 < j < |candidates| ==> candidates[j] == rest[j - 1];
      }
    }
  }

  lemma HtmlIsClean(stack: Segments)
    requires stack != [] && AllPlain(stack)
    ensures IsClean(Join(stack, '/') + ".html")
  {
    var n := |stack| - 1;
    var renamed := stack[..n] + [stack[n] + ".html"];
    JoinLastExtended(stack, ".html", '/');
    assert |stack[n] + ".html"| > 5;
    JoinOfPlain(renamed);
  }

  lemma IndexIsPlain()
    ensures Plain(INDEX_HTML)
  {
    assert |INDEX_HTML| == 10;
  }

  lemma IndexedIsClean(stack: Segments)
    requires AllPlain(stack)
    ensures IsClean(Join(stack + [INDEX_HTML], '/'))
  {
    IndexIsPlain();
    JoinOfPlain(stack + [INDEX_HTML]);
  }

  lemma CandidatesAreClean(stack: Segments, trailingSlash: bool)
    requires AllPlain(stack)
    ensures forall c :: c in Candidates(stack, trailingSlash) ==> IsClean(c)
  {
    IndexedIsClean(stack);
    if stack != [] {
      JoinOfPlain(stack);
      HtmlIsClean(stack);
    }
  }

  lemma IndexIsClean()
    ensures IsClean(INDEX_HTML)
  {
    SplitNone(INDEX_HTML, '/');
  }

  /** The first existing of some clean candidates, else the miss outcome. */
  lemma ChoiceIsSound(candidates: seq<string>, exists_: Lookup, spa: bool)
    requires forall c :: c in candidates ==> IsClean(c)
    ensures var r := FirstExisting(candidates, exists_, Miss(exists_, spa));
            && (r.Hit? || r.SpaFallback? ==> exists_(r.path) && IsClean(r.path))
            && (r.SpaFallback? ==> spa && r.path == INDEX_HTML)
            && (r.NotFound? <==> !(spa && exists_(INDEX_HTML)) && forall c :: c in candidates ==> !exists_(c))
  {
    FirstExistingFinds(candidates, exists_, Miss(exists_, spa));
    IndexIsClean();
  }

  /** What is served is in the manifest and canonical; a single-page release with an index never
      answers NotFound; and NotFound means every candidate is absent. */
  lemma ResolveIsSound(reqPath: string, exists_: Lookup, spa: bool)
    ensures var r := Resolve(reqPath, exists_, spa);
            && (r.Hit? || r.SpaFallback? ==> exists_(r.path) && IsClean(r.path))
            && (r.SpaFallback? ==> spa && r.path == INDEX_HTML)
            && (r.NotFound? <==>
                  !(spa && exists_(INDEX_HTML))
                  && forall c :: c in Candidates(Stack(reqPath), HasSuffix(reqPath, "/")) ==> !exists_(c))
  {
    var candidates := Candidates(Stack(reqPath), HasSuffix(reqPath, "/"));
    ResolveIsFirstExisting(reqPath, exists_, spa);
    StackIsPlain(reqPath);
    CandidatesAreClean(Stack(reqPath), HasSuffix(reqPath, "/"));
    ChoiceIsSound(candidates, exists_, spa);
  }

  /** A directory URL and its slash-less, extensionless form agree when the bare name is no file. */
  lemma DirectoryHitIsAlsoSlashless(dir: string, exists_: Lookup, spa: bool)
    requires Resolve(dir + "/", exists_, spa).Hit? && !HasSuffix(dir, "/")
    requires !exists_(Normalize(dir)) && Ext(Normalize(dir)) == ""
    ensures Resolve(dir, exists_, spa) == Resolve(dir + "/", exists_, spa)
  {
    var d := dir + "/";
    assert d == dir + ['/'] + "";
    SplitAppend(dir, "", '/');
    FoldAppend(true, [], Split(dir, '/'), [""]);
    assert Stack(d) == Stack(dir);
    NormalizeIsTheStack(d);
    NormalizeIsTheStack(dir);
    assert HasSuffix(d, "/");
  }
}
