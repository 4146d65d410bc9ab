/** Entity tags and If-None-Match (internal/cacheheader/cacheheader.go): weak comparison, as in
    sections 13.1.2 and 8.8.3.2 of RFC 9110. */
module CacheHeader {
  import opened GoText

  const CACHE_CONTROL_IMMUTABLE: string := "public, max-age=31536000, immutable"
  const CACHE_CONTROL_HTML: string := "public, max-age=0, must-revalidate"

  function CacheControl(class_: string): string {
    if class_ == "immutable" then CACHE_CONTROL_IMMUTABLE else CACHE_CONTROL_HTML
  }

  function ETag(sha: string): string {
    "\"" + sha + "\""
  }

  function NormalizeETag(tag: string): string {
    TrimSpace(StripWeak(TrimSpace(tag)))
  }

  function StripWeak(tag: string): string {
    TrimPrefix(TrimPrefix(tag, "W/"), "w/")
  }

  predicate AnyMatches(candidates: seq<string>, target: string) {
    candidates != [] && (NormalizeETag(candidates[0]) == target || AnyMatches(candidates[1..], target))
  }

  predicate NotModified(ifNoneMatch: string, etag: string) {
    var header := TrimSpace(ifNoneMatch);
    header != "" && (header == "*" || AnyMatches(Split(header, ','), NormalizeETag(etag)))
  }

  /** One element of an If-None-Match list as a client may write it: an optional weak prefix and a
      quoted opaque tag, with blanks around them. */
  datatype Tag = Tag(left: string, weak: string, mid: string, sha: string, right: string) {
    ghost predicate Valid() {
      && Blank(left) && Blank(mid) && Blank(right)
      && (weak == "" || weak == "W/" || weak == "w/")
      && (weak == "" ==> mid == "")
      && ',' !in sha
    }

    function Core(): string {
      weak + (mid + ETag(sha))
    }

    function Text(): string {
      left + Core() + right
    }
  }

  /** Some tag of the list carries the blob id. */
  predicate Lists(tags: seq<Tag>, sha: string) {
    tags != [] && (tags[0].sha == sha || Lists(tags[1..], sha))
  }

  lemma {:induction false} ListsIffSome(tags: seq<Tag>, sha: string)
    ensures Lists(tags, sha) <==> exists i :: 0 <= i < |tags| && tags[i].sha == sha
  {
    if tags != [] {
      var rest := tags[1..];
      ListsIffSome(rest, sha);
      assert forall i :: 0 < i < |tags| ==> tags[i] == rest[i - 1];
      assert forall i :: 0 <= i < |rest| ==> rest[i] == tags[i + 1];
    }
  }

  function Texts(tags: seq<Tag>): (r: seq<string>)
    ensures |r| == |tags| && forall i :: 0 <= i < |r| ==> r[i] == tags[i].Text()
  {
    if tags == [] then [] else [tags[0].Text()] + Texts(tags[1..])
  }

  function Header(tags: seq<Tag>): string {
    Join(Texts(tags), ',')
  }

  lemma CoreEnds(t: Tag)
    requires t.Valid()
    ensures var c := t.Core(); c != "" && !IsSpace(c[0]) && !IsSpace(c[|c| - 1]) && c[|c| - 1] == '"'
  {
    var e, c := ETag(t.sha), t.Core();
    assert e[0] == '"' && e[|e| - 1] == '"';
    assert c[|c| - 1] == e[|e| - 1];
    assert c[0] == if t.weak == "" then e[0] else t.weak[0];
  }

  /** Stripping the weak prefixes leaves what follows them, if that starts like a tag. */
  lemma WeakPrefixStrips(weak: string, rest: string)
    requires (weak == "" || weak == "W/" || weak == "w/")
    requires rest != "" && rest[0] != 'W' && rest[0] != 'w'
    ensures StripWeak(weak + rest) == rest
  {
    var s := weak + rest;
    if weak == "" {
      assert s == rest;
    } else {
      assert s[0] == weak[0] && s[2..] == rest;
    }
  }

  lemma TextTrims(t: Tag)
    requires t.Valid()
    ensures TrimSpace(t.Text()) == t.Core()
  {
    CoreEnds(t);
    TrimSpacePadded(t.left, t.Core(), t.right);
  }

  lemma CoreStrips(t: Tag)
    requires t.Valid()
    ensures StripWeak(t.Core()) == t.mid + ETag(t.sha)
  {
    RestStart(t.mid, t.sha);
    WeakPrefixStrips(t.weak, t.mid + ETag(t.sha));
  }

  lemma MidTrims(mid: string, sha: string)
    requires Blank(mid)
    ensures TrimSpace(mid + ETag(sha)) == ETag(sha)
  {
    ETagEnds(sha);
    assert mid + ETag(sha) + "" == mid + ETag(sha);
    TrimSpacePadded(mid, ETag(sha), "");
  }

  lemma TagNormalizes(t: Tag)
    requires t.Valid()
    ensures NormalizeETag(t.Text()) == ETag(t.sha)
  {
    TextTrims(t);
    CoreStrips(t);
    MidTrims(t.mid, t.sha);
  }

  lemma RestStart(mid: string, sha: string)
    requires Blank(mid)
    ensures var rest := mid + ETag(sha); rest != "" && rest[0] != 'W' && rest[0] != 'w'
  {
    assert !IsSpace('W') && !IsSpace('w');
  }

  lemma ETagNormalizes(sha: string)
    ensures NormalizeETag(ETag(sha)) == ETag(sha)
  {
    MidTrims("", sha);
    assert "" + ETag(sha) == ETag(sha);
    RestStart("", sha);
    WeakPrefixStrips("", ETag(sha));
  }

  lemma ETagEnds(sha: string)
    ensures var e := ETag(sha); e != "" && !IsSpace(e[0]) && !IsSpace(e[|e| - 1])
  {
  }

  lemma TextIsCommaFree(t: Tag)
    requires t.Valid()
    ensures ',' !in t.Text()
  {
    assert !IsSpace(',');
    assert ',' !in t.left && ',' !in t.mid && ',' !in t.right && ',' !in t.weak;
  }

  /** The same tags without the blanks before the first and after the last. */
  function Inner(tags: seq<Tag>): (r: seq<Tag>)
    ensures |r| == |tags|
  {
    seq(|tags|, i requires 0 <= i < |tags| =>
      tags[i].(left := if i == 0 then "" else tags[i].left,
               right := if i == |tags| - 1 then "" else tags[i].right))
  }

  lemma TextPads(t: Tag)
    ensures t.Text() == t.left + t.(left := "").Text()
    ensures t.Text() == t.(right := "").Text() + t.right
    ensures t.Text() == t.left + t.(left := "", right := "").Text() + t.right
  {
    assert "" + t.Core() == t.Core() && t.Core() + "" == t.Core();
  }

  lemma HeaderSplitsOffBlanks(tags: seq<Tag>)
    requires tags != []
    ensures Header(tags) == tags[0].left + Header(Inner(tags)) + tags[|tags| - 1].right
  {
    var n := |tags| - 1;
    var texts, inner := Texts(tags), Texts(Inner(tags));
    var middle := [tags[0].left + inner[0]] + inner[1..];
    assert middle[1..] == inner[1..];
    assert Join(middle, ',') == tags[0].left + Join(inner, ',');
    forall i | 0 <= i <= n
      ensures texts[i] == if i == n then middle[i] + tags[n].right else middle[i]
    {
      TextPads(tags[i]);
    }
    RightPadded(texts, middle, tags[n].right);
  }

  lemma RightPadded(longer: seq<string>, parts: seq<string>, suffix: string)
    requires |longer| == |parts| > 0
    requires forall i :: 0 <= i < |parts| ==>
      longer[i] == if i == |parts| - 1 then parts[i] + suffix else parts[i]
    ensures Join(longer, ',') == Join(parts, ',') + suffix
  {
    var n := |parts| - 1;
    assert longer == parts[..n] + [parts[n] + suffix];
    JoinLastExtended(parts, suffix, ',');
  }

  /** Trimming the whole header only removes the outer blanks of its first and last elements. */
  lemma HeaderTrims(tags: seq<Tag>)
    requires tags != [] && forall t :: t in tags ==> t.Valid()
    ensures TrimSpace(Header(tags)) == Header(Inner(tags))
    ensures Header(Inner(tags)) != "" && Header(Inner(tags)) != "*"
  {
    var inner, n := Inner(tags), |tags| - 1;
    assert tags[0].Valid() && tags[n].Valid() && inner[0].Valid() && inner[n].Valid();
    HeaderSplitsOffBlanks(tags);
    CoreEnds(inner[0]);
    CoreEnds(inner[n]);
    assert inner[0].Text()[0] == inner[0].Core()[0];
    assert inner[n].Text()[|inner[n].Text()| - 1] == '"';
    JoinEnds(Texts(inner), ',');
    TrimSpacePadded(tags[0].left, Header(inner), tags[n].right);
  }

  lemma ETagIsInjective(a: string, b: string)
    requires ETag(a) == ETag(b)
    ensures a == b
  {
    assert ETag(a)[1..|a| + 1] == a && ETag(b)[1..|b| + 1] == b;
  }

  lemma TextsAreCommaFree(tags: seq<Tag>)
    requires forall t :: t in tags ==> t.Valid()
    ensures Free(Texts(tags), ',')
  {
    forall i | 0 <= i < |tags|
      ensures ',' !in Texts(tags)[i]
    {
      TextIsCommaFree(tags[i]);
    }
  }

  lemma TagMatches(t: Tag, sha: string)
    requires t.Valid()
    ensures NormalizeETag(t.Text()) == ETag(sha) <==> t.sha == sha
  {
    TagNormalizes(t);
    if ETag(t.sha) == ETag(sha) {
      ETagIsInjective(t.sha, sha);
    }
  }

  /** Among the texts of some tags, exactly the listed ids match. */
  lemma {:induction false} MatchesIffListed(tags: seq<Tag>, sha: string)
    requires forall t :: t in tags ==> t.Valid()
    ensures AnyMatches(Texts(tags), ETag(sha)) <==> Lists(tags, sha)
  {
    if tags != [] {
      assert Texts(tags)[1..] == Texts(tags[1..]);
      MatchesIffListed(tags[1..], sha);
      TagMatches(tags[0], sha);
    }
  }

  /** A list header matches exactly the blob ids it lists, however it is spaced or weakened. */
  lemma NotModifiedIffListed(tags: seq<Tag>, sha: string)
    requires forall t :: t in tags ==> t.Valid()
    ensures NotModified(Header(tags), ETag(sha)) <==> exists i :: 0 <= i < |tags| && tags[i].sha == sha
  {
    ListsIffSome(tags, sha);
    if tags != [] {
      HeaderTrims(tags);
      InnerLists(tags, sha);
      HeaderMatches(Inner(tags), sha);
    }
  }

  lemma InnerLists(tags: seq<Tag>, sha: string)
    requires forall t :: t in tags ==> t.Valid()
    ensures forall t :: t in Inner(tags) ==> t.Valid()
    ensures Lists(Inner(tags), sha) <==> Lists(tags, sha)
  {
    var inner := Inner(tags);
    forall i | 0 <= i < |tags|
      ensures inner[i].Valid() && inner[i].sha == tags[i].sha
    {
      assert tags[i].Valid();
    }
    ListsIffSome(inner, sha);
    ListsIffSome(tags, sha);
  }

  lemma HeaderMatches(tags: seq<Tag>, sha: string)
    requires tags != [] && forall t :: t in tags ==> t.Valid()
    ensures AnyMatches(Split(Header(tags), ','), NormalizeETag(ETag(sha))) <==> Lists(tags, sha)
  {
    TextsAreCommaFree(tags);
    SplitJoin(Texts(tags), ',');
    ETagNormalizes(sha);
    MatchesIffListed(tags, sha);
  }

  /** A lone star, however padded, matches whatever is there; a blank header matches nothing (section
      13.1.2 of RFC 9110). */
  lemma StarMatchesAnything(header: string, sha: string)
    ensures TrimSpace(header) == "*" ==> NotModified(header, ETag(sha))
    ensures TrimSpace(header) == "" ==> !NotModified(header, ETag(sha))
  {
  }

  /** A blob id with a comma is matched by a star alone: in a list its tag is torn apart at the comma. */
  lemma CommaNeverMatches(header: string, sha: string)
    requires ',' in sha
    ensures NotModified(header, ETag(sha)) <==> TrimSpace(header) == "*"
  {
    SplitFree(TrimSpace(header), ',');
    ETagNormalizes(sha);
    assert forall c :: c in sha ==> c in ETag(sha);
    CommaFreePiecesMiss(Split(TrimSpace(header), ','), ETag(sha));
    StarMatchesAnything(header, sha);
  }

  lemma {:induction false} CommaFreePiecesMiss(candidates: seq<string>, target: string)
    requires Free(candidates, ',') && ',' in target
    ensures !AnyMatches(candidates, target)
  {
    if candidates != [] {
      NormalizeKeepsCommaFree(candidates[0]);
      CommaFreePiecesMiss(candidates[1..], target);
    }
  }

  lemma TrimKeepsCommaFree(s: string)
    requires ',' !in s
    ensures ',' !in TrimSpace(s)
  {
    var l := TrimSpaceLeft(s);
    assert forall c :: c in l ==> c in s;
    assert forall c :: c in TrimSpaceRight(l) ==> c in l;
  }

  lemma NormalizeKeepsCommaFree(tag: string)
    requires ',' !in tag
    ensures ',' !in NormalizeETag(tag)
  {
    TrimKeepsCommaFree(tag);
    TrimKeepsCommaFree(StripWeak(TrimSpace(tag)));
  }

  /** Replaying a response's own tag revalidates exactly when the blob id is comma-free. */
  lemma ReplayMatchesIffCommaFree(sha: string)
    ensures NotModified(ETag(sha), ETag(sha)) <==> ',' !in sha
  {
    if ',' in sha {
      ETagEnds(sha);
      TrimSpacePadded("", ETag(sha), "");
      assert "" + ETag(sha) + "" == ETag(sha);
      CommaNeverMatches(ETag(sha), sha);
    } else {
      ReplayMatchesOnlyItself(sha, sha);
    }
  }

  lemma ReplayMatchesOnlyItself(old_: string, new_: string)
    requires ',' !in old_
    ensures NotModified(ETag(old_), ETag(new_)) <==> old_ == new_
  {
    var t := Tag("", "", "", old_, "");
    assert t.Text() == ETag(old_);
    assert Header([t]) == ETag(old_);
    NotModifiedIffListed([t], new_);
    assert [t][0].sha == old_;
  }
}
