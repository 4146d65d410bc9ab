/** The Go `strings` functions the gateway calls, over sequences of characters, with the laws
    about splitting and joining that every later string argument rests on. */
module GoText {

  /** How many bytes UTF-8 takes for a character. */
  function Width(c: char): nat {
    if c < '\U{80}' then 1 else if c < '\U{800}' then 2 else if c < '\U{10000}' then 3 else 4
  }

  /** Go's `len` of a string. */
  function ByteLen(s: string): nat {
    if s == "" then 0 else Width(s[0]) + ByteLen(s[1..])
  }

  predicate HasPrefix(s: string, p: string) {
    p <= s
  }

  predicate HasSuffix(s: string, x: string) {
    |x| <= |s| && s[|s| - |x|..] == x
  }

  function TrimPrefix(s: string, p: string): string {
    if p <= s then s[|p|..] else s
  }

  function TrimSuffix(s: string, x: string): string {
    if HasSuffix(s, x) then s[..|s| - |x|] else s
  }

  /** `strings.TrimLeft` with a cutset of one character. */
  function TrimLeft(s: string, c: char): (r: string)
    ensures r == "" || r[0] != c
    ensures |r| <= |s| && s[|s| - |r|..] == r
    ensures forall i :: 0 <= i < |s| - |r| ==> s[i] == c
  {
    if s != "" && s[0] == c then TrimLeft(s[1..], c) else s
  }

  /** `strings.Contains`. */
  predicate Contains(s: string, x: string) {
    exists i :: 0 <= i <= |s| && HasPrefix(s[i..], x)
  }

  /** The characters `strings.TrimSpace` trims: Unicode White_Space. */
  predicate IsSpace(c: char) {
    || '\t' <= c <= '\r' || c == ' ' || c == '\U{85}' || c == '\U{A0}'
    || c == '\U{1680}' || '\U{2000}' <= c <= '\U{200A}' || '\U{2028}' <= c <= '\U{2029}'
    || c == '\U{202F}' || c == '\U{205F}' || c == '\U{3000}'
  }

  function TrimSpaceLeft(s: string): (r: string)
    ensures |r| <= |s| && s[|s| - |r|..] == r
  {
    if s != "" && IsSpace(s[0]) then TrimSpaceLeft(s[1..]) else s
  }

  function TrimSpaceRight(s: string): (r: string)
    ensures r <= s
  {
    if s != "" && IsSpace(s[|s| - 1]) then TrimSpaceRight(s[..|s| - 1]) else s
  }

  function TrimSpace(s: string): string {
    TrimSpaceRight(TrimSpaceLeft(s))
  }

  /** `strings.Split` on a one-character separator: n separators give n + 1 pieces. */
  function Split(s: string, c: char): (r: seq<string>)
    ensures |r| >= 1
  {
    if s == "" then [""]
    else
      var r := Split(s[1..], c);
      if s[0] == c then [""] + r else [[s[0]] + r[0]] + r[1..]
  }

  /** `strings.SplitN`: at most n pieces, the last one unsplit. */
  function SplitN(s: string, c: char, n: nat): (r: seq<string>)
    requires n >= 1
    ensures 1 <= |r| <= n
    decreases |s|
  {
    if n == 1 || s == "" then [s]
    else if s[0] == c then [""] + SplitN(s[1..], c, n - 1)
    else
      var r := SplitN(s[1..], c, n);
      [[s[0]] + r[0]] + r[1..]
  }

  /** `strings.Join` with a one-character separator. */
  function Join(parts: seq<string>, c: char): string {
    if |parts| == 0 then ""
    else if |parts| == 1 then parts[0]
    else parts[0] + [c] + Join(parts[1..], c)
  }

  ghost predicate Free(parts: seq<string>, c: char) {
    forall i :: 0 <= i < |parts| ==> c !in parts[i]
  }

  /** Only the last part may contain the separator. */
  ghost predicate FreeButLast(parts: seq<string>, c: char) {
    forall i :: 0 <= i < |parts| - 1 ==> c !in parts[i]
  }

  // ----- Laws of Split and Join -----

  lemma {:induction false} SplitFree(s: string, c: char)
    ensures Free(Split(s, c), c)
  {
    if s != "" {
      SplitFree(s[1..], c);
    }
  }

  lemma {:induction false} SplitNone(s: string, c: char)
    requires c !in s
    ensures Split(s, c) == [s]
  {
    if s != "" {
      SplitNone(s[1..], c);
      assert [s[0]] + s[1..] == s;
    }
  }

  lemma {:induction false} SplitSingle(s: string, c: char)
    ensures |Split(s, c)| == 1 <==> c !in s
  {
    if s != "" {
      SplitSingle(s[1..], c);
      assert s == [s[0]] + s[1..];
    }
  }

  /** Splitting distributes over a separator. */
  lemma {:induction false} SplitAppend(a: string, b: string, c: char)
    ensures Split(a + [c] + b, c) == Split(a, c) + Split(b, c)
  {
    var s := a + [c] + b;
    if a == "" {
      assert s[1..] == b;
    } else {
      assert s[1..] == a[1..] + [c] + b;
      SplitAppend(a[1..], b, c);
    }
  }

  lemma {:induction false} JoinSplit(s: string, c: char)
    ensures Join(Split(s, c), c) == s
  {
    if s != "" {
      var r := Split(s[1..], c);
      JoinSplit(s[1..], c);
      if s[0] == c {
        assert ([""] + r)[1..] == r;
      } else {
        var t := [[s[0]] + r[0]] + r[1..];
        assert t[1..] == r[1..];
      }
    }
  }

  lemma {:induction false} SplitJoin(parts: seq<string>, c: char)
    requires |parts| >= 1 && Free(parts, c)
    ensures Split(Join(parts, c), c) == parts
  {
    SplitNone(parts[0], c);
    if |parts| > 1 {
      SplitAppend(parts[0], Join(parts[1..], c), c);
      SplitJoin(parts[1..], c);
    }
  }

  lemma {:induction false} JoinAppend(a: seq<string>, b: seq<string>, c: char)
    requires |a| >= 1 && |b| >= 1
    ensures Join(a + b, c) == Join(a, c) + [c] + Join(b, c)
  {
    if |a| > 1 {
      JoinAppend(a[1..], b, c);
      assert (a + b)[1..] == a[1..] + b;
    } else {
      assert (a + b)[1..] == b;
    }
  }

  lemma {:induction false} JoinLastExtended(parts: seq<string>, suffix: string, c: char)
    requires parts != []
    ensures Join(parts[..|parts| - 1] + [parts[|parts| - 1] + suffix], c) == Join(parts, c) + suffix
  {
    if |parts| > 1 {
      var rest := parts[1..];
      JoinLastExtended(rest, suffix, c);
      var longer := parts[..|parts| - 1] + [parts[|parts| - 1] + suffix];
      assert longer[1..] == rest[..|rest| - 1] + [rest[|rest| - 1] + suffix];
    } else {
      assert parts[..0] + [parts[0] + suffix] == [parts[0] + suffix];
    }
  }

  /** A joined list starts and ends with the characters its first and last parts start and end with. */
  lemma {:induction false} JoinEnds(parts: seq<string>, c: char)
    requires parts != [] && parts[0] != "" && parts[|parts| - 1] != ""
    ensures var s, last := Join(parts, c), parts[|parts| - 1];
            s != "" && s[0] == parts[0][0] && s[|s| - 1] == last[|last| - 1]
  {
    JoinLast(parts, c);
  }

  lemma {:induction false} JoinLast(parts: seq<string>, c: char)
    requires parts != [] && parts[|parts| - 1] != ""
    ensures var s, last := Join(parts, c), parts[|parts| - 1];
            s != "" && s[|s| - 1] == last[|last| - 1]
  {
    if |parts| > 1 {
      JoinLast(parts[1..], c);
    }
  }

  lemma InnerPartIsContained(a: seq<string>, x: string, b: seq<string>, c: char)
    requires a != [] && b != []
    ensures Contains(Join(a + [x] + b, c), [c] + x + [c])
  {
    JoinAppend([x], b, c);
    JoinAppend(a, [x] + b, c);
    assert a + ([x] + b) == a + [x] + b;
    var s, i := Join(a + [x] + b, c), |Join(a, c)|;
    assert s[i..] == [c] + x + [c] + Join(b, c);
    assert HasPrefix(s[i..], [c] + x + [c]);
  }

  lemma SplitAround(a: string, x: string, b: string, c: char)
    requires c !in x
    ensures Split(a + [c] + (x + [c] + b), c) == Split(a, c) + ([x] + Split(b, c))
  {
    SplitAppend(a, x + [c] + b, c);
    SplitAppend(x, b, c);
    SplitNone(x, c);
  }

  lemma FoundAt(s: string, i: nat, x: string, c: char) returns (b: string)
    requires i <= |s| && HasPrefix(s[i..], [c] + x + [c])
    ensures s == s[..i] + [c] + (x + [c] + b)
  {
    var needle := [c] + x + [c];
    b := s[i..][|needle|..];
    assert s[i..] == needle + b;
    assert s == s[..i] + s[i..];
  }

  lemma ContainedIsInnerPart(parts: seq<string>, x: string, c: char) returns (n: nat)
    requires parts != [] && Free(parts, c) && c !in x
    requires Contains(Join(parts, c), [c] + x + [c])
    ensures 0 < n < |parts| - 1 && parts[n] == x
  {
    var s := Join(parts, c);
    var i: nat :| i <= |s| && HasPrefix(s[i..], [c] + x + [c]);
    var b := FoundAt(s, i, x, c);
    SplitAround(s[..i], x, b, c);
    SplitJoin(parts, c);
    n := |Split(s[..i], c)|;
  }

  lemma AroundAt<T>(s: seq<T>, n: nat)
    requires n < |s|
    ensures s[..n] + [s[n]] + s[n + 1..] == s
  {
  }

  lemma InnerPartAt(parts: seq<string>, n: nat, c: char)
    requires 0 < n < |parts| - 1
    ensures Contains(Join(parts, c), [c] + parts[n] + [c])
  {
    AroundAt(parts, n);
    InnerPartIsContained(parts[..n], parts[n], parts[n + 1..], c);
  }

  /** `/x/` occurs in a joined path exactly when `x` is one of its inner parts. */
  lemma ContainsInnerPart(parts: seq<string>, x: string, c: char)
    requires parts != [] && Free(parts, c) && c !in x
    ensures Contains(Join(parts, c), [c] + x + [c]) <==> exists n :: 0 < n < |parts| - 1 && parts[n] == x
  {
    if Contains(Join(parts, c), [c] + x + [c]) {
      var n := ContainedIsInnerPart(parts, x, c);
    }
    if n: nat :| 0 < n < |parts| - 1 && parts[n] == x {
      InnerPartAt(parts, n, c);
    }
  }

  /** What `SplitN` yields: parts that join back to the text, only an n-th of which may contain
      the separator. */
  ghost predicate Pieces(parts: seq<string>, s: string, c: char, n: nat) {
    && 1 <= |parts| <= n && Join(parts, c) == s && FreeButLast(parts, c)
    && (|parts| < n ==> c !in parts[|parts| - 1])
  }

  lemma PiecesAfterSeparator(t: seq<string>, s: string, c: char, n: nat)
    requires s != "" && s[0] == c && n > 1 && Pieces(t, s[1..], c, n - 1)
    ensures Pieces([""] + t, s, c, n)
  {
    var r := [""] + t;
    assert r[1..] == t;
    assert Join(r, c) == [c] + s[1..];
  }

  lemma PiecesAfterLetter(t: seq<string>, s: string, c: char, n: nat)
    requires s != "" && s[0] != c && Pieces(t, s[1..], c, n)
    ensures Pieces([[s[0]] + t[0]] + t[1..], s, c, n)
  {
    var r := [[s[0]] + t[0]] + t[1..];
    assert r[1..] == t[1..];
    assert Join(r, c) == [s[0]] + s[1..];
  }

  lemma {:induction false} SplitNPieces(s: string, c: char, n: nat)
    requires n >= 1
    ensures Pieces(SplitN(s, c, n), s, c, n)
    decreases |s|
  {
    if n > 1 && s != "" {
      var t := SplitN(s[1..], c, if s[0] == c then n - 1 else n);
      SplitNPieces(s[1..], c, if s[0] == c then n - 1 else n);
      if s[0] == c {
        PiecesAfterSeparator(t, s, c, n);
      } else {
        PiecesAfterLetter(t, s, c, n);
      }
    }
  }

  /** Text before the first separator is determined by the whole. */
  lemma HeadsAgree(a: string, x: string, b: string, y: string, c: char)
    requires c !in a && c !in b && a + [c] + x == b + [c] + y
    ensures a == b && x == y
  {
    SplitAppend(a, x, c);
    SplitAppend(b, y, c);
    SplitNone(a, c);
    SplitNone(b, c);
    var s, t := a + [c] + x, b + [c] + y;
    assert ([a] + Split(x, c))[0] == ([b] + Split(y, c))[0];
    assert x == s[|a| + 1..] && y == t[|b| + 1..];
  }

  lemma OnePieceIffFree(p: seq<string>, s: string, c: char, n: nat)
    requires n > 1 && Pieces(p, s, c, n)
    ensures |p| == 1 <==> c !in s
  {
    if |p| > 1 {
      assert s[|p[0]|] == c;
    }
  }

  /** A text has only one list of pieces. */
  lemma {:induction false} PiecesAreUnique(p: seq<string>, q: seq<string>, s: string, c: char, n: nat)
    requires Pieces(p, s, c, n) && Pieces(q, s, c, n)
    ensures p == q
    decreases n
  {
    if n > 1 {
      OnePieceIffFree(p, s, c, n);
      OnePieceIffFree(q, s, c, n);
    }
    if |p| > 1 {
      HeadsAgree(p[0], Join(p[1..], c), q[0], Join(q[1..], c), c);
      PiecesAreUnique(p[1..], q[1..], Join(p[1..], c), c, n - 1);
      assert p == [p[0]] + p[1..] && q == [q[0]] + q[1..];
    }
  }

  lemma SplitNIs(parts: seq<string>, s: string, c: char, n: nat)
    requires Pieces(parts, s, c, n)
    ensures SplitN(s, c, n) == parts
  {
    SplitNPieces(s, c, n);
    PiecesAreUnique(SplitN(s, c, n), parts, s, c, n);
  }

  // ----- Trimming -----

  ghost predicate Blank(s: string) {
    forall i :: 0 <= i < |s| ==> IsSpace(s[i])
  }

  lemma {:induction false} TrimLeftBlank(pad: string, s: string)
    requires Blank(pad)
    ensures TrimSpaceLeft(pad + s) == TrimSpaceLeft(s)
  {
    if pad == "" {
      assert pad + s == s;
    } else {
      assert (pad + s)[1..] == pad[1..] + s;
      TrimLeftBlank(pad[1..], s);
    }
  }

  lemma {:induction false} TrimRightBlank(s: string, pad: string)
    requires Blank(pad)
    ensures TrimSpaceRight(s + pad) == TrimSpaceRight(s)
    decreases |pad|
  {
    if pad == "" {
      assert s + pad == s;
    } else {
      assert (s + pad)[..|s + pad| - 1] == s + pad[..|pad| - 1];
      TrimRightBlank(s, pad[..|pad| - 1]);
    }
  }

  /** A string without blank ends survives any surrounding padding unchanged. */
  lemma TrimSpacePadded(left: string, s: string, right: string)
    requires Blank(left) && Blank(right)
    requires s != "" && !IsSpace(s[0]) && !IsSpace(s[|s| - 1])
    ensures TrimSpace(left + s + right) == s
  {
    TrimLeftPadded(left, s + right);
    assert left + s + right == left + (s + right);
    TrimRightPadded(s, right);
  }

  lemma TrimLeftPadded(pad: string, s: string)
    requires Blank(pad) && s != "" && !IsSpace(s[0])
    ensures TrimSpaceLeft(pad + s) == s
  {
    TrimLeftBlank(pad, s);
  }

  lemma TrimRightPadded(s: string, pad: string)
    requires Blank(pad) && s != "" && !IsSpace(s[|s| - 1])
    ensures TrimSpaceRight(s + pad) == s
  {
    TrimRightBlank(s, pad);
  }

  lemma {:induction false} TrimLeftTakesBlanks(s: string, i: nat)
    requires i < |s| - |TrimSpaceLeft(s)|
    ensures IsSpace(s[i])
  {
    if i > 0 {
      TrimLeftTakesBlanks(s[1..], i - 1);
    }
  }

  lemma {:induction false} TrimLeftStopsAtText(s: string)
    ensures TrimSpaceLeft(s) == "" || !IsSpace(TrimSpaceLeft(s)[0])
  {
    if s != "" && IsSpace(s[0]) {
      TrimLeftStopsAtText(s[1..]);
    }
  }

  lemma {:induction false} TrimRightTakesBlanks(s: string, i: nat)
    requires |TrimSpaceRight(s)| <= i < |s|
    ensures IsSpace(s[i])
  {
    if i < |s| - 1 {
      TrimRightTakesBlanks(s[..|s| - 1], i);
    }
  }

  lemma {:induction false} TrimRightStopsAtText(s: string)
    ensures var r := TrimSpaceRight(s); r == "" || !IsSpace(r[|r| - 1])
  {
    if s != "" && IsSpace(s[|s| - 1]) {
      TrimRightStopsAtText(s[..|s| - 1]);
    }
  }

  lemma SliceOfSuffix(s: string, l: string, t: string)
    requires |l| <= |s| && s[|s| - |l|..] == l && t <= l
    ensures s[|s| - |l|..|s| - |l| + |t|] == t
  {
  }

  lemma SuffixAt(s: string, l: string, n: nat)
    requires |l| <= |s| && s[|s| - |l|..] == l && |s| - |l| <= n < |s|
    ensures s[n] == l[n - (|s| - |l|)]
  {
  }

  lemma LeftBlanks(s: string, l: string)
    requires l == TrimSpaceLeft(s)
    ensures forall n :: 0 <= n < |s| - |l| ==> IsSpace(s[n])
  {
    forall n | 0 <= n < |s| - |l|
      ensures IsSpace(s[n])
    {
      TrimLeftTakesBlanks(s, n);
    }
  }

  lemma RightBlanks(s: string, l: string, t: string)
    requires |l| <= |s| && s[|s| - |l|..] == l && t == TrimSpaceRight(l)
    ensures forall n :: |s| - |l| + |t| <= n < |s| ==> IsSpace(s[n])
  {
    forall n | |s| - |l| + |t| <= n < |s|
      ensures IsSpace(s[n])
    {
      TrimRightTakesBlanks(l, n - (|s| - |l|));
      SuffixAt(s, l, n);
    }
  }

  predicate TextAtEnds(t: string) {
    t == "" || (!IsSpace(t[0]) && !IsSpace(t[|t| - 1]))
  }

  lemma TrimStopsAtText(s: string)
    ensures TextAtEnds(TrimSpace(s))
  {
    TrimLeftStopsAtText(s);
    TrimRightStopsAtText(TrimSpaceLeft(s));
  }

  /** Cutting a string to `s[i..j]` takes off blanks only. */
  ghost predicate BlankOutside(s: string, i: nat, j: nat) {
    i <= j <= |s| && forall n :: 0 <= n < i || j <= n < |s| ==> IsSpace(s[n])
  }

  lemma BothEndsBlank(s: string, l: string, t: string)
    requires |l| <= |s| && s[|s| - |l|..] == l && t <= l
    requires l == TrimSpaceLeft(s) && t == TrimSpaceRight(l)
    ensures BlankOutside(s, |s| - |l|, |s| - |l| + |t|) && s[|s| - |l|..|s| - |l| + |t|] == t
  {
    SliceOfSuffix(s, l, t);
    LeftBlanks(s, l);
    RightBlanks(s, l, t);
  }

  /** Trimming takes off blanks at both ends, all of them and nothing else: what is left runs from `i`
      to `j`. */
  lemma TrimSpaceIs(s: string) returns (i: nat, j: nat)
    ensures BlankOutside(s, i, j) && TrimSpace(s) == s[i..j] && TextAtEnds(TrimSpace(s))
  {
    var l := TrimSpaceLeft(s);
    var t := TrimSpaceRight(l);
    i, j := |s| - |l|, |s| - |l| + |t|;
    BothEndsBlank(s, l, t);
    TrimStopsAtText(s);
  }

  /** Spaces and tabs, which HTTP allows around list elements, are blanks. */
  lemma SpacesAndTabsAreBlank(s: string)
    requires forall i :: 0 <= i < |s| ==> s[i] == ' ' || s[i] == '\t'
    ensures Blank(s)
  {
  }

  lemma {:induction false} ByteLenAppend(a: string, b: string)
    ensures ByteLen(a + b) == ByteLen(a) + ByteLen(b)
  {
    if a == "" {
      assert a + b == b;
    } else {
      assert (a + b)[1..] == a[1..] + b;
      ByteLenAppend(a[1..], b);
    }
  }

  /** UTF-8 takes one byte for each ASCII character, and between one and four for any other. */
  lemma {:induction false} ByteLenBounds(s: string)
    ensures |s| <= ByteLen(s) <= 4 * |s|
    ensures (forall i :: 0 <= i < |s| ==> s[i] < '\U{80}') ==> ByteLen(s) == |s|
  {
    if s != "" {
      ByteLenBounds(s[1..]);
    }
  }
}
