/** Go's `path.Clean`, `path.Join` and `path.Ext`, from their documented rules.

    Cleaning is a fold of path segments over a stack. `CleaningIsTheNormalForm` ties that fold to
    the documentation's own wording: four rewrite rules applied in any order until none applies. */
module GoPath {
  import opened GoText

  type Segments = seq<string>

  /** A segment that names something: neither empty, nor ".", nor "..", and free of slashes. */
  ghost predicate Plain(seg: string) {
    seg != "" && seg != "." && seg != ".." && '/' !in seg
  }

  /** A path segment of any kind: non-empty and free of slashes. */
  ghost predicate Segment(seg: string) {
    seg != "" && '/' !in seg
  }

  ghost predicate AllPlain(segs: Segments) {
    forall i :: 0 <= i < |segs| ==> Plain(segs[i])
  }

  function Push(rooted: bool, stack: Segments, seg: string): Segments {
    if seg == "" || seg == "." then stack
    else if seg != ".." then stack + [seg]
    else if stack != [] && stack[|stack| - 1] != ".." then stack[..|stack| - 1]
    else if rooted then stack
    else stack + [".."]
  }

  function Fold(rooted: bool, stack: Segments, segs: Segments): Segments
    decreases |segs|
  {
    if segs == [] then stack else Fold(rooted, Push(rooted, stack, segs[0]), segs[1..])
  }

  function Clean(p: string): string {
    var rooted := HasPrefix(p, "/");
    var body := Join(Fold(rooted, [], Split(p, '/')), '/');
    if rooted then "/" + body else if body == "" then "." else body
  }

  function NonEmpty(elems: Segments): (r: Segments)
    ensures forall i :: 0 <= i < |r| ==> r[i] != ""
  {
    if elems == [] then []
    else if elems[0] == "" then NonEmpty(elems[1..])
    else [elems[0]] + NonEmpty(elems[1..])
  }

  /** `path.Join`: empty elements are ignored, the rest are joined by slashes and cleaned. */
  function JoinPath(elems: Segments): string {
    var kept := NonEmpty(elems);
    if kept == [] then "" else Clean(Join(kept, '/'))
  }

  /** `path.Ext`: the suffix from the last dot of the last path element, if it has one. */
  function Ext(p: string): string {
    var segs := Split(p, '/');
    FromLastDot(segs[|segs| - 1])
  }

  function FromLastDot(seg: string): string {
    var parts := Split(seg, '.');
    if |parts| == 1 then "" else "." + parts[|parts| - 1]
  }

  // ----- The fold -----

  lemma {:induction false} FoldAppend(rooted: bool, stack: Segments, a: Segments, b: Segments)
    ensures Fold(rooted, stack, a + b) == Fold(rooted, Fold(rooted, stack, a), b)
    decreases |a|
  {
    if a == [] {
      assert a + b == b;
    } else {
      assert (a + b)[1..] == a[1..] + b;
      FoldAppend(rooted, Push(rooted, stack, a[0]), a[1..], b);
    }
  }

  lemma {:induction false} FoldRootedPlain(stack: Segments, segs: Segments)
    requires AllPlain(stack) && Free(segs, '/')
    ensures AllPlain(Fold(true, stack, segs))
    decreases |segs|
  {
    if segs != [] {
      FoldRootedPlain(Push(true, stack, segs[0]), segs[1..]);
    }
  }

  lemma {:induction false} FoldOfPlain(rooted: bool, stack: Segments, segs: Segments)
    requires AllPlain(segs)
    ensures Fold(rooted, stack, segs) == stack + segs
    decreases |segs|
  {
    if segs != [] {
      FoldOfPlain(rooted, stack + [segs[0]], segs[1..]);
      assert stack + [segs[0]] + segs[1..] == stack + segs;
    }
  }

  // ----- The documented rules as a rewriting system -----

  /** One application of one documented rule, turning segments `a` into `b`:
      drop an empty or "." segment (rules 1 and 2), cancel a name with the ".." after it (rule 3),
      or drop a ".." that begins a rooted path (rule 4). */
  ghost predicate Rewrites(rooted: bool, a: Segments, b: Segments) {
    || (exists i :: 0 <= i < |a| && (a[i] == "" || a[i] == ".") && b == a[..i] + a[i + 1..])
    || (exists i :: 0 <= i < |a| - 1 && Plain(a[i]) && a[i + 1] == ".." && b == a[..i] + a[i + 2..])
    || (rooted && a != [] && a[0] == ".." && b == a[1..])
  }

  ghost predicate Derivation(rooted: bool, steps: seq<Segments>) {
    forall i :: 0 <= i < |steps| - 1 ==> Rewrites(rooted, steps[i], steps[i + 1])
  }

  ghost predicate Irreducible(rooted: bool, a: Segments) {
    forall b :: !Rewrites(rooted, a, b)
  }

  lemma DropKeepsFold(rooted: bool, a: Segments, i: nat)
    requires i < |a| && (a[i] == "" || a[i] == ".")
    ensures Fold(rooted, [], a[..i] + a[i + 1..]) == Fold(rooted, [], a)
  {
    assert a == a[..i] + a[i..];
    FoldAppend(rooted, [], a[..i], a[i..]);
    FoldAppend(rooted, [], a[..i], a[i + 1..]);
  }

  lemma CancelKeepsFold(rooted: bool, a: Segments, i: nat)
    requires i < |a| - 1 && Plain(a[i]) && a[i + 1] == ".."
    ensures Fold(rooted, [], a[..i] + a[i + 2..]) == Fold(rooted, [], a)
  {
    assert a == a[..i] + a[i..];
    FoldAppend(rooted, [], a[..i], a[i..]);
    FoldAppend(rooted, [], a[..i], a[i + 2..]);
    var stack := Fold(rooted, [], a[..i]);
    assert Push(rooted, Push(rooted, stack, a[i]), "..") == stack;
    assert a[i..][1..] == a[i + 1..] && a[i + 1..][1..] == a[i + 2..];
  }

  /** No rule changes what the fold computes. */
  lemma RewritePreservesFold(rooted: bool, a: Segments, b: Segments)
    requires Free(a, '/') && Rewrites(rooted, a, b)
    ensures Free(b, '/') && Fold(rooted, [], a) == Fold(rooted, [], b)
  {
    if i: nat :| i < |a| && (a[i] == "" || a[i] == ".") && b == a[..i] + a[i + 1..] {
      DropKeepsFold(rooted, a, i);
    } else if i: nat :| i < |a| - 1 && Plain(a[i]) && a[i + 1] == ".." && b == a[..i] + a[i + 2..] {
      CancelKeepsFold(rooted, a, i);
    }
  }

  /** What it means that no rule applies. */
  lemma IrreducibleShape(rooted: bool, a: Segments)
    requires Free(a, '/') && Irreducible(rooted, a)
    ensures forall i :: 0 <= i < |a| ==> a[i] != "" && a[i] != "."
    ensures forall i :: 0 < i < |a| && a[i] == ".." ==> a[i - 1] == ".."
    ensures rooted && a != [] ==> a[0] != ".."
  {
    forall i | 0 <= i < |a|
      ensures a[i] != "" && a[i] != "."
    {
      assert !Rewrites(rooted, a, a[..i] + a[i + 1..]);
    }
    forall i | 0 < i < |a| && a[i] == ".."
      ensures a[i - 1] == ".."
    {
      var j := i - 1;
      assert a[j + 1] == "..";
      assert !Rewrites(rooted, a, a[..j] + a[j + 2..]);
    }
    if rooted && a != [] {
      assert !Rewrites(rooted, a, a[1..]);
    }
  }

  /** Rooted segments no rule applies to hold no "..": the first one would be removable. */
  lemma {:induction false} NoParentWhenRooted(a: Segments, n: nat)
    requires Free(a, '/') && Irreducible(true, a) && n < |a|
    ensures a[n] != ".."
  {
    IrreducibleShape(true, a);
    if n > 0 {
      NoParentWhenRooted(a, n - 1);
    }
  }

  /** Segments no rule applies to are their own fold. */
  lemma {:induction false} IrreducibleIsFixed(rooted: bool, done: Segments, rest: Segments)
    requires Free(done + rest, '/') && Irreducible(rooted, done + rest)
    ensures Fold(rooted, done, rest) == done + rest
    decreases |rest|
  {
    if rest == [] {
      assert done + rest == done;
    } else {
      var a, n := done + rest, |done|;
      IrreducibleShape(rooted, a);
      assert a[n] == rest[0];
      assert n > 0 ==> a[n - 1] == done[n - 1];
      if rooted {
        NoParentWhenRooted(a, n);
      }
      assert done + [rest[0]] + rest[1..] == a;
      IrreducibleIsFixed(rooted, done + [rest[0]], rest[1..]);
    }
  }

  /** The rules are confluent: whatever order they are applied in, once none applies the result
      is the fold of the starting segments. */
  lemma {:induction false} CleaningIsTheNormalForm(rooted: bool, steps: seq<Segments>)
    requires |steps| >= 1 && Derivation(rooted, steps) && Free(steps[0], '/')
    requires Irreducible(rooted, steps[|steps| - 1])
    ensures steps[|steps| - 1] == Fold(rooted, [], steps[0])
  {
    if |steps| == 1 {
      assert [] + steps[0] == steps[0];
      IrreducibleIsFixed(rooted, [], steps[0]);
    } else {
      assert Rewrites(rooted, steps[0], steps[0 + 1]);
      RewritePreservesFold(rooted, steps[0], steps[1]);
      var rest := steps[1..];
      forall i | 0 <= i < |rest| - 1
        ensures Rewrites(rooted, rest[i], rest[i + 1])
      {
        assert Rewrites(rooted, steps[i + 1], steps[i + 1 + 1]);
      }
      CleaningIsTheNormalForm(rooted, rest);
    }
  }

  /** And they terminate: from any segments some order of application reaches the fold. */
  lemma {:induction false} CleaningReachesTheFold(rooted: bool, a: Segments) returns (steps: seq<Segments>)
    requires Free(a, '/')
    ensures steps != [] && steps[0] == a && Derivation(rooted, steps)
    ensures steps[|steps| - 1] == Fold(rooted, [], a) && Irreducible(rooted, Fold(rooted, [], a))
    decreases |a|
  {
    if Irreducible(rooted, a) {
      steps := [a];
      assert [] + a == a;
      IrreducibleIsFixed(rooted, [], a);
    } else {
      var b :| Rewrites(rooted, a, b);
      RewritePreservesFold(rooted, a, b);
      var rest := CleaningReachesTheFold(rooted, b);
      steps := [a] + rest;
    }
  }

  // ----- Cleaning plain paths -----

  lemma {:induction false} NonEmptyOfPlain(elems: Segments)
    requires AllPlain(elems)
    ensures NonEmpty(elems) == elems
  {
    if elems != [] {
      NonEmptyOfPlain(elems[1..]);
      assert elems == [elems[0]] + elems[1..];
    }
  }

  lemma JoinPathOfPlain(elems: Segments)
    requires elems != [] && AllPlain(elems)
    ensures JoinPath(elems) == Join(elems, '/')
    ensures Split(JoinPath(elems), '/') == elems
  {
    NonEmptyOfPlain(elems);
    var p := Join(elems, '/');
    SplitJoin(elems, '/');
    FoldOfPlain(false, [], elems);
    assert [] + elems == elems;
    JoinEnds(elems, '/');
  }

  // ----- Cleaning what may climb -----

  /** A relative path as directions: so many levels up, then down through names. */
  datatype Route = Route(up: nat, down: Segments)

  function Walk(r: Route, seg: string): Route {
    if seg == "" || seg == "." then r
    else if seg != ".." then Route(r.up, r.down + [seg])
    else if r.down != [] then Route(r.up, r.down[..|r.down| - 1])
    else Route(r.up + 1, [])
  }

  function RouteOf(segs: Segments): Route {
    if segs == [] then Route(0, []) else Walk(RouteOf(segs[..|segs| - 1]), segs[|segs| - 1])
  }

  lemma RouteAppends(segs: Segments, seg: string)
    ensures RouteOf(segs + [seg]) == Walk(RouteOf(segs), seg)
  {
    assert (segs + [seg])[..|segs|] == segs;
  }

  /** Names lead straight down. */
  lemma {:induction false} RouteThenNames(segs: Segments, names: Segments)
    requires AllPlain(names)
    ensures RouteOf(segs + names) == Route(RouteOf(segs).up, RouteOf(segs).down + names)
    decreases |names|
  {
    var r := RouteOf(segs);
    if names == [] {
      assert segs + [] == segs && r.down + [] == r.down;
    } else {
      var k := |names| - 1;
      assert segs + names == segs + names[..k] + [names[k]];
      RouteThenNames(segs, names[..k]);
      RouteAppends(segs + names[..k], names[k]);
      assert Plain(names[k]);
      assert r.down + names[..k] + [names[k]] == r.down + names;
    }
  }

  function Ups(n: nat): Segments {
    if n == 0 then [] else Ups(n - 1) + [".."]
  }

  lemma {:induction false} UpsAreDots(n: nat)
    ensures |Ups(n)| == n && forall i :: 0 <= i < n ==> Ups(n)[i] == ".."
  {
    if n > 0 {
      UpsAreDots(n - 1);
    }
  }

  lemma {:induction false} RouteOfUps(n: nat)
    ensures RouteOf(Ups(n)) == Route(n, [])
  {
    if n > 0 {
      RouteOfUps(n - 1);
      RouteAppends(Ups(n - 1), "..");
    }
  }

  lemma RouteOfUpsThenNames(n: nat, names: Segments)
    requires AllPlain(names)
    ensures RouteOf(Ups(n) + names) == Route(n, names)
  {
    RouteOfUps(n);
    RouteThenNames(Ups(n), names);
    assert [] + names == names;
  }

  lemma UpsThenNamesSplit(n: nat, names: Segments)
    requires AllPlain(names) && names != []
    ensures Split(Join(Ups(n) + names, '/'), '/') == Ups(n) + names
  {
    UpsAreDots(n);
    SplitJoin(Ups(n) + names, '/');
  }

  /** The directory so many levels up. */
  function Climbed(dir: Segments, up: nat): Segments {
    if up <= |dir| then dir[..|dir| - up] else Ups(up - |dir|)
  }

  /** Where directions lead from a directory. */
  function From(dir: Segments, r: Route): Segments {
    Climbed(dir, r.up) + r.down
  }

  /** Directions that climb no higher than the top lead through names alone. */
  lemma FromIsPlain(dir: Segments, r: Route)
    requires AllPlain(dir) && AllPlain(r.down)
    ensures r.up <= |dir| ==> AllPlain(From(dir, r))
    ensures r.up > |dir| ==> From(dir, r) != [] && From(dir, r)[0] == ".."
  {
    if r.up > |dir| {
      UpsAreDots(r.up - |dir|);
    }
  }

  lemma {:induction false} RouteGoesDownNames(segs: Segments)
    requires Free(segs, '/')
    ensures AllPlain(RouteOf(segs).down)
  {
    if segs != [] {
      RouteGoesDownNames(segs[..|segs| - 1]);
    }
  }

  lemma PushPops(stack: Segments, last: string)
    requires last != ".."
    ensures Push(false, stack + [last], "..") == stack
  {
    assert (stack + [last])[..|stack|] == stack;
  }

  lemma PushClimbs(n: nat)
    ensures Push(false, Ups(n), "..") == Ups(n + 1)
  {
    assert n > 0 ==> Ups(n)[|Ups(n)| - 1] == "..";
  }

  lemma ClimbedClimbs(dir: Segments, up: nat)
    requires AllPlain(dir)
    ensures Push(false, Climbed(dir, up), "..") == Climbed(dir, up + 1)
  {
    if up < |dir| {
      var m := |dir| - up - 1;
      assert dir[..m + 1] == dir[..m] + [dir[m]];
      PushPops(dir[..m], dir[m]);
    } else {
      PushClimbs(up - |dir|);
    }
  }

  lemma FromPops(above: Segments, down: Segments)
    requires AllPlain(down) && down != []
    ensures Push(false, above + down, "..") == above + down[..|down| - 1]
  {
    var m := |down| - 1;
    assert above + down == above + down[..m] + [down[m]];
    PushPops(above + down[..m], down[m]);
  }

  lemma FromWalks(dir: Segments, r: Route, seg: string)
    requires AllPlain(dir) && AllPlain(r.down)
    ensures Push(false, From(dir, r), seg) == From(dir, Walk(r, seg))
  {
    var above := Climbed(dir, r.up);
    if seg == ".." && r.down == [] {
      ClimbedClimbs(dir, r.up);
      assert above + [] == above;
      assert Climbed(dir, r.up + 1) + [] == Climbed(dir, r.up + 1);
    } else if seg == ".." {
      FromPops(above, r.down);
    } else if seg != "" && seg != "." {
      assert above + r.down + [seg] == above + (r.down + [seg]);
    }
  }

  /** Cleaning the segments that follow a directory is following their directions from it. */
  lemma {:induction false} FoldFollowsRoute(dir: Segments, segs: Segments)
    requires AllPlain(dir) && Free(segs, '/')
    ensures Fold(false, dir, segs) == From(dir, RouteOf(segs))
    decreases |segs|
  {
    if segs == [] {
      assert dir[..|dir|] + [] == dir;
    } else {
      var n := |segs| - 1;
      assert segs == segs[..n] + [segs[n]];
      FoldAppend(false, dir, segs[..n], [segs[n]]);
      FoldFollowsRoute(dir, segs[..n]);
      RouteGoesDownNames(segs[..n]);
      FromWalks(dir, RouteOf(segs[..n]), segs[n]);
      FoldOne(Fold(false, dir, segs[..n]), segs[n]);
    }
  }

  lemma FoldOne(stack: Segments, seg: string)
    ensures Fold(false, stack, [seg]) == Push(false, stack, seg)
  {
    assert [seg][1..] == [];
  }

  /** The relative path that cleaned segments spell. */
  function Spelling(segs: Segments): string {
    if segs == [] then "." else Join(segs, '/')
  }

  /** Segments as they stand in a cleaned path. */
  ghost predicate Cleaned(segs: Segments) {
    forall i :: 0 <= i < |segs| ==> Segment(segs[i]) && segs[i] != "."
  }

  lemma {:induction false} FoldIsCleaned(stack: Segments, segs: Segments)
    requires Cleaned(stack) && Free(segs, '/')
    ensures Cleaned(Fold(false, stack, segs))
    decreases |segs|
  {
    if segs != [] {
      FoldIsCleaned(Push(false, stack, segs[0]), segs[1..]);
    }
  }

  lemma SpellingSplits(segs: Segments)
    requires segs != [] && Cleaned(segs)
    ensures Split(Spelling(segs), '/') == segs && Spelling(segs) != "."
  {
    SplitJoin(segs, '/');
    SplitNone(".", '/');
  }

  /** Different cleaned segments spell different paths. */
  lemma SpellingIsInjective(a: Segments, b: Segments)
    requires Cleaned(a) && Cleaned(b) && Spelling(a) == Spelling(b)
    ensures a == b
  {
    if a != [] {
      SpellingSplits(a);
    }
    if b != [] {
      SpellingSplits(b);
    }
  }

  /** Joining segments and one last element of any form is cleaning them all. */
  lemma JoinPathFolds(dirs: Segments, last: string)
    requires dirs != [] && forall i :: 0 <= i < |dirs| ==> Segment(dirs[i])
    ensures JoinPath(dirs + [last]) == Spelling(Fold(false, [], dirs + Split(last, '/')))
  {
    NonEmptyOfSegments(dirs, last);
    SplitJoin(dirs, '/');
    if last == "" {
      JoinPathDropsEmpty(dirs);
    } else {
      JoinPathAppends(dirs, last);
    }
  }

  lemma JoinPathDropsEmpty(dirs: Segments)
    requires dirs != [] && forall i :: 0 <= i < |dirs| ==> Segment(dirs[i])
    requires NonEmpty(dirs + [""]) == dirs + [] && Split(Join(dirs, '/'), '/') == dirs
    ensures JoinPath(dirs + [""]) == Spelling(Fold(false, [], dirs + [""]))
  {
    assert dirs + [] == dirs;
    FoldAppend(false, [], dirs, [""]);
    FoldOne(Fold(false, [], dirs), "");
    JoinEndsFront(dirs);
    CleanSpells(Join(dirs, '/'), dirs);
  }

  lemma JoinPathAppends(dirs: Segments, last: string)
    requires dirs != [] && last != "" && forall i :: 0 <= i < |dirs| ==> Segment(dirs[i])
    requires NonEmpty(dirs + [last]) == dirs + [last] && Split(Join(dirs, '/'), '/') == dirs
    ensures JoinPath(dirs + [last]) == Spelling(Fold(false, [], dirs + Split(last, '/')))
  {
    var head := Join(dirs, '/');
    JoinAppend(dirs, [last], '/');
    SplitAppend(head, last, '/');
    SplitFree(last, '/');
    JoinEndsFront(dirs);
    var whole := head + ['/'] + last;
    assert whole[0] == head[0];
    CleanSpells(whole, dirs + Split(last, '/'));
  }

  lemma CleanSpells(p: string, segs: Segments)
    requires p != "" && p[0] != '/' && Split(p, '/') == segs && Free(segs, '/')
    ensures Clean(p) == Spelling(Fold(false, [], segs))
  {
    FoldIsCleaned([], segs);
    var folded := Fold(false, [], segs);
    if folded != [] {
      JoinEnds(folded, '/');
    }
  }

  lemma JoinEndsFront(parts: Segments)
    requires parts != [] && forall i :: 0 <= i < |parts| ==> Segment(parts[i])
    ensures Join(parts, '/') != "" && Join(parts, '/')[0] != '/'
  {
    JoinEnds(parts, '/');
  }

  lemma {:induction false} NonEmptyOfSegments(dirs: Segments, last: string)
    requires forall i :: 0 <= i < |dirs| ==> Segment(dirs[i])
    ensures NonEmpty(dirs + [last]) == dirs + if last == "" then [] else [last]
  {
    if dirs == [] {
      assert dirs + [last] == [last] && [last][1..] == [];
    } else {
      assert (dirs + [last])[1..] == dirs[1..] + [last];
      NonEmptyOfSegments(dirs[1..], last);
      assert dirs == [dirs[0]] + dirs[1..];
    }
  }

  /** A path lies below a directory exactly when its segments properly extend the directory's. */
  lemma BelowIffExtends(dir: Segments, segs: Segments)
    requires dir != [] && Free(dir, '/') && Cleaned(segs)
    ensures HasPrefix(Spelling(segs), Join(dir, '/') + "/") <==> dir < segs
  {
    var prefix := Join(dir, '/') + "/";
    if HasPrefix(Spelling(segs), prefix) {
      var rest := Spelling(segs)[|prefix|..];
      assert Spelling(segs) == Join(dir, '/') + ['/'] + rest;
      SplitAppend(Join(dir, '/'), rest, '/');
      SplitJoin(dir, '/');
      assert '/' in Spelling(segs);
      SpellingSplits(segs);
    }
    if dir < segs {
      JoinAppend(dir, segs[|dir|..], '/');
      assert segs == dir + segs[|dir|..];
    }
  }
}
