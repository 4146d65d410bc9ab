/** Release manifests (internal/manifest/manifest.go), from the decoded JSON value onwards: the
    checks `Load` makes, the re-keying that heals slash-prefixed paths, and the size estimate that
    bounds the manifest cache. */
module Manifest {
  import opened Wrappers
  import opened GoText

  const FILE_ENTRY_BYTES := 96
  const MANIFEST_BASE_BYTES := 512
  const DEFAULT_NOT_FOUND: string := "404.html"

  datatype File = File(blob: string, contentType: string, cache: string)

  type Files = map<string, File>

  /** `createdAt` as the date library reads it: an instant, and its HTTP-date text. Instants count
      nanoseconds from the zero time, so 0 is the zero time. */
  datatype Created = Created(instant: int, httpDate: string)

  /** What the JSON decoder makes of a manifest object. */
  datatype Raw = Raw(environment: string, spa: bool, notFound: string,
                     created: Option<Created>, files: Option<Files>)

  datatype Manifest = Manifest(environment: string, spa: bool, notFound: string, files: Files,
                               modTime: int, lastModified: string, approxBytes: nat)
  {
    predicate IsProduction() {
      environment == "production"
    }

    function NotFoundDoc(): string {
      if notFound == "" then DEFAULT_NOT_FOUND else notFound
    }

    function Lookup(p: string): Option<File> {
      if p in files then Some(files[p]) else None
    }
  }

  datatype LoadError = Undecodable | MissingFiles | EmptyBlob(path: string)

  // ----- Re-keying -----

  function Strip(k: string): string {
    TrimLeft(k, '/')
  }

  predicate Slashed(k: string) {
    HasPrefix(k, "/")
  }

  lemma StripFacts(k: string)
    ensures !Slashed(Strip(k))
    ensures !Slashed(k) <==> Strip(k) == k
    ensures k != "" && k[0] != '/' ==> !Slashed(k)
  {
  }

  /** An order in which Go may iterate over a map: every key once. */
  ghost predicate Enumerates<V>(order: seq<string>, m: map<string, V>) {
    && (forall k :: k in order <==> k in m)
    && (forall i, j :: 0 <= i < j < |order| ==> order[i] != order[j])
  }

  /** What the first pass amounts to: the entries whose key is already canonical. */
  function Canonical(files: Files): Files {
    map k | k in files && !Slashed(k) :: files[k]
  }

  /** The first pass: already canonical keys are kept. */
  function Keep(files: Files, out: Files, order: seq<string>): Files
    requires forall k :: k in order ==> k in files
    decreases |order|
  {
    if order == [] then out
    else Keep(files, if Slashed(order[0]) then out else out[order[0] := files[order[0]]], order[1..])
  }

  /** The second pass: stripped keys, where the canonical form is still absent. */
  function Fill(files: Files, out: Files, order: seq<string>): Files
    requires forall k :: k in order ==> k in files
    decreases |order|
  {
    if order == [] then out
    else Fill(files, FillOne(files, out, order[0]), order[1..])
  }

  function FillOne(files: Files, out: Files, k: string): Files
    requires k in files
  {
    if Slashed(k) && Strip(k) !in out then out[Strip(k) := files[k]] else out
  }

  function Rekey(files: Files, order: seq<string>): Files
    requires forall k :: k in order ==> k in files
  {
    Fill(files, Keep(files, map[], order), order)
  }

  /** Go's iteration over a map: every key once, in an order that differs from loop to loop. */
  method Iterate(files: Files) returns (order: seq<string>)
    ensures Enumerates(order, files)
  {
    order := [];
    var rest := files.Keys;
    while rest != {}
      invariant rest <= files.Keys
      invariant forall k :: k in order <==> k in files && k !in rest
      invariant forall i, j :: 0 <= i < j < |order| ==> order[i] != order[j]
      decreases |rest|
    {
      var k :| k in rest;
      order := order + [k];
      rest := rest - {k};
    }
  }

  /** Only the order of the last loop matters. */
  method CanonicalizeFileKeys(files: Files) returns (out: Files)
    ensures exists order :: Enumerates(order, files) && out == Rekey(files, order)
  {
    var needsFix := false;
    var order := Iterate(files);
    for i := 0 to |order|
      invariant forall j :: 0 <= j < i ==> !Slashed(order[j])
    {
      if Slashed(order[i]) {
        needsFix := true;
        break;
      }
    }
    if !needsFix {
      RekeyWithoutSlashes(files, order);
      return files;
    }
    out := KeepPass(files);
    out := FillPass(files, out);
  }

  method KeepPass(files: Files) returns (out: Files)
    ensures out == Canonical(files)
  {
    out := map[];
    var order := Iterate(files);
    assert order[0..] == order;
    for i := 0 to |order|
      invariant Keep(files, out, order[i..]) == Keep(files, map[], order)
    {
      var k := order[i];
      KeepStep(files, out, order, i);
      if !Slashed(k) {
        out := out[k := files[k]];
      }
    }
    KeepIsCanonical(files, order);
  }

  method FillPass(files: Files, canonical: Files) returns (out: Files)
    requires canonical == Canonical(files)
    ensures exists order :: Enumerates(order, files) && out == Rekey(files, order)
  {
    out := canonical;
    var order := Iterate(files);
    assert order[0..] == order;
    for i := 0 to |order|
      invariant Fill(files, out, order[i..]) == Fill(files, canonical, order)
    {
      var k := order[i];
      FillStep(files, out, order, i);
      if Slashed(k) {
        var ck := Strip(k);
        if ck !in out {
          out := out[ck := files[k]];
        }
      }
    }
    KeepIsCanonical(files, order);
    assert out == Rekey(files, order);
  }

  lemma KeepStep(files: Files, out: Files, order: seq<string>, i: nat)
    requires i < |order| && forall k :: k in order ==> k in files
    ensures Keep(files, out, order[i..])
         == Keep(files, if Slashed(order[i]) then out else out[order[i] := files[order[i]]], order[i + 1..])
  {
    assert order[i..][1..] == order[i + 1..];
  }

  lemma FillStep(files: Files, out: Files, order: seq<string>, i: nat)
    requires i < |order| && forall k :: k in order ==> k in files
    ensures Fill(files, out, order[i..]) == Fill(files, FillOne(files, out, order[i]), order[i + 1..])
  {
    assert order[i..][1..] == order[i + 1..];
  }

  lemma {:induction false} KeepKeeps(files: Files, out: Files, order: seq<string>)
    requires forall k :: k in order ==> k in files
    ensures var r := Keep(files, out, order);
            && (forall k :: k in r <==> k in out || (k in order && !Slashed(k)))
            && (forall k :: k in r ==> r[k] == if k in order && !Slashed(k) then files[k] else out[k])
    decreases |order|
  {
    if order != [] {
      var next := if Slashed(order[0]) then out else out[order[0] := files[order[0]]];
      KeepKeeps(files, next, order[1..]);
      assert forall k :: k in order <==> k == order[0] || k in order[1..];
    }
  }

  lemma KeepIsCanonical(files: Files, order: seq<string>)
    requires Enumerates(order, files)
    ensures Keep(files, map[], order) == Canonical(files)
  {
    KeepKeeps(files, map[], order);
  }

  lemma RekeyWithoutSlashes(files: Files, order: seq<string>)
    requires Enumerates(order, files)
    requires forall i :: 0 <= i < |order| ==> !Slashed(order[i])
    ensures Rekey(files, order) == files
  {
    KeepIsCanonical(files, order);
    assert Canonical(files) == files;
    FillKeepsWithoutSlashes(files, files, order);
  }

  lemma {:induction false} FillKeepsWithoutSlashes(files: Files, out: Files, order: seq<string>)
    requires forall k :: k in order ==> k in files && !Slashed(k)
    ensures Fill(files, out, order) == out
    decreases |order|
  {
    if order != [] {
      assert order[0] in order;
      FillKeepsWithoutSlashes(files, out, order[1..]);
    }
  }

  /** `order[i]` is the first key of the order that strips to `c`. */
  ghost predicate Supplies(order: seq<string>, i: nat, c: string) {
    && i < |order| && Slashed(order[i]) && Strip(order[i]) == c
    && forall j :: 0 <= j < i ==> !(Slashed(order[j]) && Strip(order[j]) == c)
  }

  lemma {:induction false} FillKeeps(files: Files, out: Files, order: seq<string>, c: string)
    requires (forall k :: k in order ==> k in files) && c in out
    ensures c in Fill(files, out, order) && Fill(files, out, order)[c] == out[c]
    decreases |order|
  {
    if order != [] {
      FillKeeps(files, FillOne(files, out, order[0]), order[1..], c);
    }
  }

  lemma {:induction false} FillCovers(files: Files, out: Files, order: seq<string>, k: string)
    requires (forall x :: x in order ==> x in files) && k in order && Slashed(k)
    ensures Strip(k) in Fill(files, out, order)
    decreases |order|
  {
    var next := FillOne(files, out, order[0]);
    if k == order[0] {
      FillKeeps(files, next, order[1..], Strip(k));
    } else {
      FillCovers(files, next, order[1..], k);
    }
  }

  /** What the second pass adds is the entry of the first key of the order that strips there. */
  lemma {:induction false} FillIsFirstComeFirstServed(files: Files, out: Files, order: seq<string>, c: string)
    returns (i: nat)
    requires (forall k :: k in order ==> k in files) && c in Fill(files, out, order) && c !in out
    ensures Supplies(order, i, c) && Fill(files, out, order)[c] == files[order[i]]
    decreases |order|
  {
    var k, rest := order[0], order[1..];
    var next := FillOne(files, out, k);
    if c in next {
      FillKeeps(files, next, rest, c);
      i := 0;
    } else {
      var j := FillIsFirstComeFirstServed(files, next, rest, c);
      assert order == [k] + rest;
      SuppliesLater(k, rest, j, c);
      i := j + 1;
    }
  }

  lemma SuppliesLater(k: string, rest: seq<string>, i: nat, c: string)
    requires Supplies(rest, i, c) && !(Slashed(k) && Strip(k) == c)
    ensures Supplies([k] + rest, i + 1, c)
  {
  }

  /** What re-keying promises, whatever the iteration order. */
  ghost predicate IsRekeying(files: Files, out: Files) {
    && (forall k :: k in files ==> Strip(k) in out)
    && (forall c :: c in out ==> exists k :: k in files && Strip(k) == c && out[c] == files[k])
    && (forall k :: k in files && !Slashed(k) ==> k in out && out[k] == files[k])
  }

  lemma RekeyCoversKeys(files: Files, order: seq<string>, k: string)
    requires Enumerates(order, files) && k in files
    ensures Strip(k) in Rekey(files, order)
    ensures !Slashed(k) ==> k in Rekey(files, order) && Rekey(files, order)[k] == files[k]
  {
    KeepIsCanonical(files, order);
    StripFacts(k);
    if Slashed(k) {
      FillCovers(files, Canonical(files), order, k);
    } else {
      FillKeeps(files, Canonical(files), order, k);
    }
  }

  lemma RekeyedComesFrom(files: Files, order: seq<string>, c: string) returns (k: string)
    requires Enumerates(order, files) && c in Rekey(files, order)
    ensures k in files && Strip(k) == c && Rekey(files, order)[c] == files[k]
  {
    KeepIsCanonical(files, order);
    if c in Canonical(files) {
      k := c;
      StripFacts(c);
      FillKeeps(files, Canonical(files), order, c);
    } else {
      var i := FillIsFirstComeFirstServed(files, Canonical(files), order, c);
      k := order[i];
      assert k in order;
    }
  }

  /** Output keys are exactly the stripped input keys; a canonical entry keeps its value; any other
      takes the value of some input that strips to it. */
  lemma RekeyIsRekeying(files: Files, order: seq<string>)
    requires Enumerates(order, files)
    ensures IsRekeying(files, Rekey(files, order))
  {
    forall k | k in files
      ensures Strip(k) in Rekey(files, order)
      ensures !Slashed(k) ==> k in Rekey(files, order) && Rekey(files, order)[k] == files[k]
    {
      RekeyCoversKeys(files, order, k);
    }
    forall c | c in Rekey(files, order)
      ensures exists k :: k in files && Strip(k) == c && Rekey(files, order)[c] == files[k]
    {
      var k := RekeyedComesFrom(files, order, c);
    }
  }

  /** Re-keying what has been re-keyed changes nothing. */
  lemma RekeyIsIdempotent(files: Files, order: seq<string>, again: seq<string>)
    requires Enumerates(order, files) && Enumerates(again, Rekey(files, order))
    ensures Rekey(Rekey(files, order), again) == Rekey(files, order)
  {
    var out := Rekey(files, order);
    RekeyIsRekeying(files, order);
    forall c | c in out
      ensures !Slashed(c)
    {
      var k :| k in files && Strip(k) == c;
      StripFacts(k);
    }
    RekeyWithoutSlashes(out, again);
  }

  /** Two slash-prefixed keys strip to the same absent key but carry different entries. */
  ghost predicate Clash(files: Files, k: string, k': string) {
    && k in files && k' in files && Slashed(k) && Slashed(k')
    && Strip(k) == Strip(k') && Strip(k) !in files
    && files[k] != files[k']
  }

  ghost predicate NoClash(files: Files) {
    forall k, k' :: !Clash(files, k, k')
  }

  lemma NoClashDeterminesEntry(files: Files, out: Files, out': Files, c: string)
    requires NoClash(files) && IsRekeying(files, out) && IsRekeying(files, out') && c in out
    ensures c in out' && out[c] == out'[c]
  {
    var a :| a in files && Strip(a) == c && out[c] == files[a];
    var b :| b in files && Strip(b) == c && out'[c] == files[b];
    StripFacts(a);
    StripFacts(b);
    assert !Clash(files, a, b);
  }

  lemma NoClashDeterminesEntries(files: Files, out: Files, out': Files)
    requires NoClash(files) && IsRekeying(files, out) && IsRekeying(files, out')
    ensures forall c :: c in out ==> c in out' && out[c] == out'[c]
  {
    forall c | c in out
      ensures c in out' && out[c] == out'[c]
    {
      NoClashDeterminesEntry(files, out, out', c);
    }
  }

  lemma SameEntriesSameMap<K, V>(a: map<K, V>, b: map<K, V>)
    requires forall k :: k in a ==> k in b && a[k] == b[k]
    requires forall k :: k in b ==> k in a
    ensures a == b
  {
  }

  lemma NoClashDetermines(files: Files, out: Files, out': Files)
    requires NoClash(files) && IsRekeying(files, out) && IsRekeying(files, out')
    ensures out == out'
  {
    NoClashDeterminesEntries(files, out, out');
    NoClashDeterminesEntries(files, out', out);
    SameEntriesSameMap(out, out');
  }

  ghost function Listing(keys: set<string>): (order: seq<string>)
    ensures forall k :: k in order <==> k in keys
    ensures forall i, j :: 0 <= i < j < |order| ==> order[i] != order[j]
  {
    if keys == {} then [] else
      var k :| k in keys;
      [k] + Listing(keys - {k})
  }

  /** With `k` first in the order, its stripped form (if absent) is served by `k`. */
  lemma FirstKeyWins(files: Files, k: string) returns (order: seq<string>)
    requires k in files && Slashed(k) && Strip(k) !in files
    ensures Enumerates(order, files)
    ensures Strip(k) in Rekey(files, order) && Rekey(files, order)[Strip(k)] == files[k]
  {
    var rest := Listing(files.Keys - {k});
    order := [k] + rest;
    assert order[0] == k && order[1..] == rest;
    assert forall x :: x in order <==> x == k || x in rest;
    KeepIsCanonical(files, order);
    StripFacts(k);
    var next := FillOne(files, Canonical(files), k);
    assert Strip(k) !in Canonical(files) && next[Strip(k)] == files[k];
    FillKeeps(files, next, rest, Strip(k));
  }

  /** The iteration order is immaterial exactly when no two keys clash. */
  lemma OrderIsImmaterialIffNoClash(files: Files)
    ensures (forall o1, o2 :: Enumerates(o1, files) && Enumerates(o2, files) ==> Rekey(files, o1) == Rekey(files, o2))
       <==> NoClash(files)
  {
    if NoClash(files) {
      forall o1, o2 | Enumerates(o1, files) && Enumerates(o2, files)
        ensures Rekey(files, o1) == Rekey(files, o2)
      {
        RekeyIsRekeying(files, o1);
        RekeyIsRekeying(files, o2);
        NoClashDetermines(files, Rekey(files, o1), Rekey(files, o2));
      }
    } else {
      var k, k' :| Clash(files, k, k');
      var o1 := FirstKeyWins(files, k);
      var o2 := FirstKeyWins(files, k');
    }
  }

  // ----- The size estimate -----

  function EntrySize(path: string, f: File): nat {
    ByteLen(path) + ByteLen(f.blob) + ByteLen(f.contentType) + ByteLen(f.cache) + FILE_ENTRY_BYTES
  }

  ghost function TotalSize(files: Files): nat {
    if files == map[] then 0 else
      var k :| k in files;
      EntrySize(k, files[k]) + TotalSize(files - {k})
  }

  /** Any entry may be counted first. */
  lemma {:induction false} TotalSizeSplits(files: Files, k: string)
    requires k in files
    ensures TotalSize(files) == EntrySize(k, files[k]) + TotalSize(files - {k})
    decreases |files|
  {
    var j :| j in files && TotalSize(files) == EntrySize(j, files[j]) + TotalSize(files - {j});
    if j != k {
      TotalSizeSplits(files - {j}, k);
      TotalSizeSplits(files - {k}, j);
      assert files - {j} - {k} == files - {k} - {j};
    }
  }

  ghost function ApproxSize(files: Files): nat {
    MANIFEST_BASE_BYTES + TotalSize(files)
  }

  /** All the text of a manifest, in some order of its entries. */
  function TextOf(files: Files, order: seq<string>): string
    requires forall k :: k in order ==> k in files
  {
    if order == [] then ""
    else
      var k := order[0];
      k + files[k].blob + files[k].contentType + files[k].cache + TextOf(files, order[1..])
  }

  lemma EntryTextSize(k: string, f: File, rest: string)
    ensures ByteLen(k + f.blob + f.contentType + f.cache + rest) + 96 == EntrySize(k, f) + ByteLen(rest)
  {
    ByteLenAppend(k + f.blob + f.contentType + f.cache, rest);
    ByteLenAppend(k + f.blob + f.contentType, f.cache);
    ByteLenAppend(k + f.blob, f.contentType);
    ByteLenAppend(k, f.blob);
  }

  lemma {:induction false} TotalSizeIsText(files: Files, order: seq<string>)
    requires Enumerates(order, files)
    ensures TotalSize(files) == 96 * |order| + ByteLen(TextOf(files, order))
    decreases |order|
  {
    if order == [] {
      assert files == map[];
    } else {
      var k, rest := order[0], order[1..];
      assert k in order;
      TotalSizeSplits(files, k);
      assert forall x :: x in order <==> x == k || x in rest;
      assert k !in rest;
      TotalSizeIsText(files - {k}, rest);
      TextWithout(files, k, rest);
      EntryTextSize(k, files[k], TextOf(files, rest));
    }
  }

  lemma {:induction false} TextWithout(files: Files, k: string, order: seq<string>)
    requires k !in order && forall x :: x in order ==> x in files
    ensures TextOf(files - {k}, order) == TextOf(files, order)
  {
    if order != [] {
      assert order[0] in order;
      TextWithout(files, k, order[1..]);
    }
  }

  /** The size a loaded manifest is charged is the UTF-8 length of all its keys, blob ids, content types
      and cache classes, and 96 bytes an entry and 512 besides. */
  lemma SizeIsText(decoded: Option<Raw>, m: Manifest, order: seq<string>)
    requires LoadsTo(decoded, m) && Enumerates(order, m.files)
    ensures m.approxBytes == 512 + 96 * |order| + ByteLen(TextOf(m.files, order))
  {
    TotalSizeIsText(m.files, order);
  }

  method Precompute(raw: Raw, files: Files) returns (m: Manifest)
    ensures m.environment == raw.environment && m.spa == raw.spa && m.notFound == raw.notFound
    ensures m.files == files && m.approxBytes == ApproxSize(files)
    ensures m.modTime == if raw.created.Some? then raw.created.value.instant else 0
    ensures m.lastModified == if raw.created.Some? then raw.created.value.httpDate else ""
  {
    var modTime, lastModified := 0, "";
    if raw.created.Some? {
      modTime, lastModified := raw.created.value.instant, raw.created.value.httpDate;
    }
    var size := MANIFEST_BASE_BYTES;
    var rest := files;
    while rest != map[]
      invariant rest.Keys <= files.Keys && forall k :: k in rest ==> rest[k] == files[k]
      invariant size + TotalSize(rest) == ApproxSize(files)
      decreases |rest|
    {
      var p :| p in rest;
      TotalSizeSplits(rest, p);
      size := size + EntrySize(p, rest[p]);
      rest := rest - {p};
    }
    m := Manifest(raw.environment, raw.spa, raw.notFound, files, modTime, lastModified, size);
  }

  // ----- Load -----

  /** The decoded value passes the checks of `Load`. */
  ghost predicate Loadable(decoded: Option<Raw>) {
    decoded.Some? && decoded.value.files.Some?
    && forall p :: p in decoded.value.files.value ==> decoded.value.files.value[p].blob != ""
  }

  /** `m` is a manifest that `Load` may produce: everything but the order of re-keying is fixed. */
  ghost predicate LoadsTo(decoded: Option<Raw>, m: Manifest) {
    && Loadable(decoded)
    && var raw := decoded.value;
    && m.environment == raw.environment && m.spa == raw.spa && m.notFound == raw.notFound
    && IsRekeying(raw.files.value, m.files)
    && m.approxBytes == ApproxSize(m.files)
    && m.modTime == (if raw.created.Some? then raw.created.value.instant else 0)
    && m.lastModified == (if raw.created.Some? then raw.created.value.httpDate else "")
  }

  method Load(decoded: Option<Raw>) returns (r: Result<Manifest, LoadError>)
    ensures r.Ok? <==> Loadable(decoded)
    ensures r.Ok? <==> decoded.Some? && decoded.value.files.Some?
                       && forall f :: f in decoded.value.files.value.Values ==> f.blob != ""
    ensures decoded.None? ==> r == Err(Undecodable)
    ensures decoded.Some? && decoded.value.files.None? ==> r == Err(MissingFiles)
    ensures r.Err? && r.error.EmptyBlob? ==>
              && decoded.Some? && decoded.value.files.Some? && r.error.path in decoded.value.files.value
              && decoded.value.files.value[r.error.path].blob == ""
    ensures r.Ok? ==> LoadsTo(decoded, r.value)
    ensures r.Ok? ==> exists order :: Enumerates(order, decoded.value.files.value)
                                      && r.value.files == Rekey(decoded.value.files.value, order)
  {
    if decoded.None? {
      return Err(Undecodable);
    }
    if decoded.value.files.None? {
      return Err(MissingFiles);
    }
    var files := decoded.value.files.value;
    var order := Iterate(files);
    for i := 0 to |order|
      invariant forall j :: 0 <= j < i ==> files[order[j]].blob != ""
    {
      if files[order[i]].blob == "" {
        assert order[i] in files;
        return Err(EmptyBlob(order[i]));
      }
    }
    var canonical := CanonicalizeFileKeys(files);
    ghost var last :| Enumerates(last, files) && canonical == Rekey(files, last);
    RekeyIsRekeying(files, last);
    var m := Precompute(decoded.value, canonical);
    return Ok(m);
  }

  /** A loaded manifest has positive size, no slash-prefixed key and no empty blob id. */
  lemma LoadedIsWellFormed(decoded: Option<Raw>, m: Manifest)
    requires LoadsTo(decoded, m)
    ensures m.approxBytes >= MANIFEST_BASE_BYTES
    ensures forall c :: c in m.files ==> !Slashed(c) && m.files[c].blob != ""
  {
    forall c | c in m.files
      ensures !Slashed(c) && m.files[c].blob != ""
    {
      var files := decoded.value.files.value;
      var k :| k in files && Strip(k) == c && m.files[c] == files[k];
      StripFacts(k);
    }
  }

  /** One object, one manifest: `Load` is a function of the decoded value when no keys clash. */
  lemma LoadIsDeterministic(decoded: Option<Raw>, m: Manifest, m': Manifest)
    requires LoadsTo(decoded, m) && LoadsTo(decoded, m') && NoClash(decoded.value.files.value)
    ensures m == m'
  {
    NoClashDetermines(decoded.value.files.value, m.files, m'.files);
  }

  lemma LoadsInOrder(decoded: Option<Raw>, order: seq<string>) returns (m: Manifest)
    requires Loadable(decoded) && Enumerates(order, decoded.value.files.value)
    ensures LoadsTo(decoded, m) && m.files == Rekey(decoded.value.files.value, order)
  {
    var raw := decoded.value;
    RekeyIsRekeying(raw.files.value, order);
    var files := Rekey(raw.files.value, order);
    m := Manifest(raw.environment, raw.spa, raw.notFound, files,
                  if raw.created.Some? then raw.created.value.instant else 0,
                  if raw.created.Some? then raw.created.value.httpDate else "",
                  ApproxSize(files));
  }

  /** Every loadable value loads to something. */
  lemma LoadableLoads(decoded: Option<Raw>) returns (m: Manifest)
    requires Loadable(decoded)
    ensures LoadsTo(decoded, m)
  {
    m := LoadsInOrder(decoded, Listing(decoded.value.files.value.Keys));
  }

  /** No other key takes precedence over `key` for its canonical path, nor contends with it: the
      canonical entry, if there is one, is the same, and else so are all that strip to that path. */
  ghost predicate Owns(files: Files, key: string)
    requires key in files
  {
    if Strip(key) in files then files[Strip(key)] == files[key]
    else forall k :: k in files && Strip(k) == Strip(key) ==> files[k] == files[key]
  }

  lemma OwnedEntryIsKept(files: Files, out: Files, key: string)
    requires key in files && IsRekeying(files, out) && Owns(files, key)
    ensures Strip(key) in out && out[Strip(key)] == files[key]
  {
    var c := Strip(key);
    StripFacts(key);
    if c !in files {
      var k :| k in files && Strip(k) == c && out[c] == files[k];
    }
  }

  /** A key without precedence loses its path in some order. */
  lemma ContestedEntryIsLost(decoded: Option<Raw>, key: string) returns (m: Manifest)
    requires Loadable(decoded) && key in decoded.value.files.value && !Owns(decoded.value.files.value, key)
    ensures LoadsTo(decoded, m) && m.Lookup(Strip(key)) != Some(decoded.value.files.value[key])
  {
    var files := decoded.value.files.value;
    StripFacts(key);
    if Strip(key) in files {
      m := LoadableLoads(decoded);
    } else {
      var k :| k in files && Strip(k) == Strip(key) && files[k] != files[key];
      StripFacts(k);
      var order := FirstKeyWins(files, k);
      m := LoadsInOrder(decoded, order);
    }
  }

  /** A published key, slash-prefixed or not, is served with its own entry under its canonical path by
      every load, exactly when no other key takes precedence or contends. */
  lemma EntryIsKeptIff(decoded: Option<Raw>, key: string)
    requires Loadable(decoded) && key in decoded.value.files.value
    ensures (forall m :: LoadsTo(decoded, m) ==> m.Lookup(Strip(key)) == Some(decoded.value.files.value[key]))
       <==> Owns(decoded.value.files.value, key)
  {
    if Owns(decoded.value.files.value, key) {
      forall m | LoadsTo(decoded, m)
        ensures m.Lookup(Strip(key)) == Some(decoded.value.files.value[key])
      {
        OwnedEntryIsKept(decoded.value.files.value, m.files, key);
      }
    } else {
      var m := ContestedEntryIsLost(decoded, key);
    }
  }
}
