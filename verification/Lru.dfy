/** What both caches compute, on recency lists: a sequence of entries, most recently used first.
    `manifestCache` (internal/server/cache.go) and `blobCache` (internal/blobstore/cache.go) differ
    only in their policy: when a list fits, and which entries are admitted at all. */
module Lru {

  datatype Entry<+K, +V> = Entry(key: K, val: V, size: nat)

  /** `Counted` is the manifest cache: an entry count, a byte budget (none when not positive), and
      a floor of one entry. `Budgeted` is the blob cache behind its store: a byte budget, and a
      per-blob ceiling above which nothing is offered to it. */
  datatype Policy = Counted(cap: nat, bytesCap: int) | Budgeted(bytesCap: int, ceiling: int)

  // ----- Recency lists -----

  ghost predicate Has<K, V>(s: seq<Entry<K, V>>, k: K) {
    exists i :: 0 <= i < |s| && s[i].key == k
  }

  ghost function IndexOf<K, V>(s: seq<Entry<K, V>>, k: K): (i: nat)
    requires Has(s, k)
    ensures i < |s| && s[i].key == k && forall j :: 0 <= j < i ==> s[j].key != k
  {
    FirstExists(s, k);
    var i: nat :| i < |s| && s[i].key == k && forall j :: 0 <= j < i ==> s[j].key != k;
    i
  }

  lemma {:induction false} First<K, V>(s: seq<Entry<K, V>>, k: K, n: nat) returns (i: nat)
    requires n < |s| && s[n].key == k
    ensures i < |s| && s[i].key == k && forall j :: 0 <= j < i ==> s[j].key != k
  {
    if j: nat :| j < n && s[j].key == k {
      i := First(s, k, j);
    } else {
      i := n;
    }
  }

  lemma FirstExists<K, V>(s: seq<Entry<K, V>>, k: K)
    requires Has(s, k)
    ensures exists i: nat :: i < |s| && s[i].key == k && forall j :: 0 <= j < i ==> s[j].key != k
  {
    var n: nat :| n < |s| && s[n].key == k;
    var i := First(s, k, n);
  }

  ghost function At<K, V>(s: seq<Entry<K, V>>, k: K): Entry<K, V>
    requires Has(s, k)
  {
    s[IndexOf(s, k)]
  }

  ghost function Without<K, V>(s: seq<Entry<K, V>>, k: K): seq<Entry<K, V>> {
    if Has(s, k) then s[..IndexOf(s, k)] + s[IndexOf(s, k) + 1..] else s
  }

  /** A hit: the entry moves to the front. */
  ghost function Touch<K, V>(s: seq<Entry<K, V>>, k: K): seq<Entry<K, V>>
    requires Has(s, k)
  {
    [At(s, k)] + Without(s, k)
  }

  ghost predicate Distinct<K, V>(s: seq<Entry<K, V>>) {
    forall i, j :: 0 <= i < j < |s| ==> s[i].key != s[j].key
  }

  ghost function Bytes<K, V>(s: seq<Entry<K, V>>): nat {
    if s == [] then 0 else Bytes(s[..|s| - 1]) + s[|s| - 1].size
  }

  // ----- Prefixes -----

  lemma IndexInPrefix<K, V>(a: seq<Entry<K, V>>, b: seq<Entry<K, V>>, k: K)
    requires a <= b && Has(a, k)
    ensures Has(b, k) && IndexOf(b, k) == IndexOf(a, k)
  {
    var i := IndexOf(a, k);
    assert b[i] == a[i];
    assert forall j :: 0 <= j < i ==> b[j] == a[j];
  }

  lemma CutPrefix<T>(a: seq<T>, b: seq<T>, i: nat)
    requires a <= b && i < |a|
    ensures a[..i] + a[i + 1..] <= b[..i] + b[i + 1..]
  {
    assert b[..i] == a[..i];
    assert b[i + 1..] == a[i + 1..] + b[|a|..];
  }

  lemma WithoutKeepsPrefix<K, V>(a: seq<Entry<K, V>>, b: seq<Entry<K, V>>, k: K)
    requires a <= b && !Has(a, k)
    ensures a <= Without(b, k)
  {
    assert forall j :: 0 <= j < |a| ==> b[j] == a[j] && b[j].key != k;
  }

  // ----- Policies -----

  ghost predicate Fits<K, V>(p: Policy, s: seq<Entry<K, V>>) {
    match p
    case Counted(cap, bytesCap) => |s| <= 1 || (|s| <= cap && (bytesCap <= 0 || Bytes(s) <= bytesCap))
    case Budgeted(bytesCap, _) => Bytes(s) <= bytesCap
  }

  predicate Admits<K, V>(p: Policy, e: Entry<K, V>) {
    match p
    case Counted(_, _) => true
    case Budgeted(bytesCap, ceiling) => e.size <= bytesCap && e.size <= ceiling
  }

  /** Evict from the back until the list fits. */
  ghost function Trim<K, V>(p: Policy, s: seq<Entry<K, V>>): seq<Entry<K, V>> {
    if s == [] || Fits(p, s) then s else Trim(p, s[..|s| - 1])
  }

  ghost function Insert<K, V>(p: Policy, s: seq<Entry<K, V>>, e: Entry<K, V>): seq<Entry<K, V>> {
    Trim(p, [e] + Without(s, e.key))
  }

  /** A load that completed: its entry is inserted if the policy admits it. */
  ghost function Offer<K, V>(p: Policy, s: seq<Entry<K, V>>, e: Entry<K, V>): seq<Entry<K, V>> {
    if Admits(p, e) then Insert(p, s, e) else s
  }

  // ----- Byte accounting -----

  lemma {:induction false} BytesAppend<K, V>(a: seq<Entry<K, V>>, b: seq<Entry<K, V>>)
    ensures Bytes(a + b) == Bytes(a) + Bytes(b)
    decreases |b|
  {
    if b == [] {
      assert a + b == a;
    } else {
      assert (a + b)[..|a + b| - 1] == a + b[..|b| - 1];
      BytesAppend(a, b[..|b| - 1]);
    }
  }

  lemma BytesFront<K, V>(e: Entry<K, V>, s: seq<Entry<K, V>>)
    ensures Bytes([e] + s) == e.size + Bytes(s)
  {
    BytesAppend([e], s);
    assert [e][..0] == [];
  }

  /** Overwriting the front entry changes the count by the difference of the sizes. */
  lemma BytesReplaced<K, V>(first: Entry<K, V>, e: Entry<K, V>, s: seq<Entry<K, V>>)
    requires s != [] && s[0] == first
    ensures Bytes([e] + s[1..]) == Bytes(s) + e.size - first.size
  {
    BytesFront(first, s[1..]);
    BytesFront(e, s[1..]);
    assert s == [first] + s[1..];
  }

  lemma {:induction false} BytesRemove<K, V>(s: seq<Entry<K, V>>, i: nat)
    requires i < |s|
    ensures Bytes(s[..i] + s[i + 1..]) + s[i].size == Bytes(s)
    decreases |s|
  {
    var t, r := s[..|s| - 1], s[..i] + s[i + 1..];
    if i == |t| {
      assert r == t;
    } else {
      BytesRemove(t, i);
      assert r[..|r| - 1] == t[..i] + t[i + 1..];
      assert r[|r| - 1] == s[|t|];
    }
  }

  lemma TouchKeepsBytes<K, V>(s: seq<Entry<K, V>>, k: K)
    requires Has(s, k)
    ensures Bytes(Touch(s, k)) == Bytes(s) && |Touch(s, k)| == |s|
  {
    BytesRemove(s, IndexOf(s, k));
    BytesFront(At(s, k), Without(s, k));
  }

  // ----- Eviction is exact -----

  /** What survives is the longest prefix of the recency list that fits. */
  lemma {:induction false} TrimIsLongest<K, V>(p: Policy, s: seq<Entry<K, V>>)
    ensures var r := Trim(p, s);
            && r <= s
            && (r == [] || Fits(p, r))
            && forall n :: |r| < n <= |s| ==> !Fits(p, s[..n])
    decreases |s|
  {
    if s != [] && !Fits(p, s) {
      var t := s[..|s| - 1];
      TrimIsLongest(p, t);
      forall n | |Trim(p, t)| < n <= |s|
        ensures !Fits(p, s[..n])
      {
        assert n < |s| ==> s[..n] == t[..n];
        assert n == |s| ==> s[..n] == s;
      }
    }
  }

  /** The longest fitting prefix is the only list with these properties. */
  lemma LongestIsUnique<K, V>(p: Policy, s: seq<Entry<K, V>>, r: seq<Entry<K, V>>)
    requires r <= s && (r == [] || Fits(p, r)) && forall n :: |r| < n <= |s| ==> !Fits(p, s[..n])
    ensures r == Trim(p, s)
  {
    TrimIsLongest(p, s);
    var t := Trim(p, s);
    assert t == s[..|t|] && r == s[..|r|];
  }

  /** A fitting prefix of the list never costs any of its entries. */
  lemma TrimKeepsFitting<K, V>(p: Policy, s: seq<Entry<K, V>>, r: seq<Entry<K, V>>)
    requires r <= s && Fits(p, r)
    ensures r <= Trim(p, s)
  {
    TrimIsLongest(p, s);
    assert s[..|r|] == r;
  }

  /** In numbers: `kept` is what a cache of at most `cap` entries and, if `bytesCap` is positive, at
      most so many bytes keeps of `all`. The first entry always stays; beyond it both bounds hold; and
      to keep any more would break one of them. */
  ghost predicate BoundedTo<K, V>(cap: nat, bytesCap: int, all: seq<Entry<K, V>>, kept: seq<Entry<K, V>>) {
    && kept <= all && (all != [] ==> kept != [])
    && (|kept| > 1 ==> |kept| <= cap && (bytesCap > 0 ==> Bytes(kept) <= bytesCap))
    && forall n :: |kept| < n <= |all| ==> Exceeds(cap, bytesCap, all[..n])
  }

  ghost predicate Exceeds<K, V>(cap: nat, bytesCap: int, s: seq<Entry<K, V>>) {
    |s| > cap || (bytesCap > 0 && Bytes(s) > bytesCap)
  }

  lemma TrimIsBounded<K, V>(cap: nat, bytesCap: int, s: seq<Entry<K, V>>)
    ensures BoundedTo(cap, bytesCap, s, Trim(Counted(cap, bytesCap), s))
  {
    var p, r := Counted(cap, bytesCap), Trim(Counted(cap, bytesCap), s);
    TrimIsLongest(p, s);
    if s != [] {
      TrimKeepsFitting(p, s, s[..1]);
      assert r != [];
    }
    forall n | |r| < n <= |s|
      ensures Exceeds(cap, bytesCap, s[..n])
    {
      assert !Fits(p, s[..n]);
    }
  }

  /** The same of a cache with a byte budget alone. */
  ghost predicate WithinBytes<K, V>(bytesCap: int, all: seq<Entry<K, V>>, kept: seq<Entry<K, V>>) {
    && kept <= all && Bytes(kept) <= bytesCap
    && forall n :: |kept| < n <= |all| ==> Bytes(all[..n]) > bytesCap
  }

  lemma TrimIsWithinBytes<K, V>(bytesCap: nat, ceiling: int, s: seq<Entry<K, V>>)
    ensures WithinBytes(bytesCap, s, Trim(Budgeted(bytesCap, ceiling), s))
  {
    var p, r := Budgeted(bytesCap, ceiling), Trim(Budgeted(bytesCap, ceiling), s);
    TrimIsLongest(p, s);
    forall n | |r| < n <= |s|
      ensures Bytes(s[..n]) > bytesCap
    {
      assert !Fits(p, s[..n]);
    }
  }

  /** When the whole list is within the bounds, nothing goes. */
  lemma BoundedKeepsAll<K, V>(cap: nat, bytesCap: int, all: seq<Entry<K, V>>, kept: seq<Entry<K, V>>)
    requires BoundedTo(cap, bytesCap, all, kept)
    requires |all| <= cap && (bytesCap > 0 ==> Bytes(all) <= bytesCap)
    ensures kept == all
  {
    assert all[..|all|] == all;
  }

  /** The per-blob ceiling plays no part in eviction. */
  lemma {:induction false} CeilingDoesNotEvict<K, V>(bytesCap: int, c: int, c': int, s: seq<Entry<K, V>>)
    ensures Trim(Budgeted(bytesCap, c), s) == Trim(Budgeted(bytesCap, c'), s)
    decreases |s|
  {
    if s != [] {
      CeilingDoesNotEvict(bytesCap, c, c', s[..|s| - 1]);
    }
  }

  /** An admitted entry is at the front afterwards: a manifest however large, a blob within budget. */
  lemma InsertRetains<K, V>(p: Policy, s: seq<Entry<K, V>>, e: Entry<K, V>)
    requires Admits(p, e)
    ensures Insert(p, s, e) != [] && Insert(p, s, e)[0] == e
  {
    var all := [e] + Without(s, e.key);
    assert [e] <= all;
    assert [e][..0] == [];
    assert Bytes([e]) == e.size;
    TrimKeepsFitting(p, all, [e]);
  }

  // ----- What every operation keeps -----

  /** Where the entries of a list without a key come from. */
  function Shifted(i: nat, j: nat): nat {
    if j < i then j else j + 1
  }

  lemma RemovedAt<T>(s: seq<T>, i: nat)
    requires i < |s|
    ensures forall j :: 0 <= j < |s| - 1 ==> (s[..i] + s[i + 1..])[j] == s[Shifted(i, j)]
  {
  }

  lemma WithoutAt<K, V>(s: seq<Entry<K, V>>, k: K)
    requires Has(s, k)
    ensures |Without(s, k)| == |s| - 1
    ensures forall j :: 0 <= j < |s| - 1 ==> Without(s, k)[j] == s[Shifted(IndexOf(s, k), j)]
  {
    RemovedAt(s, IndexOf(s, k));
  }

  lemma WithoutDropsKey<K, V>(s: seq<Entry<K, V>>, k: K)
    requires Distinct(s)
    ensures Distinct(Without(s, k)) && !Has(Without(s, k), k)
  {
    if Has(s, k) {
      WithoutAt(s, k);
    }
  }

  lemma HasAt<K, V>(s: seq<Entry<K, V>>, j: nat)
    requires j < |s|
    ensures Has(s, s[j].key)
  {
  }

  lemma WithoutKeepsAt<K, V>(s: seq<Entry<K, V>>, k: K, j: nat)
    requires Has(s, k) && j < |s| && s[j].key != k
    ensures Has(Without(s, k), s[j].key)
  {
    WithoutAt(s, k);
    HasAt(Without(s, k), if j < IndexOf(s, k) then j else j - 1);
  }

  lemma WithoutKeepsOther<K, V>(s: seq<Entry<K, V>>, k: K, x: K)
    requires x != k
    ensures Has(Without(s, k), x) <==> Has(s, x)
  {
    if Has(s, k) {
      WithoutAt(s, k);
      if j: nat :| j < |s| && s[j].key == x {
        WithoutKeepsAt(s, k, j);
      }
      if j: nat :| j < |Without(s, k)| && Without(s, k)[j].key == x {
        HasAt(s, Shifted(IndexOf(s, k), j));
      }
    }
  }

  lemma FrontHas<K, V>(e: Entry<K, V>, s: seq<Entry<K, V>>, x: K)
    ensures Has([e] + s, x) <==> x == e.key || Has(s, x)
  {
    var all := [e] + s;
    HasAt(all, 0);
    if j: nat :| j < |s| && s[j].key == x {
      assert all[j + 1] == s[j];
      HasAt(all, j + 1);
    }
    if j: nat :| j < |all| && all[j].key == x && j > 0 {
      HasAt(s, j - 1);
    }
  }

  /** Touching neither loses nor gains a key. */
  lemma TouchHas<K, V>(s: seq<Entry<K, V>>, k: K, x: K)
    requires Has(s, k)
    ensures Has(Touch(s, k), x) <==> Has(s, x)
  {
    FrontHas(At(s, k), Without(s, k), x);
    if x != k {
      WithoutKeepsOther(s, k, x);
    }
  }

  lemma WithoutIsPart<K, V>(s: seq<Entry<K, V>>, k: K)
    ensures forall i :: 0 <= i < |Without(s, k)| ==> Without(s, k)[i] in s
  {
    if Has(s, k) {
      WithoutAt(s, k);
    }
  }

  lemma WithoutIsDistinct<K, V>(s: seq<Entry<K, V>>, k: K)
    requires Distinct(s)
    ensures Distinct(Without(s, k)) && !Has(Without(s, k), k)
    ensures forall x :: x != k ==> (Has(Without(s, k), x) <==> Has(s, x))
    ensures forall i :: 0 <= i < |Without(s, k)| ==> Without(s, k)[i] in s
  {
    WithoutDropsKey(s, k);
    WithoutIsPart(s, k);
    forall x | x != k
      ensures Has(Without(s, k), x) <==> Has(s, x)
    {
      WithoutKeepsOther(s, k, x);
    }
  }

  lemma TouchKeeps<K, V>(p: Policy, s: seq<Entry<K, V>>, k: K)
    requires Distinct(s) && Fits(p, s) && Has(s, k)
    ensures Distinct(Touch(s, k)) && Fits(p, Touch(s, k))
    ensures forall x :: Has(Touch(s, k), x) <==> Has(s, x)
    ensures forall i :: 0 <= i < |s| ==> Touch(s, k)[i] in s
  {
    WithoutIsDistinct(s, k);
    TouchKeepsBytes(s, k);
    var t := Touch(s, k);
    assert t[0].key == k;
    assert t[1..] == Without(s, k);
    assert forall i :: 0 < i < |t| ==> t[i] == Without(s, k)[i - 1];
    forall x | Has(s, x)
      ensures Has(t, x)
    {
      if x != k {
        var j :| 0 <= j < |Without(s, k)| && Without(s, k)[j].key == x;
        assert t[j + 1].key == x;
      }
    }
  }

  lemma InsertKeeps<K, V>(p: Policy, s: seq<Entry<K, V>>, e: Entry<K, V>)
    requires Distinct(s) && Admits(p, e)
    ensures Distinct(Insert(p, s, e)) && Fits(p, Insert(p, s, e))
    ensures forall i :: 0 <= i < |Insert(p, s, e)| ==> Insert(p, s, e)[i] == e || Insert(p, s, e)[i] in s
  {
    WithoutIsDistinct(s, e.key);
    var all := [e] + Without(s, e.key);
    TrimIsLongest(p, all);
    InsertRetains(p, s, e);
    assert forall i :: 0 < i < |all| ==> all[i] == Without(s, e.key)[i - 1];
  }

  // ----- The bag of cached keys -----

  ghost function KeyBag<K, V>(s: seq<Entry<K, V>>): multiset<K> {
    if s == [] then multiset{} else KeyBag(s[..|s| - 1]) + multiset{s[|s| - 1].key}
  }

  lemma {:induction false} KeyBagAppend<K, V>(a: seq<Entry<K, V>>, b: seq<Entry<K, V>>)
    ensures KeyBag(a + b) == KeyBag(a) + KeyBag(b)
    decreases |b|
  {
    if b == [] {
      assert a + b == a;
    } else {
      assert (a + b)[..|a + b| - 1] == a + b[..|b| - 1];
      KeyBagAppend(a, b[..|b| - 1]);
    }
  }

  lemma KeyBagFront<K, V>(e: Entry<K, V>, s: seq<Entry<K, V>>)
    ensures KeyBag([e] + s) == multiset{e.key} + KeyBag(s)
  {
    KeyBagAppend([e], s);
    assert [e][..0] == [];
  }

  lemma KeyBagBack<K, V>(s: seq<Entry<K, V>>, e: Entry<K, V>)
    ensures KeyBag(s + [e]) == KeyBag(s) + multiset{e.key}
  {
    assert (s + [e])[..|s|] == s;
  }

  lemma {:induction false} KeyBagRemove<K, V>(s: seq<Entry<K, V>>, i: nat)
    requires i < |s|
    ensures KeyBag(s[..i] + s[i + 1..]) + multiset{s[i].key} == KeyBag(s)
  {
    var a, e, b := s[..i], s[i], s[i + 1..];
    assert s == a + [e] + b;
    KeyBagAppend(a + [e], b);
    KeyBagBack(a, e);
    KeyBagAppend(a, b);
  }

  lemma TouchKeepsKeyBag<K, V>(s: seq<Entry<K, V>>, k: K)
    requires Has(s, k)
    ensures KeyBag(Touch(s, k)) == KeyBag(s)
  {
    KeyBagRemove(s, IndexOf(s, k));
    KeyBagFront(At(s, k), Without(s, k));
  }

  lemma {:induction false} KeyBagCounts<K, V>(s: seq<Entry<K, V>>, k: K)
    requires Distinct(s)
    ensures KeyBag(s)[k] == if Has(s, k) then 1 else 0
    decreases |s|
  {
    if s != [] {
      var t := s[..|s| - 1];
      KeyBagCounts(t, k);
      assert forall i :: 0 <= i < |t| ==> t[i] == s[i];
      if s[|t|].key == k {
        assert !Has(t, k);
      } else if Has(s, k) {
        var i :| 0 <= i < |s| && s[i].key == k;
        assert t[i].key == k;
      }
    }
  }

  lemma {:induction false} KeyBagOfPrefix<K, V>(s: seq<Entry<K, V>>, n: nat)
    requires n <= |s|
    ensures KeyBag(s[..n]) <= KeyBag(s)
    decreases |s|
  {
    if n == |s| {
      assert s[..n] == s;
    } else {
      var before := s[..|s| - 1];
      KeyBagOfPrefix(before, n);
      assert before[..n] == s[..n];
    }
  }

  lemma KeyBagReplaced<K, V>(s: seq<Entry<K, V>>, e: Entry<K, V>)
    ensures KeyBag([e] + Without(s, e.key)) == if Has(s, e.key) then KeyBag(s) else multiset{e.key} + KeyBag(s)
  {
    KeyBagFront(e, Without(s, e.key));
    if Has(s, e.key) {
      KeyBagRemove(s, IndexOf(s, e.key));
    }
  }

  /** What is inserted or was there is now kept or evicted; a key that was there already is not there
      twice. */
  lemma InsertConservesKeys<K, V>(p: Policy, s: seq<Entry<K, V>>, e: Entry<K, V>)
    ensures var all, kept := KeyBag([e] + Without(s, e.key)), KeyBag(Insert(p, s, e));
            kept <= all && all == if Has(s, e.key) then KeyBag(s) else multiset{e.key} + KeyBag(s)
  {
    var all := [e] + Without(s, e.key);
    KeyBagReplaced(s, e);
    TrimIsLongest(p, all);
    var n := |Insert(p, s, e)|;
    assert Insert(p, s, e) == all[..n];
    KeyBagOfPrefix(all, n);
  }
}
