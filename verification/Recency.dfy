/** The recency list of a history of uses, defined without any cache: each key once, with the entry it
    was last used with, the most recently used first. A cache that moves what it hits to the front, puts
    what it adds there, and evicts from the back, always holds a prefix of it; and the longest prefix
    within its bounds, as long as entries keep their sizes. */
module Recency {
  import opened Lru

  ghost function Except<K, V>(s: seq<Entry<K, V>>, k: K): seq<Entry<K, V>> {
    if s == [] then []
    else
      var last := s[|s| - 1];
      Except(s[..|s| - 1], k) + if last.key == k then [] else [last]
  }

  ghost function Recent<K, V>(uses: seq<Entry<K, V>>): seq<Entry<K, V>> {
    if uses == [] then []
    else
      var last := uses[|uses| - 1];
      [last] + Except(Recent(uses[..|uses| - 1]), last.key)
  }

  // ----- Leaving out a key -----

  lemma {:induction false} ExceptAbsent<K, V>(s: seq<Entry<K, V>>, k: K)
    requires !Has(s, k)
    ensures Except(s, k) == s
  {
    if s != [] {
      var t := s[..|s| - 1];
      assert forall i :: 0 <= i < |t| ==> t[i] == s[i];
      assert s[|t|].key != k;
      ExceptAbsent(t, k);
      assert s == t + [s[|t|]];
    }
  }

  lemma {:induction false} ExceptAppend<K, V>(a: seq<Entry<K, V>>, b: seq<Entry<K, V>>, k: K)
    ensures Except(a + b, k) == Except(a, k) + Except(b, k)
    decreases |b|
  {
    if b == [] {
      assert a + b == a;
    } else {
      assert (a + b)[..|a + b| - 1] == a + b[..|b| - 1];
      ExceptAppend(a, b[..|b| - 1], k);
    }
  }

  lemma ExceptBetween<K, V>(a: seq<Entry<K, V>>, e: Entry<K, V>, b: seq<Entry<K, V>>)
    requires !Has(a, e.key) && !Has(b, e.key)
    ensures Except(a + ([e] + b), e.key) == a + b
  {
    ExceptAppend(a, [e] + b, e.key);
    ExceptAppend([e], b, e.key);
    ExceptAbsent(a, e.key);
    ExceptAbsent(b, e.key);
    ExceptOne(e);
    assert [] + b == b;
  }

  lemma ExceptOne<K, V>(e: Entry<K, V>)
    ensures Except([e], e.key) == []
  {
    assert [e][..0] == [];
  }

  lemma NoneAround<K, V>(s: seq<Entry<K, V>>, i: nat)
    requires Distinct(s) && i < |s|
    ensures !Has(s[..i], s[i].key) && !Has(s[i + 1..], s[i].key)
  {
  }

  /** From a list that has every key once, it is taking out one entry. */
  lemma ExceptIsWithout<K, V>(s: seq<Entry<K, V>>, k: K)
    requires Distinct(s)
    ensures Except(s, k) == Without(s, k)
  {
    if Has(s, k) {
      var i := IndexOf(s, k);
      NoneAround(s, i);
      ExceptBetween(s[..i], s[i], s[i + 1..]);
      assert s == s[..i] + ([s[i]] + s[i + 1..]);
    } else {
      ExceptAbsent(s, k);
    }
  }

  lemma {:induction false} RecentIsDistinct<K, V>(uses: seq<Entry<K, V>>)
    ensures Distinct(Recent(uses))
  {
    if uses != [] {
      var before, last := Recent(uses[..|uses| - 1]), uses[|uses| - 1];
      RecentIsDistinct(uses[..|uses| - 1]);
      ExceptIsWithout(before, last.key);
      WithoutIsDistinct(before, last.key);
      FrontIsDistinct(last, Without(before, last.key));
    }
  }

  lemma FrontIsDistinct<K, V>(e: Entry<K, V>, s: seq<Entry<K, V>>)
    requires Distinct(s) && !Has(s, e.key)
    ensures Distinct([e] + s)
  {
    assert forall i :: 0 < i < |[e] + s| ==> ([e] + s)[i] == s[i - 1];
  }

  lemma {:induction false} ExceptIsPart<K, V>(s: seq<Entry<K, V>>, k: K, x: Entry<K, V>)
    requires x in Except(s, k)
    ensures x in s
  {
    if x !in (if s[|s| - 1].key == k then [] else [s[|s| - 1]]) {
      ExceptIsPart(s[..|s| - 1], k, x);
    }
  }

  /** Every recent entry was used. */
  lemma {:induction false} RecentWasUsed<K, V>(uses: seq<Entry<K, V>>, x: Entry<K, V>)
    requires x in Recent(uses)
    ensures x in uses
  {
    var before, last := uses[..|uses| - 1], uses[|uses| - 1];
    if x != last {
      ExceptIsPart(Recent(before), last.key, x);
      RecentWasUsed(before, x);
    }
  }

  lemma RecentAppends<K, V>(uses: seq<Entry<K, V>>, e: Entry<K, V>)
    ensures Recent(uses + [e]) == [e] + Without(Recent(uses), e.key)
  {
    assert (uses + [e])[..|uses|] == uses;
    RecentIsDistinct(uses);
    ExceptIsWithout(Recent(uses), e.key);
  }

  // ----- A cache and its history -----

  /** What the cache does with a use: a hit moves to the front, anything else is added there. */
  ghost predicate Follows<K, V>(p: Policy, cache: seq<Entry<K, V>>, e: Entry<K, V>, cache': seq<Entry<K, V>>) {
    if Has(cache, e.key) then e == At(cache, e.key) && cache' == Touch(cache, e.key)
    else cache' == Insert(p, cache, e)
  }

  lemma StaysPrefix<K, V>(p: Policy, cache: seq<Entry<K, V>>, recent: seq<Entry<K, V>>, e: Entry<K, V>,
                          cache': seq<Entry<K, V>>)
    requires cache <= recent && Follows(p, cache, e, cache')
    ensures cache' <= [e] + Without(recent, e.key)
  {
    if Has(cache, e.key) {
      IndexInPrefix(cache, recent, e.key);
      CutPrefix(cache, recent, IndexOf(cache, e.key));
    } else {
      WithoutKeepsPrefix(cache, recent, e.key);
      TrimIsLongest(p, [e] + cache);
    }
  }

  // ----- The longest prefix within bounds -----

  /** Reordering or lengthening a list that does not fit does not make it fit. */
  lemma TooMuchStaysTooMuch<K, V>(p: Policy, a: seq<Entry<K, V>>, b: seq<Entry<K, V>>)
    requires p.Counted? && !Fits(p, a) && |b| >= |a| && Bytes(b) >= Bytes(a)
    ensures !Fits(p, b)
  {
  }

  /** The first entries of the list with the key moved to the front, if they reach beyond the key. */
  lemma MovedPrefix<K, V>(s: seq<Entry<K, V>>, e: Entry<K, V>, n: nat)
    requires Has(s, e.key) && IndexOf(s, e.key) < n <= |s|
    ensures ([e] + Without(s, e.key))[..n] == [e] + Without(s[..n], e.key)
    ensures At(s, e.key).size == e.size ==> Bytes([e] + Without(s[..n], e.key)) == Bytes(s[..n])
  {
    var i := IndexOf(s, e.key);
    HasAt(s[..n], i);
    IndexInPrefix(s[..n], s, e.key);
    assert Without(s, e.key) == Without(s[..n], e.key) + s[n..];
    BytesRemove(s[..n], i);
    BytesFront(e, Without(s[..n], e.key));
  }

  lemma HitKeepsLongest<K, V>(p: Policy, cache: seq<Entry<K, V>>, recent: seq<Entry<K, V>>, k: K)
    requires p.Counted? && cache == Trim(p, recent) && Has(cache, k)
    ensures Has(recent, k) && Touch(cache, k) == Trim(p, [At(cache, k)] + Without(recent, k))
  {
    TrimIsLongest(p, recent);
    IndexInPrefix(cache, recent, k);
    var e, touched := At(cache, k), Touch(cache, k);
    var all := [e] + Without(recent, k);
    TouchKeepsBytes(cache, k);
    assert recent[..|cache|] == cache;
    MovedPrefix(recent, e, |cache|);
    assert touched == all[..|cache|];
    forall n | |touched| < n <= |all|
      ensures !Fits(p, all[..n])
    {
      MovedPrefix(recent, e, n);
      TooMuchStaysTooMuch(p, recent[..n], all[..n]);
    }
    LongestIsUnique(p, all, touched);
  }

  lemma AddKeepsLongest<K, V>(p: Policy, cache: seq<Entry<K, V>>, recent: seq<Entry<K, V>>, e: Entry<K, V>)
    requires p.Counted? && cache == Trim(p, recent) && !Has(cache, e.key)
    requires Has(recent, e.key) ==> At(recent, e.key).size == e.size
    ensures Insert(p, cache, e) == Trim(p, [e] + Without(recent, e.key))
  {
    TrimIsLongest(p, recent);
    var all, kept := [e] + Without(recent, e.key), Insert(p, cache, e);
    TrimIsLongest(p, [e] + cache);
    WithoutKeepsPrefix(cache, recent, e.key);
    forall n | |kept| < n <= |all|
      ensures !Fits(p, all[..n])
    {
      if n <= |cache| + 1 {
        assert all[..n] == ([e] + cache)[..n];
      } else {
        BeyondDoesNotFit(p, cache, recent, e, n);
      }
    }
    LongestIsUnique(p, all, kept);
  }

  lemma BeyondDoesNotFit<K, V>(p: Policy, cache: seq<Entry<K, V>>, recent: seq<Entry<K, V>>, e: Entry<K, V>, n: nat)
    requires p.Counted? && cache <= recent && forall m :: |cache| < m <= |recent| ==> !Fits(p, recent[..m])
    requires Has(recent, e.key) ==> At(recent, e.key).size == e.size
    requires |cache| + 1 < n <= |[e] + Without(recent, e.key)|
    ensures !Fits(p, ([e] + Without(recent, e.key))[..n])
  {
    if Has(recent, e.key) && IndexOf(recent, e.key) < n {
      MovedPrefix(recent, e, n);
      TooMuchStaysTooMuch(p, recent[..n], [e] + Without(recent[..n], e.key));
    } else {
      assert ([e] + Without(recent, e.key))[..n] == [e] + recent[..n - 1];
      BytesFront(e, recent[..n - 1]);
      TooMuchStaysTooMuch(p, recent[..n - 1], [e] + recent[..n - 1]);
    }
  }

  /** The use has the size the key was last used with. */
  ghost predicate KeepsSize<K, V>(recent: seq<Entry<K, V>>, e: Entry<K, V>) {
    Has(recent, e.key) ==> At(recent, e.key).size == e.size
  }

  /** The cache is the longest prefix within the bounds. */
  ghost predicate Longest<K, V>(p: Policy, recent: seq<Entry<K, V>>, cache: seq<Entry<K, V>>) {
    p.Counted? && BoundedTo(p.cap, p.bytesCap, recent, cache)
  }

  lemma LongestIsTrimmed<K, V>(p: Policy, recent: seq<Entry<K, V>>, cache: seq<Entry<K, V>>)
    requires p.Counted?
    ensures Longest(p, recent, cache) <==> cache == Trim(p, recent)
  {
    TrimIsBounded(p.cap, p.bytesCap, recent);
    if Longest(p, recent, cache) {
      BoundedFits(p, recent, cache);
      LongestIsUnique(p, recent, cache);
    }
  }

  lemma BoundedFits<K, V>(p: Policy, all: seq<Entry<K, V>>, kept: seq<Entry<K, V>>)
    requires p.Counted? && BoundedTo(p.cap, p.bytesCap, all, kept)
    ensures kept == [] || Fits(p, kept)
    ensures forall n :: |kept| < n <= |all| ==> !Fits(p, all[..n])
  {
    forall n | |kept| < n <= |all|
      ensures !Fits(p, all[..n])
    {
      assert Exceeds(p.cap, p.bytesCap, all[..n]);
    }
  }

  lemma StaysLongest<K, V>(p: Policy, cache: seq<Entry<K, V>>, recent: seq<Entry<K, V>>, e: Entry<K, V>,
                           cache': seq<Entry<K, V>>)
    requires Longest(p, recent, cache) && Follows(p, cache, e, cache') && KeepsSize(recent, e)
    ensures Longest(p, [e] + Without(recent, e.key), cache')
  {
    LongestIsTrimmed(p, recent, cache);
    LongestIsTrimmed(p, [e] + Without(recent, e.key), cache');
    if Has(cache, e.key) {
      HitKeepsLongest(p, cache, recent, e.key);
    } else {
      AddKeepsLongest(p, cache, recent, e);
    }
  }
}
