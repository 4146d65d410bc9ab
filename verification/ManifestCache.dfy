/** The bounded LRU of parsed manifests (internal/server/cache.go): a linked list, a map from keys to
    its elements, and a running byte count, refining the recency lists of module Lru. */
module ManifestCache {
  import opened Wrappers
  import opened Manifest
  import opened LinkedList
  import opened CacheIndex
  import Lru

  type Entry = Lru.Entry<string, Manifest>

  class ManifestCache {
    const cap: nat
    const bytesCap: nat  // 0 means no byte bound
    var bytes: int
    const ll: List<Entry>
    var idx: map<string, Element<Entry>>

    ghost function Policy(): Lru.Policy {
      Lru.Counted(cap, bytesCap)
    }

    /** The cached entries, most recently used first. */
    ghost function Contents(): seq<Entry>
      reads ll
    {
      ll.items
    }

    /** Map, list and byte count agree. */
    ghost predicate Consistent()
      reads this, ll, ll.repr
    {
      && cap >= 1
      && ll.Valid()
      && Indexes(idx, ll.elems, ll.items)
      && bytes == Lru.Bytes(ll.items)
    }

    ghost predicate Valid()
      reads this, ll, ll.repr
    {
      Consistent() && Lru.Fits(Policy(), Contents())
    }

    constructor (capacity: int, bytesCap: int)
      ensures Valid() && Contents() == [] && fresh(ll) && fresh(ll.repr)
      ensures Policy() == Lru.Counted(if capacity < 1 then 1 else capacity, if bytesCap < 0 then 0 else bytesCap)
    {
      this.cap := if capacity < 1 then 1 else capacity;
      this.bytesCap := if bytesCap < 0 then 0 else bytesCap;
      this.bytes := 0;
      this.ll := new List<Entry>();
      this.idx := map[];
    }

    /** Move the element of a cached key to the front. */
    method Promote(key: string) returns (el: Element<Entry>)
      requires Consistent() && key in idx
      modifies ll, ll.repr
      ensures Consistent() && Contents() == Lru.Touch(old(Contents()), key)
      ensures ll.elems != [] && el == ll.elems[0] && el.value == Contents()[0] && el.value.key == key
      ensures ll.repr == old(ll.repr)
    {
      LookupFinds(idx, ll.elems, ll.items, key);
      MovedStaysIndexed(idx, ll.elems, ll.items, key);
      Lru.TouchKeepsBytes(ll.items, key);
      el := idx[key];
      ll.MoveToFront(el, Lru.IndexOf(ll.items, key));
    }

    method Get(key: string) returns (r: Option<Manifest>)
      requires Valid()
      modifies this, ll, ll.repr
      ensures Valid() && ll.repr == old(ll.repr)
      ensures r == if Lru.Has(old(Contents()), key) then Some(Lru.At(old(Contents()), key).val) else None
      ensures Contents() == if r.Some? then Lru.Touch(old(Contents()), key) else old(Contents())
    {
      LookupFinds(idx, ll.elems, ll.items, key);
      if key in idx {
        IndexedIsDistinct(idx, ll.elems, ll.items);
        Lru.TouchKeeps(Policy(), ll.items, key);
        var el := Promote(key);
        r := Some(el.value.val);
      } else {
        r := None;
      }
    }

    /** Overwrite the front entry, keeping the byte count exact. */
    method Overwrite(el: Element<Entry>, e: Entry)
      requires Consistent() && ll.elems != [] && el == ll.elems[0] && e.key == ll.items[0].key
      modifies this, ll, ll.repr
      ensures Consistent() && ll.repr == old(ll.repr)
      ensures Contents() == [e] + old(Contents())[1..]
    {
      Lru.BytesReplaced(ll.items[0], e, ll.items);
      ReassignedStaysIndexed(idx, ll.elems, ll.items, e);
      var delta := e.size - el.value.size;
      ll.Assign(el, 0, e);
      bytes := bytes + delta;
    }

    /** Refresh the entry of a cached key. */
    method Refresh(key: string, m: Manifest)
      requires Consistent() && key in idx
      modifies this, ll, ll.repr
      ensures Consistent() && ll.repr == old(ll.repr)
      ensures Contents() == [Lru.Entry(key, m, m.approxBytes)] + Lru.Without(old(Contents()), key)
    {
      LookupFinds(idx, ll.elems, ll.items, key);
      ghost var rest := Lru.Without(ll.items, key);
      var el := Promote(key);
      assert ll.items[1..] == rest;
      Overwrite(el, Lru.Entry(key, m, m.approxBytes));
    }

    /** Put a new key in front. */
    method Push(key: string, m: Manifest)
      requires Consistent() && key !in idx
      modifies this, ll, ll.repr
      ensures Consistent() && fresh(ll.repr - old(ll.repr))
      ensures Contents() == [Lru.Entry(key, m, m.approxBytes)] + old(Contents())
    {
      ghost var items, elems := ll.items, ll.elems;
      var e := Lru.Entry(key, m, m.approxBytes);
      var el := ll.PushFront(e);
      PushedIsIndexed(idx, elems, items, el, e);
      Lru.BytesFront(e, items);
      idx := idx[key := el];
      bytes := bytes + e.size;
    }

    method Add(key: string, m: Manifest)
      requires Valid()
      modifies this, ll, ll.repr
      ensures Valid() && fresh(ll.repr - old(ll.repr))
      ensures Contents() == Lru.Insert(Policy(), old(Contents()), Lru.Entry(key, m, m.approxBytes))
      ensures 1 <= |Contents()| <= cap
      ensures Lru.BoundedTo(cap, bytesCap, [Lru.Entry(key, m, m.approxBytes)] + Lru.Without(old(Contents()), key),
                            Contents())
    {
      LookupFinds(idx, ll.elems, ll.items, key);
      if key in idx {
        Refresh(key, m);
      } else {
        Push(key, m);
      }
      EvictToBound();
    }

    method EvictToBound()
      requires Consistent()
      modifies this, ll, ll.repr
      ensures Valid() && ll.repr == old(ll.repr)
      ensures Contents() == Lru.Trim(Policy(), old(Contents()))
      ensures |Contents()| <= cap && Lru.BoundedTo(cap, bytesCap, old(Contents()), Contents())
    {
      Lru.TrimIsBounded(cap, bytesCap, ll.items);
      while ll.len > 1 && (ll.len > cap || (bytesCap > 0 && bytes > bytesCap))
        invariant Consistent() && ll.repr == old(ll.repr)
        invariant Lru.Trim(Policy(), Contents()) == Lru.Trim(Policy(), old(Contents()))
        decreases ll.len
      {
        Evict();
      }
    }

    method Evict()
      requires Consistent()
      modifies this, ll, ll.repr
      ensures Consistent() && ll.repr == old(ll.repr)
      ensures Contents() == if old(Contents()) == [] then [] else old(Contents())[..|old(Contents())| - 1]
    {
      var el := ll.Back();
      if el == null {
        return;
      }
      ghost var n := |ll.items| - 1;
      CutStaysIndexed(idx, ll.elems, ll.items, n);
      assert Cut(ll.items, n) == ll.items[..n];
      var e := el.value;
      ll.Remove(el, n);
      idx := idx - {e.key};
      bytes := bytes - e.size;
    }

    method Len() returns (n: nat)
      requires Valid()
      ensures n == |Contents()|
    {
      n := ll.len;
    }
  }
}
