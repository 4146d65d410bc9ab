/** The in-process blob cache and the store that wraps it (internal/blobstore/cache.go). */
module BlobCache {
  import opened Wrappers
  import opened Store
  import opened LinkedList
  import opened CacheIndex
  import Lru
  import StorageKeys

  type Entry = Lru.Entry<string, Body>

  const DEFAULT_MAX_CACHEABLE_BLOB_BYTES := 0x10_0000

  /** Entries are charged their true sizes. */
  ghost predicate Sized(items: seq<Entry>) {
    forall i :: 0 <= i < |items| ==> items[i].size == |items[i].val|
  }

  lemma SizedParts(items: seq<Entry>, i: nat)
    requires Sized(items) && i < |items|
    ensures Sized(Cut(items, i)) && Sized([items[i]] + Cut(items, i)) && Sized(items[..|items| - 1])
  {
  }

  lemma SizedFront(items: seq<Entry>, e: Entry)
    requires Sized(items) && items != [] && e.size == |e.val|
    ensures Sized([e] + items[1..])
  {
    var items' := [e] + items[1..];
    assert forall i :: 0 < i < |items'| ==> items'[i] == items[i];
  }

  class BlobCache {
    const bytesCap: int
    var bytes: int
    const ll: List<Entry>
    var idx: map<string, Element<Entry>>

    /** The cached entries, most recently used first. */
    ghost function Contents(): seq<Entry>
      reads ll
    {
      ll.items
    }

    /** Map, list and byte count agree; entries have their true sizes. */
    ghost predicate Consistent()
      reads this, ll, ll.repr
    {
      && ll.Valid()
      && Indexes(idx, ll.elems, ll.items)
      && bytes == Lru.Bytes(ll.items)
      && Sized(ll.items)
    }

    ghost predicate Valid()
      reads this, ll, ll.repr
    {
      Consistent() && (bytes <= bytesCap || ll.items == [])
    }

    constructor (bytesCap: int)
      ensures Valid() && Contents() == [] && fresh(ll) && fresh(ll.repr) && this.bytesCap == bytesCap
    {
      this.bytesCap := bytesCap;
      this.bytes := 0;
      this.ll := new List<Entry>();
      this.idx := map[];
    }

    /** Move the element of a cached key to the front. */
    method Promote(key: string) returns (el: Element<Entry>)
      requires Consistent() && key in idx
      modifies ll, ll.repr
      ensures Consistent() && Contents() == Lru.Touch(old(Contents()), key)
      ensures ll.elems != [] && el == ll.elems[0] && el.value == Contents()[0] && el.value.key == key
      ensures ll.repr == old(ll.repr)
    {
      LookupFinds(idx, ll.elems, ll.items, key);
      MovedStaysIndexed(idx, ll.elems, ll.items, key);
      Lru.TouchKeepsBytes(ll.items, key);
      SizedParts(ll.items, Lru.IndexOf(ll.items, key));
      el := idx[key];
      ll.MoveToFront(el, Lru.IndexOf(ll.items, key));
    }

    method Get(key: string) returns (r: Option<Body>)
      requires Valid()
      modifies this, ll, ll.repr
      ensures Valid() && ll.repr == old(ll.repr)
      ensures r == if Lru.Has(old(Contents()), key) then Some(Lru.At(old(Contents()), key).val) else None
      ensures Contents() == if r.Some? then Lru.Touch(old(Contents()), key) else old(Contents())
    {
      LookupFinds(idx, ll.elems, ll.items, key);
      if key in idx {
        var el := Promote(key);
        r := Some(el.value.val);
      } else {
        r := None;
      }
    }

    /** Overwrite the front entry, keeping the byte count exact. */
    method Overwrite(el: Element<Entry>, e: Entry)
      requires Consistent() && ll.elems != [] && el == ll.elems[0] && e.key == ll.items[0].key
      requires e.size == |e.val|
      modifies this, ll, ll.repr
      ensures Consistent() && ll.repr == old(ll.repr)
      ensures Contents() == [e] + old(Contents())[1..]
    {
      Lru.BytesReplaced(ll.items[0], e, ll.items);
      ReassignedStaysIndexed(idx, ll.elems, ll.items, e);
      SizedFront(ll.items, e);
      var delta := e.size - el.value.size;
      ll.Assign(el, 0, e);
      bytes := bytes + delta;
    }

    /** Refresh the entry of a cached key. */
    method Refresh(key: string, e: Entry)
      requires Consistent() && key in idx && e.key == key && e.size == |e.val|
      modifies this, ll, ll.repr
      ensures Consistent() && ll.repr == old(ll.repr)
      ensures Contents() == [e] + Lru.Without(old(Contents()), key)
    {
      LookupFinds(idx, ll.elems, ll.items, key);
      ghost var rest := Lru.Without(ll.items, key);
      var el := Promote(key);
      assert ll.items[1..] == rest;
      Overwrite(el, e);
    }

    /** Put a new key in front. */
    method Push(key: string, e: Entry)
      requires Consistent() && key !in idx && e.key == key && e.size == |e.val|
      modifies this, ll, ll.repr
      ensures Consistent() && fresh(ll.repr - old(ll.repr))
      ensures Contents() == [e] + old(Contents())
    {
      ghost var items, elems := ll.items, ll.elems;
      var el := ll.PushFront(e);
      PushedIsIndexed(idx, elems, items, el, e);
      Lru.BytesFront(e, items);
      idx := idx[key := el];
      bytes := bytes + e.size;
    }

    /** Put the key in front, whether it is new or already cached. */
    method Place(key: string, e: Entry)
      requires Consistent() && e.key == key && e.size == |e.val|
      modifies this, ll, ll.repr
      ensures Consistent() && fresh(ll.repr - old(ll.repr))
      ensures Contents() == [e] + Lru.Without(old(Contents()), key)
    {
      LookupFinds(idx, ll.elems, ll.items, key);
      if key in idx {
        Refresh(key, e);
      } else {
        Push(key, e);
      }
    }

    /** A blob above the whole budget is not retained; any other is put in front and the least
        recently used blobs go until the budget holds. The loop ends because the byte count is
        exact: an empty cache counts no bytes. */
    method Add(key: string, data: Body)
      requires Valid()
      modifies this, ll, ll.repr
      ensures Valid() && fresh(ll.repr - old(ll.repr))
      ensures Contents() ==
        Lru.Offer(Lru.Budgeted(bytesCap, |data|), old(Contents()), Lru.Entry(key, data, |data|))
      ensures |data| > bytesCap ==> Contents() == old(Contents())
      ensures |data| <= bytesCap ==>
        && Contents() != [] && Contents()[0] == Lru.Entry(key, data, |data|)
        && Lru.WithinBytes(bytesCap, [Lru.Entry(key, data, |data|)] + Lru.Without(old(Contents()), key), Contents())
    {
      if |data| > bytesCap {
        return;
      }
      Lru.TrimIsWithinBytes(bytesCap, |data|, [Lru.Entry(key, data, |data|)] + Lru.Without(ll.items, key));
      Lru.InsertRetains(Lru.Budgeted(bytesCap, |data|), ll.items, Lru.Entry(key, data, |data|));
      ghost var p := Lru.Budgeted(bytesCap, |data|);
      Place(key, Lru.Entry(key, data, |data|));
      label L:
      while bytes > bytesCap
        invariant Consistent() && fresh(ll.repr - old(ll.repr))
        invariant Lru.Trim(p, Contents()) == Lru.Trim(p, old@L(Contents()))
        decreases ll.len
      {
        Evict();
      }
    }

    method Evict()
      requires Consistent()
      modifies this, ll, ll.repr
      ensures Consistent() && ll.repr == old(ll.repr)
      ensures Contents() == if old(Contents()) == [] then [] else old(Contents())[..|old(Contents())| - 1]
      ensures old(Contents()) != [] ==> ll.len < old(ll.len)
    {
      var el := ll.Back();
      if el == null {
        return;
      }
      ghost var n := |ll.items| - 1;
      CutStaysIndexed(idx, ll.elems, ll.items, n);
      assert Cut(ll.items, n) == ll.items[..n];
      SizedParts(ll.items, n);
      var e := el.value;
      ll.Remove(el, n);
      idx := idx - {e.key};
      bytes := bytes - e.size;
    }

    method Len() returns (n: nat)
      requires Valid()
      ensures n == |Contents()|
    {
      n := ll.len;
    }
  }

  // ----- The caching store -----

  /** Size known and within the ceiling: the object is read whole into memory. */
  predicate Cacheable(ceiling: int, obj: Object) {
    obj.reported.Some? && 0 <= obj.reported.value <= ceiling
  }

  /** The answer to a miss: what `Get` returns when the backend yields `obj`. */
  function Delivered(ceiling: int, obj: Object): Result<Reader, ReadError> {
    if !Cacheable(ceiling, obj) then Ok(Reader(obj.body, obj.reported))
    else if |obj.body| < obj.reported.value then Err(ShortRead)
    else Ok(Reader(obj.body[..obj.reported.value], obj.reported))
  }

  /** The same when the backend may fail in the middle of the body, after `cut` bytes. */
  function Received(ceiling: int, obj: Object, cut: Option<nat>): Result<Reader, ReadError> {
    if Cacheable(ceiling, obj) && cut.Some? && cut.value < obj.reported.value && cut.value <= |obj.body|
    then Err(Backend)
    else Delivered(ceiling, obj)
  }

  /** What `CachingStore.Get` returns and leaves cached, given what the backend would answer. */
  ghost function GetSpec(p: Lru.Policy, s: seq<Entry>, key: string, answer: Result<Object, ReadError>, cut: Option<nat>)
    : (Result<Reader, ReadError>, seq<Entry>)
    requires p.Budgeted?
  {
    if !StorageKeys.IsBlobKey(key) then
      (if answer.Err? then Err(answer.error) else Ok(Reader(answer.value.body, answer.value.reported)), s)
    else if Lru.Has(s, key) then
      var data := Lru.At(s, key).val;
      (Ok(Reader(data, Some(|data|))), Lru.Touch(s, key))
    else if answer.Err? then (Err(answer.error), s)
    else
      var r := Received(p.ceiling, answer.value, cut);
      (r, if Cacheable(p.ceiling, answer.value) && r.Ok?
          then Lru.Offer(p, s, Lru.Entry(key, r.value.body, |r.value.body|)) else s)
  }

  /** `io.ReadFull` into a buffer: short when the body ends first, and the backend's error when it
      comes first. */
  method ReadFull(body: Body, cut: Option<nat>, data: array<byte>) returns (err: Option<ReadError>)
    modifies data
    ensures err.None? <==> data.Length <= |body| && (cut.Some? ==> data.Length <= cut.value)
    ensures err == Some(Backend) <==> cut.Some? && cut.value < data.Length && cut.value <= |body|
    ensures err.Some? ==> err.value == Backend || err.value == ShortRead
    ensures err.None? ==> data[..] == body[..data.Length]
  {
    var n := 0;
    while n < data.Length
      invariant n <= data.Length && n <= |body| && (cut.Some? ==> n <= cut.value)
      invariant data[..n] == body[..n]
    {
      if cut == Some(n) {
        return Some(Backend);
      }
      if n == |body| {
        return Some(ShortRead);
      }
      data[n] := body[n];
      n := n + 1;
    }
    err := None;
  }

  class CachingStore {
    const cache: BlobCache
    const maxBlobBytes: int

    ghost function Policy(): Lru.Policy {
      Lru.Budgeted(cache.bytesCap, maxBlobBytes)
    }

    ghost predicate Valid()
      reads this, cache, cache.ll, cache.ll.repr
    {
      cache.Valid() && cache.bytesCap > 0 && maxBlobBytes > 0
    }

    constructor (totalBytes: int, maxBlobBytes: int)
      requires totalBytes > 0
      ensures Valid() && cache.Contents() == [] && fresh(cache) && fresh(cache.ll) && fresh(cache.ll.repr)
      ensures Policy() == Lru.Budgeted(totalBytes,
                                       if maxBlobBytes <= 0 then DEFAULT_MAX_CACHEABLE_BLOB_BYTES else maxBlobBytes)
    {
      this.cache := new BlobCache(totalBytes);
      this.maxBlobBytes := if maxBlobBytes <= 0 then DEFAULT_MAX_CACHEABLE_BLOB_BYTES else maxBlobBytes;
    }

    /** `answer` is what the backend answers if it is asked, and `cut` where it fails while the body
        is read; `asked` says whether it was. */
    method Get(key: string, answer: Result<Object, ReadError>, cut: Option<nat>)
      returns (r: Result<Reader, ReadError>, asked: bool)
      requires Valid()
      modifies cache, cache.ll, cache.ll.repr
      ensures Valid() && fresh(cache.ll.repr - old(cache.ll.repr))
      ensures (r, cache.Contents()) == GetSpec(Policy(), old(cache.Contents()), key, answer, cut)
      ensures asked <==> !(StorageKeys.IsBlobKey(key) && Lru.Has(old(cache.Contents()), key))
    {
      asked := true;
      if !StorageKeys.IsBlobKey(key) {
        r := if answer.Err? then Err(answer.error) else Ok(Reader(answer.value.body, answer.value.reported));
        return;
      }
      var hit := cache.Get(key);
      if hit.Some? {
        return Ok(Reader(hit.value, Some(|hit.value|))), false;
      }
      if answer.Err? {
        return Err(answer.error), true;
      }
      r := Deliver(key, answer.value, cut);
    }

    /** What follows a successful backend read. */
    method Deliver(key: string, obj: Object, cut: Option<nat>) returns (r: Result<Reader, ReadError>)
      requires Valid()
      modifies cache, cache.ll, cache.ll.repr
      ensures Valid() && fresh(cache.ll.repr - old(cache.ll.repr))
      ensures r == Received(maxBlobBytes, obj, cut)
      ensures cache.Contents() == if Cacheable(maxBlobBytes, obj) && r.Ok?
        then Lru.Offer(Policy(), old(cache.Contents()), Lru.Entry(key, r.value.body, |r.value.body|))
        else old(cache.Contents())
    {
      if obj.reported.None? {
        return Ok(Reader(obj.body, obj.reported));
      }
      var n := obj.reported.value;
      if n < 0 || n > maxBlobBytes {
        return Ok(Reader(obj.body, obj.reported));
      }
      var data := new byte[n];
      var err := ReadFull(obj.body, cut, data);
      if err.Some? {
        return Err(err.value);
      }
      Remember(key, data[..]);
      r := Ok(Reader(data[..], Some(n)));
    }

    /** Offer a body within the ceiling to the cache. */
    method Remember(key: string, body: Body)
      requires Valid() && |body| <= maxBlobBytes
      modifies cache, cache.ll, cache.ll.repr
      ensures Valid() && fresh(cache.ll.repr - old(cache.ll.repr))
      ensures cache.Contents() == Lru.Offer(Policy(), old(cache.Contents()), Lru.Entry(key, body, |body|))
    {
      Lru.CeilingDoesNotEvict(cache.bytesCap, |body|, maxBlobBytes,
                              [Lru.Entry(key, body, |body|)] + Lru.Without(cache.Contents(), key));
      cache.Add(key, body);
    }
  }

  /** `NewCachingStore`: a non-positive budget disables the cache altogether. */
  method NewCachingStore(totalBytes: int, maxBlobBytes: int) returns (store: CachingStore?)
    ensures store == null <==> totalBytes <= 0
    ensures store != null ==> fresh(store) && store.Valid() && store.cache.Contents() == []
    ensures store != null ==>
      store.Policy() == Lru.Budgeted(totalBytes, if maxBlobBytes <= 0 then 1048576 else maxBlobBytes)
  {
    if totalBytes <= 0 {
      return null;
    }
    store := new CachingStore(totalBytes, maxBlobBytes);
  }

  /** A miss hands out the stored bytes, unless the body is longer than its reported size, which
      goes undetected: that is the only way a delivered body can differ from the object's. */
  lemma DeliveryIsFaithfulIff(ceiling: int, obj: Object)
    ensures var r := Delivered(ceiling, obj);
            && (r.Err? <==> Cacheable(ceiling, obj) && |obj.body| < obj.reported.value)
            && (r.Ok? ==> (r.value.body == obj.body <==> !(Cacheable(ceiling, obj) && |obj.body| > obj.reported.value)))
  {
  }

  /** With honest sizes a miss never fails short, and delivers exactly the stored bytes and size. */
  lemma HonestDelivery(ceiling: int, obj: Object)
    requires obj.Honest()
    ensures Delivered(ceiling, obj) == Ok(Reader(obj.body, obj.reported))
  {
    assert obj.body[..|obj.body|] == obj.body;
  }
}
