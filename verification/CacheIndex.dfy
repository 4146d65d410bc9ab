/** How a cache's key-to-element map and its list belong together: facts about an index, the list
    elements and the entries they hold, shared by both caches. */
module CacheIndex {
  import opened LinkedList
  import opened Lru

  type Node<V(0)> = Element<Entry<string, V>>

  /** The map leads from exactly the listed keys to their own elements. */
  ghost predicate Indexes<V(0)>(idx: map<string, Node<V>>, elems: seq<Node<V>>, items: seq<Entry<string, V>>) {
    && |elems| == |items|
    && (forall i, j :: 0 <= i < j < |elems| ==> elems[i] != elems[j])
    && (forall i :: 0 <= i < |items| ==> items[i].key in idx && idx[items[i].key] == elems[i])
    && (forall k :: k in idx ==> Has(items, k))
  }

  lemma IndexedIsDistinct<V(0)>(idx: map<string, Node<V>>, elems: seq<Node<V>>, items: seq<Entry<string, V>>)
    requires Indexes(idx, elems, items)
    ensures Distinct(items)
  {
  }

  lemma LookupFinds<V(0)>(idx: map<string, Node<V>>, elems: seq<Node<V>>, items: seq<Entry<string, V>>, k: string)
    requires Indexes(idx, elems, items)
    ensures k in idx <==> Has(items, k)
    ensures k in idx ==> elems[IndexOf(items, k)] == idx[k]
  {
  }

  /** Without the entry at position `i`, every other key is still listed. */
  lemma CutKeepsOthers<V(0)>(items: seq<Entry<string, V>>, i: nat, x: string)
    requires i < |items| && Has(items, x) && items[i].key != x
    ensures Has(Cut(items, i), x)
  {
    var j := IndexOf(items, x);
    assert Cut(items, i)[if j < i then j else j - 1].key == x;
  }

  lemma CutIsDistinct<T>(s: seq<T>, i: nat)
    requires i < |s| && forall a, b :: 0 <= a < b < |s| ==> s[a] != s[b]
    ensures forall a, b :: 0 <= a < b < |s| - 1 ==> Cut(s, i)[a] != Cut(s, i)[b]
    ensures s[i] !in Cut(s, i)
  {
  }

  lemma CutStaysIndexed<V(0)>(idx: map<string, Node<V>>, elems: seq<Node<V>>, items: seq<Entry<string, V>>, i: nat)
    requires Indexes(idx, elems, items) && i < |items|
    ensures Indexes(idx - {items[i].key}, Cut(elems, i), Cut(items, i))
  {
    IndexedIsDistinct(idx, elems, items);
    CutIsDistinct(elems, i);
    forall x | x in idx - {items[i].key}
      ensures Has(Cut(items, i), x)
    {
      CutKeepsOthers(items, i, x);
    }
  }

  lemma PushedIsIndexed<V(0)>(idx: map<string, Node<V>>, elems: seq<Node<V>>, items: seq<Entry<string, V>>,
                              e: Node<V>, entry: Entry<string, V>)
    requires Indexes(idx, elems, items) && entry.key !in idx && e !in elems
    ensures Indexes(idx[entry.key := e], [e] + elems, [entry] + items)
  {
    var items' := [entry] + items;
    forall x | x in idx[entry.key := e]
      ensures Has(items', x)
    {
      assert items'[if x == entry.key then 0 else IndexOf(items, x) + 1].key == x;
    }
  }

  lemma MovedStaysIndexed<V(0)>(idx: map<string, Node<V>>, elems: seq<Node<V>>, items: seq<Entry<string, V>>, k: string)
    requires Indexes(idx, elems, items) && k in idx
    ensures Indexes(idx, [idx[k]] + Cut(elems, IndexOf(items, k)), Touch(items, k))
    ensures Touch(items, k) == [At(items, k)] + Cut(items, IndexOf(items, k))
  {
    var i := IndexOf(items, k);
    CutStaysIndexed(idx, elems, items, i);
    CutIsDistinct(elems, i);
    PushedIsIndexed(idx - {k}, Cut(elems, i), Cut(items, i), idx[k], items[i]);
    assert (idx - {k})[k := idx[k]] == idx;
  }

  lemma ReassignedStaysIndexed<V(0)>(idx: map<string, Node<V>>, elems: seq<Node<V>>, items: seq<Entry<string, V>>,
                                     entry: Entry<string, V>)
    requires Indexes(idx, elems, items) && items != [] && items[0].key == entry.key
    ensures Indexes(idx, elems, [entry] + items[1..]) && items[0 := entry] == [entry] + items[1..]
  {
    var items' := items[0 := entry];
    assert items' == [entry] + items[1..];
    assert forall j :: 0 <= j < |items| ==> items'[j].key == items[j].key;
    forall x | x in idx
      ensures Has(items', x)
    {
      assert items'[IndexOf(items, x)].key == x;
    }
  }
}
