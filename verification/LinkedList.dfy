/** The doubly linked list both caches keep their entries in: Go's `container/list`, a ring of
    elements closed by a sentinel, with the operations the caches use. */
module LinkedList {

  class Element<T(0)> {
    var prev: Element?<T>
    var next: Element?<T>
    var value: T

    constructor (value: T)
      ensures this.value == value && prev == null && next == null
    {
      this.value := value;
      prev, next := null, null;
    }

    constructor Sentinel()
      ensures prev == this && next == this
    {
      value := *;
      prev, next := this, this;
    }
  }

  /** `s` without its element at position `i`. */
  ghost function Cut<T>(s: seq<T>, i: nat): (r: seq<T>)
    requires i < |s|
    ensures |r| == |s| - 1 && forall j :: 0 <= j < |r| ==> r[j] == s[if j < i then j else j + 1]
  {
    s[..i] + s[i + 1..]
  }

  lemma CutLeavesNone<T>(s: seq<T>, i: nat)
    requires i < |s| && forall a, b :: 0 <= a < b < |s| ==> s[a] != s[b]
    ensures s[i] !in Cut(s, i)
  {
  }

  lemma CutFirst<T>(s: seq<T>)
    requires s != []
    ensures s == [s[0]] + Cut(s, 0)
  {
  }

  class List<T(0)> {
    const root: Element<T>
    var len: nat
    ghost var elems: seq<Element<T>>  // from front to back, without the sentinel
    ghost var items: seq<T>           // their values
    ghost var repr: set<Element<T>>   // the sentinel and every element ever listed

    /** Element `i` of the ring; the sentinel stands before the front and after the back. */
    ghost function At(i: int): Element<T>
      requires -1 <= i <= |elems|
      reads this
    {
      if i == -1 || i == |elems| then root else elems[i]
    }

    /** Elements `i - 1` and `i` of the ring are linked both ways. */
    ghost predicate Linked(i: int)
      requires 0 <= i <= |elems|
      reads this, repr
    {
      && At(i - 1) in repr && At(i) in repr
      && At(i - 1).next == At(i) && At(i).prev == At(i - 1)
    }

    ghost predicate Valid()
      reads this, repr
    {
      && |elems| == |items| == len
      && root in repr && root !in elems
      && (forall i :: 0 <= i < |elems| ==> elems[i] in repr)
      && (forall i, j :: 0 <= i < j < |elems| ==> elems[i] != elems[j])
      && (forall i :: 0 <= i <= |elems| ==> Linked(i))
      && (forall i :: 0 <= i < |items| ==> items[i] == elems[i].value)
    }

    constructor ()
      ensures Valid() && items == [] && fresh(repr)
    {
      root := new Element<T>.Sentinel();
      len := 0;
      items, elems := [], [];
      new;
      repr := {root};
    }

    /** Splice `e` in between the sentinel and the front. */
    method LinkFront(e: Element<T>)
      requires Valid() && e !in elems && e != root
      modifies this, e`prev, e`next, repr
      ensures Valid() && elems == [e] + old(elems) && items == [e.value] + old(items)
      ensures repr == old(repr) + {e} && forall x :: x in repr ==> x.value == old(x.value)
    {
      assert Linked(0);
      var front := root.next;
      e.prev := root;
      e.next := front;
      front.prev := e;
      root.next := e;
      len := len + 1;
      ghost var was := elems;
      elems := [e] + elems;
      items := [e.value] + items;
      repr := repr + {e};
      forall j | 0 <= j <= |elems|
        ensures Linked(j)
      {
        if j > 1 {
          assert old(Linked(j - 1));
        }
      }
    }

    /** Take the element at position `i` out of the list. */
    method Unlink(e: Element<T>, ghost i: nat)
      requires Valid() && i < |elems| && elems[i] == e
      modifies this, repr
      ensures Valid() && elems == Cut(old(elems), i) && items == Cut(old(items), i)
      ensures repr == old(repr) && forall x :: x in repr ==> x.value == old(x.value)
    {
      assert Linked(i) && Linked(i + 1);
      e.prev.next := e.next;
      e.next.prev := e.prev;
      len := len - 1;
      elems := Cut(elems, i);
      items := Cut(items, i);
      forall j | 0 <= j <= |elems|
        ensures Linked(j)
      {
        if j < i {
          assert old(Linked(j));
        } else if j > i {
          assert old(Linked(j + 1));
        }
      }
    }

    /** Store a new value in the element at position `i`. */
    method Assign(e: Element<T>, ghost i: nat, v: T)
      requires Valid() && i < |elems| && elems[i] == e
      modifies this`items, e`value
      ensures Valid() && items == old(items)[i := v]
    {
      e.value := v;
      items := items[i := v];
      forall j | 0 <= j <= |elems|
        ensures Linked(j)
      {
        assert old(Linked(j));
      }
    }

    method PushFront(v: T) returns (e: Element<T>)
      requires Valid()
      modifies this, repr
      ensures Valid() && elems == [e] + old(elems) && items == [v] + old(items)
      ensures fresh(e) && repr == old(repr) + {e}
    {
      e := new Element<T>(v);
      LinkFront(e);
    }

    method Remove(e: Element<T>, ghost i: nat)
      requires Valid() && i < |elems| && elems[i] == e
      modifies this, repr
      ensures Valid() && elems == Cut(old(elems), i) && items == Cut(old(items), i) && repr == old(repr)
    {
      Unlink(e, i);
      label L:
      e.next, e.prev := null, null;
      forall j | 0 <= j <= |elems|
        ensures Linked(j)
      {
        assert old@L(Linked(j)) && At(j) != e && At(j - 1) != e;
      }
    }

    lemma FrontIs(e: Element<T>, i: nat)
      requires Valid() && i < |elems| && elems[i] == e
      ensures root.next == e <==> i == 0
      ensures e in repr && e != root
    {
      assert Linked(0) && At(0) == elems[0];
    }

    method MoveToFront(e: Element<T>, ghost i: nat)
      requires Valid() && i < |elems| && elems[i] == e
      modifies this, repr
      ensures Valid() && repr == old(repr)
      ensures elems == [e] + Cut(old(elems), i) && items == [e.value] + Cut(old(items), i)
      ensures forall x :: x in repr ==> x.value == old(x.value)
    {
      FrontIs(e, i);
      if root.next == e {
        CutFirst(elems);
        CutFirst(items);
        return;
      }
      Relink(e, i);
    }

    /** Take an element out and put it back in front. */
    method Relink(e: Element<T>, ghost i: nat)
      requires Valid() && i < |elems| && elems[i] == e
      modifies this, repr
      ensures Valid() && repr == old(repr)
      ensures elems == [e] + Cut(old(elems), i) && items == [e.value] + Cut(old(items), i)
      ensures forall x :: x in repr ==> x.value == old(x.value)
    {
      CutLeavesNone(elems, i);
      Unlink(e, i);
      LinkFront(e);
    }

    /** The last element, or null. */
    method Back() returns (e: Element?<T>)
      requires Valid()
      ensures len == 0 ==> e == null
      ensures len > 0 ==> e == elems[len - 1] && e.value == items[len - 1]
    {
      assert Linked(len);
      e := if len == 0 then null else root.prev;
    }
  }
}
