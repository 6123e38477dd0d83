/**
 The kernel's singly linked list, used first in first out or sorted by a key.
 */
module Lists {
  import opened Options

  /** An item on a list, with its priority. */
  datatype Entry<T> = Entry(item: T, key: int)

  // ---- lists as sequences ----

  ghost predicate Sorted<T>(s: seq<Entry<T>>) {
    forall i, j :: 0 <= i < j < |s| ==> s[i].key <= s[j].key
  }

  /** The position of the first element with a greater key. */
  function Place<T>(s: seq<Entry<T>>, key: int): (p: nat)
    ensures p <= |s|
    ensures forall i :: 0 <= i < p ==> s[i].key <= key
    ensures p < |s| ==> key < s[p].key
  {
    if s == [] || key < s[0].key then 0 else 1 + Place(s[1..], key)
  }

  ghost function Inserted<T>(s: seq<Entry<T>>, e: Entry<T>): seq<Entry<T>> {
    Put(s, Place(s, e.key), e)
  }

  /** Insertion keeps a list sorted and puts the item behind every equal key. */
  lemma InsertedSorted<T>(s: seq<Entry<T>>, e: Entry<T>)
    requires Sorted(s)
    ensures Sorted(Inserted(s, e))
    ensures forall i :: 0 <= i < |s| && s[i].key <= e.key ==> i < Place(s, e.key)
  {
    var p, r := Place(s, e.key), Inserted(s, e);
    hide Put;
    forall i, j | 0 <= i < j < |r| ensures r[i].key <= r[j].key {
      PutAt(s, p, e, i);
      PutAt(s, p, e, j);
    }
  }

  /** Insertion adds the one element. */
  lemma InsertedElements<T>(s: seq<Entry<T>>, e: Entry<T>)
    ensures multiset(Inserted(s, e)) == multiset(s) + multiset{e}
  {
    var p := Place(s, e.key);
    assert s == s[..p] + s[p..];
  }

  /** The position of the first occurrence of an item, or the length. */
  function Index<T(==)>(s: seq<Entry<T>>, item: T): (p: nat)
    ensures p <= |s|
    ensures forall i :: 0 <= i < p ==> s[i].item != item
    ensures p < |s| ==> s[p].item == item
  {
    if s == [] || s[0].item == item then 0 else 1 + Index(s[1..], item)
  }

  function Without<T>(s: seq<Entry<T>>, p: nat): seq<Entry<T>>
    requires p < |s|
  {
    s[..p] + s[p + 1..]
  }

  /** Index is the only position with its two properties. */
  lemma IndexUnique<T>(s: seq<Entry<T>>, item: T, p: nat)
    requires p < |s| && s[p].item == item && forall i :: 0 <= i < p ==> s[i].item != item
    ensures Index(s, item) == p
  {
  }

  lemma PlaceUnique<T>(s: seq<Entry<T>>, key: int, p: nat)
    requires p <= |s| && (forall i :: 0 <= i < p ==> s[i].key <= key) && (p < |s| ==> key < s[p].key)
    ensures Place(s, key) == p
  {
  }

  // ---- lists in the heap ----

  class ListElement<T> {
    var next: ListElement?<T>
    var key: int
    var item: T

    constructor (itemPtr: T, sortKey: int)
      ensures item == itemPtr && key == sortKey && next == null
    {
      item, key, next := itemPtr, sortKey, null;
    }
  }

  /** The element at a position of a spine, and null past its end. */
  ghost function At<T>(spine: seq<ListElement<T>>, i: nat): ListElement?<T> {
    if i < |spine| then spine[i] else null
  }

  /** A sequence with `x` put behind its first `k` elements. */
  ghost function Put<E>(s: seq<E>, k: nat, x: E): (r: seq<E>)
    requires k <= |s|
    ensures |r| == |s| + 1
  {
    s[..k] + [x] + s[k..]
  }

  lemma PutAt<E>(s: seq<E>, k: nat, x: E, i: nat)
    requires k <= |s| && i <= |s|
    ensures Put(s, k, x)[i] == if i < k then s[i] else if i == k then x else s[i - 1]
  {
  }

  class List<T(==)> {
    var first: ListElement?<T>
    var last: ListElement?<T>
    ghost var spine: seq<ListElement<T>>   // the elements reachable from first, in order
    ghost var repr: set<ListElement<T>>   // elements that belong to the list

    ghost predicate Valid()
      reads this, spine
    {
      && (forall i :: 0 <= i < |spine| ==> spine[i] in repr)
      && (spine == [] ==> first == null && last == null)
      && (spine != [] ==> first == spine[0] && last == spine[|spine| - 1])
      && (forall i {:trigger spine[i].next} :: 0 <= i < |spine| ==> spine[i].next == At(spine, i + 1))
      && (forall i, j :: 0 <= i < j < |spine| ==> spine[i] != spine[j])
    }

    ghost function Contents(): (s: seq<Entry<T>>)
      reads this, spine
      ensures |s| == |spine|
    {
      seq(|spine|, i requires 0 <= i < |spine| reads this, spine => Entry(spine[i].item, spine[i].key))
    }

    constructor ()
      ensures Valid() && Contents() == [] && repr == {}
    {
      first, last, spine, repr := null, null, [], {};
    }

    method IsEmpty() returns (r: bool)
      requires Valid()
      ensures r <==> Contents() == []
    {
      return first == null;
    }

    method Append(item: T)
      requires Valid()
      modifies this, repr
      ensures Valid() && Contents() == old(Contents()) + [Entry(item, 0)]
      ensures fresh(repr - old(repr))
    {
      var element := new ListElement(item, 0);
      if first == null {
        first, last := element, element;
      } else {
        last.next := element;
        last := element;
      }
      Splice(|spine|, element);
    }

    method Prepend(item: T)
      requires Valid()
      modifies this, repr
      ensures Valid() && Contents() == [Entry(item, 0)] + old(Contents())
      ensures fresh(repr - old(repr))
    {
      InsertFirst(item, 0);
    }

    /** Takes the first element off, and reports its key. */
    method SortedRemove() returns (thing: Option<T>, key: int)
      requires Valid()
      modifies this
      ensures Valid()
      ensures old(Contents()) == [] ==> thing == None && Contents() == []
      ensures old(Contents()) != [] ==>
                && thing == Some(old(Contents())[0].item) && key == old(Contents())[0].key
                && Contents() == old(Contents())[1..]
      ensures repr == old(repr)
    {
      key := 0;
      if first == null {
        return None, key;
      }
      var element := first;
      thing := Some(first.item);
      if first == last {
        assert |spine| == 1;
        first, last := null, null;
      } else {
        first := element.next;
      }
      key := element.key;
      ghost var was := spine;
      spine := spine[1..];
      forall i | 0 <= i < |spine| ensures spine[i].next == At(spine, i + 1) {
        assert spine[i] == was[i + 1];
      }
    }

    method Remove() returns (thing: Option<T>)
      requires Valid()
      modifies this
      ensures Valid()
      ensures old(Contents()) == [] ==> thing == None && Contents() == []
      ensures old(Contents()) != [] ==> thing == Some(old(Contents())[0].item) && Contents() == old(Contents())[1..]
    {
      var key;
      thing, key := SortedRemove();
    }

    /** The pointers have a new element behind the first `k` of `was`. */
    ghost predicate Linked(was: seq<ListElement<T>>, k: nat, element: ListElement<T>)
      requires k <= |was|
      reads this, was, element
    {
      && element !in was
      && (forall i {:trigger was[i].next} :: 0 <= i < |was| ==>
            was[i].next == if i + 1 == k then element else At(was, i + 1))
      && element.next == At(was, k)
      && first == (if k == 0 then element else was[0]) && last == (if k == |was| then element else was[|was| - 1])
      && (forall i, j :: 0 <= i < j < |was| ==> was[i] != was[j])
    }

    /** Makes the spine follow the pointers to a new element. */
    ghost method Splice(k: nat, element: ListElement<T>)
      requires k <= |spine| && Linked(spine, k, element) && forall i :: 0 <= i < |spine| ==> spine[i] in repr
      modifies this`spine, this`repr
      ensures Valid() && spine == Put(old(spine), k, element) && repr == old(repr) + {element}
      ensures Contents() == Put(old(Contents()), k, Entry(element.item, element.key))
    {
      ghost var was, s := spine, Contents();
      assert forall i :: 0 <= i < |was| ==> s[i] == Entry(was[i].item, was[i].key);
      hide Put, Contents, Linked;
      spine := Put(was, k, element);
      repr := repr + {element};
      PutContents(was, s, k, element);
      SplicedValid(was, k, element);
    }

    /** Once the spine has followed the pointers, the list is in order again. */
    lemma SplicedValid(was: seq<ListElement<T>>, k: nat, element: ListElement<T>)
      requires k <= |was| && Linked(was, k, element) && spine == Put(was, k, element)
      requires element in repr && forall i :: 0 <= i < |was| ==> was[i] in repr
      ensures Valid()
    {
      hide Put;
      forall i | 0 <= i < |spine| ensures spine[i] in repr && spine[i].next == At(spine, i + 1) {
        PutLinks(was, k, element, i);
      }
      forall i, j | 0 <= i < j < |spine| ensures spine[i] != spine[j] {
        PutApart(was, k, element, i, j);
      }
      PutAt(was, k, element, 0);
      PutAt(was, k, element, |was|);
    }

    /** The element at position `i` of the new spine points to the next one. */
    lemma PutLinks(was: seq<ListElement<T>>, k: nat, element: ListElement<T>, i: nat)
      requires k <= |was| && i <= |was| && element.next == At(was, k)
      requires forall i {:trigger was[i].next} :: 0 <= i < |was| ==>
                 was[i].next == if i + 1 == k then element else At(was, i + 1)
      ensures var all := Put(was, k, element);
              all[i].next == At(all, i + 1) && (all[i] == element || all[i] in was)
    {
      hide Put;
      PutAt(was, k, element, i);
      if i < |was| {
        PutAt(was, k, element, i + 1);
      }
    }

    lemma PutApart(was: seq<ListElement<T>>, k: nat, element: ListElement<T>, i: nat, j: nat)
      requires k <= |was| && i < j <= |was| && element !in was
      requires forall i, j :: 0 <= i < j < |was| ==> was[i] != was[j]
      ensures Put(was, k, element)[i] != Put(was, k, element)[j]
    {
      hide Put;
      PutAt(was, k, element, i);
      PutAt(was, k, element, j);
    }

    lemma PutContents(was: seq<ListElement<T>>, s: seq<Entry<T>>, k: nat, element: ListElement<T>)
      requires k <= |was| == |s| && spine == Put(was, k, element)
      requires forall i :: 0 <= i < |was| ==> s[i] == Entry(was[i].item, was[i].key)
      ensures Contents() == Put(s, k, Entry(element.item, element.key))
    {
      hide Put;
      ghost var e := Entry(element.item, element.key);
      forall i | 0 <= i < |spine| ensures Contents()[i] == Put(s, k, e)[i] {
        PutAt(was, k, element, i);
        PutAt(s, k, e, i);
      }
    }

    /** The contents are those of the elements of the spine, whatever the pointers. */
    lemma SameContents(s: seq<Entry<T>>)
      requires |s| == |spine| && forall i :: 0 <= i < |s| ==> s[i] == Entry(spine[i].item, spine[i].key)
      ensures Contents() == s
    {
    }

    /** Looks for the last element before the first one with a greater key. */
    method FindPlace(sortKey: int) returns (ptr: ListElement<T>, ghost k: nat)
      requires Valid() && first != null && first.key <= sortKey
      ensures k < |spine| && ptr == spine[k] && Place(Contents(), sortKey) == k + 1
    {
      ptr := first;
      k := 0;
      ghost var s := Contents();
      while ptr.next != null && ptr.next.key <= sortKey
        invariant k < |spine| && ptr == spine[k] && forall i :: 0 <= i <= k ==> s[i].key <= sortKey
        decreases |spine| - k
      {
        ptr := ptr.next;
        k := k + 1;
      }
      PlaceUnique(s, sortKey, k + 1);
    }

    /** Inserts in front of the first element with a greater key. */
    method SortedInsert(item: T, sortKey: int)
      requires Valid()
      modifies this, repr
      ensures Valid() && Contents() == Inserted(old(Contents()), Entry(item, sortKey))
      ensures fresh(repr - old(repr))
    {
      hide Put, Place;
      if first == null || sortKey < first.key {
        PlaceUnique(Contents(), sortKey, 0);
        InsertFirst(item, sortKey);
      } else {
        InsertLater(item, sortKey);
      }
    }

    method InsertFirst(item: T, sortKey: int)
      requires Valid()
      modifies this, repr
      ensures Valid() && Contents() == Put(old(Contents()), 0, Entry(item, sortKey))
      ensures fresh(repr - old(repr))
    {
      var element := new ListElement(item, sortKey);
      if first == null {
        first, last := element, element;
      } else {
        element.next := first;
        first := element;
      }
      Splice(0, element);
    }

    method InsertLater(item: T, sortKey: int)
      requires Valid() && first != null && first.key <= sortKey
      modifies this, repr
      ensures Valid() && Contents() == Inserted(old(Contents()), Entry(item, sortKey))
      ensures fresh(repr - old(repr))
    {
      var ptr, k := FindPlace(sortKey);
      hide Place;
      InsertAfter(ptr, k, item, sortKey);
    }

    method InsertAfter(ptr: ListElement<T>, ghost k: nat, item: T, sortKey: int)
      requires Valid() && k < |spine| && ptr == spine[k]
      modifies this, repr
      ensures Valid() && Contents() == Put(old(Contents()), k + 1, Entry(item, sortKey))
      ensures fresh(repr - old(repr))
    {
      hide Put;
      ghost var s, was := Contents(), spine;
      var element := new ListElement(item, sortKey);
      LinkAfter(ptr, k, element);
      SameContents(s);
      Splice(k + 1, element);
    }

    method LinkAfter(ptr: ListElement<T>, ghost k: nat, element: ListElement<T>)
      requires Valid() && k < |spine| && ptr == spine[k] && element !in spine && element.next == null
      modifies this`last, spine`next, element`next
      ensures Linked(spine, k + 1, element)
    {
      ghost var was := spine;
      if ptr.next != null {
        element.next := ptr.next;
        ptr.next := element;
      } else {
        last.next := element;
        last := element;
      }
      forall i | 0 <= i < |was| ensures was[i].next == if i == k then element else At(was, i + 1) {
        assert i != k ==> was[i] != was[k];
      }
      assert last == if k + 1 == |was| then element else was[|was| - 1];
    }

    /** Unlinks the element at position `k`, once the pointers say so. */
    ghost method Unsplice(k: nat)
      requires k < |spine| && forall i :: 0 <= i < |spine| ==> spine[i] in repr
      requires forall i, j :: 0 <= i < j < |spine| ==> spine[i] != spine[j]
      requires forall i {:trigger spine[i].next} :: 0 <= i < |spine| && i != k ==>
               spine[i].next == if i + 1 == k then At(spine, k + 1) else At(spine, i + 1)
      requires first == if k == 0 then At(spine, 1) else spine[0]
      requires last == if k + 1 < |spine| then spine[|spine| - 1] else if k == 0 then null else spine[k - 1]
      modifies this`spine
      ensures Valid() && spine == old(spine)[..k] + old(spine)[k + 1..]
      ensures Contents() == Without(old(Contents()), k)
    {
      ghost var was, s := spine, Contents();
      spine := was[..k] + was[k + 1..];
      forall i | 0 <= i < |spine| ensures spine[i].next == At(spine, i + 1) && Contents()[i] == Without(s, k)[i] {
        assert spine[i] == was[if i < k then i else i + 1];
      }
    }

    /** Deletes the first occurrence of an item; 0 if there was one, -1 if not. */
    method RemoveItem(item: T) returns (r: int)
      requires Valid()
      modifies this, repr
      ensures repr == old(repr) && Valid() && r == (if Index(old(Contents()), item) < |old(Contents())| then 0 else -1)
      ensures Contents() == if r == 0 then Without(old(Contents()), Index(old(Contents()), item)) else old(Contents())
    {
      if first == null {
        return -1;
      }
      var element, prev, k := FindItem(item);
      if element == null {
        return -1;
      }
      Unlink(element, prev, k);
      return 0;
    }

    method Unlink(element: ListElement<T>, prev: ListElement?<T>, ghost k: nat)
      requires Valid() && k < |spine| && element == spine[k] && prev == if k == 0 then null else spine[k - 1]
      modifies this, repr
      ensures repr == old(repr) && Valid() && Contents() == Without(old(Contents()), k)
    {
      ghost var s := Contents();
      if first == last {
        first, last := null, null;
      } else if element == last {
        prev.next := null;
        last := prev;
      } else if element == first {
        first := element.next;
      } else {
        prev.next := element.next;
      }
      SameContents(s);
      Unsplice(k);
    }

    /** Walks to the first occurrence of an item, with the element before it. */
    method FindItem(item: T) returns (element: ListElement?<T>, prev: ListElement?<T>, ghost k: nat)
      requires Valid()
      ensures k == Index(Contents(), item) && element == At(spine, k)
      ensures prev == if k == 0 then null else spine[k - 1]
    {
      element, prev, k := first, null, 0;
      ghost var s := Contents();
      while element != null && element.item != item
        invariant k <= |spine| && element == At(spine, k) && prev == (if k == 0 then null else spine[k - 1])
        invariant forall i :: 0 <= i < k ==> s[i].item != item
        decreases |spine| - k
      {
        prev := element;
        element := element.next;
        k := k + 1;
      }
      if element != null {
        IndexUnique(s, item, k);
      }
    }
  }
}
