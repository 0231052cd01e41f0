/**
 * A singly-linked list whose nodes are heap objects updated in place.
 *
 * The logical contents are the values of the first `size` nodes reached from
 * `head` (the ghost `Spine`). Two behaviours of the original list are kept:
 * `RemoveLast` leaves the `next` link of the new tail on the node
 * it removed, so the node after the last spine node is unconstrained; and a
 * `RemoveFirst` that empties the list leaves `tail` on the removed node, so
 * `tail` is unconstrained while the list is empty.
 */
module LinkedLists {
  import opened Wrappers

  class Node<T> {
    var value: T
    var next: Node?<T>

    constructor (value: T)
      ensures this.value == value && next == null
    {
      this.value := value;
      next := null;
    }
  }

  class LinkedList<T> {
    var head: Node?<T>
    var tail: Node?<T>
    var size: int

    // public view: the items in order, and the nodes holding them
    ghost var Contents: seq<T>
    ghost var Spine: seq<Node<T>>
    ghost var Repr: set<object>

    /** Everything the list promises except where `tail` points. */
    ghost predicate Chain()
      reads this, Repr
    {
      this in Repr &&
      (forall n :: n in Spine ==> n in Repr) &&
      |Spine| == |Contents| == size &&
      (forall i :: 0 <= i < |Spine| ==> Spine[i].value == Contents[i]) &&
      (forall i :: 0 <= i < |Spine| - 1 ==> Spine[i].next == Spine[i + 1]) &&
      (forall i, j :: 0 <= i < j < |Spine| ==> Spine[i] != Spine[j]) &&
      (size == 0 ==> head == null) &&
      (size > 0 ==> head == Spine[0])
    }

    ghost predicate Valid()
      reads this, Repr
    {
      Chain() && (size > 0 ==> tail == Spine[size - 1])
    }

    /** The node the iteration reaches after the last item (stale after `RemoveLast`). */
    ghost function After(): (n: Node?<T>)
      reads this, Repr
      requires Valid()
      ensures size == 0 ==> n == null
    {
      if size == 0 then null else Spine[size - 1].next
    }

    constructor Empty()
      ensures Valid() && fresh(Repr)
      ensures Contents == [] && size == 0 && head == null && tail == null
    {
      head, tail, size := null, null, 0;
      Contents, Spine, Repr := [], [], {this};
    }

    constructor Singleton(item: T)
      ensures Valid() && fresh(Repr)
      ensures Contents == [item] && size == 1
      ensures head == tail && head != null && head.next == null
    {
      var n := new Node(item);
      head, tail, size := n, n, 1;
      Contents, Spine, Repr := [item], [n], {this, n};
    }

    method Size() returns (n: int)
      requires Valid()
      ensures n == |Contents|
    {
      n := size;
    }

    method IsEmpty() returns (b: bool)
      requires Valid()
      ensures b <==> Contents == []
    {
      b := size == 0;
    }

    method Add(item: T)
      requires Valid()
      modifies Repr
      ensures Valid() && fresh(Repr - old(Repr))
      ensures Contents == old(Contents) + [item] && size == old(size) + 1
      ensures tail != null && fresh(tail) && tail.value == item && tail.next == null
    {
      var n := new Node(item);
      if size == 0 {
        head := n;
        tail := head;
      } else {
        tail.next := n;
        tail := tail.next;
      }
      size := size + 1;
      Contents, Spine, Repr := Contents + [item], Spine + [n], Repr + {n};
    }

    method AddFirst(item: T)
      requires Valid()
      modifies this
      ensures Valid() && fresh(Repr - old(Repr))
      ensures Contents == [item] + old(Contents) && size == old(size) + 1
      ensures head != null && fresh(head) && head.value == item
      // on a non-empty list only `head` moves: the tail and whatever follows it stay
      ensures old(size) > 0 ==> tail == old(tail) && After() == old(After())
      // on an empty list the new node is both ends and has no successor
      ensures old(size) == 0 ==> head == tail && After() == null
    {
      if size == 0 {
        head := new Node(item);
        tail := head;
        Spine := [head];
      } else {
        var n := new Node(item);
        n.next := head;
        head := n;
        Spine := [n] + Spine;
      }
      size := size + 1;
      Contents, Repr := [item] + Contents, Repr + {head};
    }

    method AddLast(item: T)
      requires Valid()
      modifies Repr
      ensures Valid() && fresh(Repr - old(Repr))
      ensures Contents == old(Contents) + [item] && size == old(size) + 1
      ensures tail != null && fresh(tail) && tail.value == item && tail.next == null
    {
      Add(item);
    }

    method GetFirst() returns (r: Option<T>)
      requires Valid()
      ensures r == if Contents == [] then None else Some(Contents[0])
    {
      if head == null {
        return None;
      }
      return Some(head.value);
    }

    /** Needs only `Chain()`: `RemoveLast` calls it after clearing `tail`. */
    method RemoveFirst() returns (r: Option<T>)
      requires Chain()
      modifies this
      ensures Chain() && Repr == old(Repr) && tail == old(tail)
      ensures old(Contents) == [] ==> r == None && Contents == [] && size == 0
      ensures old(Contents) != [] ==>
        r == Some(old(Contents)[0]) && Contents == old(Contents)[1..] && size == old(size) - 1
      ensures old(Valid()) ==> Valid()
    {
      if head == null {
        return None;
      }
      var value := head.value;
      head := head.next;
      size := size - 1;
      if size == 0 {
        head := null;
      }
      Contents, Spine := Contents[1..], Spine[1..];
      return Some(value);
    }

    /** On an empty list this reports the stale `tail` a `RemoveFirst` left behind, if any. */
    method GetLast() returns (r: Option<T>)
      requires Valid()
      ensures Contents != [] ==> r == Some(Contents[|Contents| - 1])
      ensures Contents == [] ==> (r == None <==> tail == null)
      ensures Contents == [] && tail != null ==> r == Some(tail.value)
    {
      if tail == null {
        return None;
      }
      return Some(tail.value);
    }

    method RemoveLast() returns (r: Option<T>)
      requires Valid()
      modifies this
      ensures Valid() && Repr == old(Repr)
      ensures old(Contents) == [] ==> r == None && Contents == [] && tail == old(tail)
      ensures old(Contents) != [] ==>
        r == Some(old(Contents)[|old(Contents)| - 1]) &&
        Contents == old(Contents)[..|old(Contents)| - 1] && size == old(size) - 1
      ensures old(size) == 1 ==> head == null && tail == null
      // the new tail still links to the node that was removed
      ensures old(size) >= 2 ==> tail != null && tail.next == old(tail)
    {
      if tail == null || head == null {
        return None;
      }
      if size == 1 {
        tail := null;
        r := RemoveFirst();
        return;
      }
      var value := tail.value;
      var current := head;
      ghost var i := 0;
      while current.next != tail
        invariant 0 <= i <= size - 2
        invariant current == Spine[i]
        decreases size - 2 - i
      {
        current := current.next;
        i := i + 1;
      }
      assert Spine[i + 1] == Spine[size - 1];
      tail := current;
      size := size - 1;
      if size <= 1 {
        head := tail;
      }
      Contents, Spine := Contents[..size], Spine[..size];
      return Some(value);
    }

    method Iterator() returns (it: ListIterator<T>)
      requires Valid()
      ensures fresh(it) && it.Valid() && it.list == this && it.pos == 0
    {
      it := new ListIterator(this);
    }
  }

  /**
   * Walks the nodes from `head` until it meets `null`. The ghost `pos` counts
   * the items yielded; while `pos` is within the contents the cursor is the
   * spine node at `pos`, and at the end it is whatever follows the last node.
   */
  class ListIterator<T> {
    var cursor: Node?<T>
    ghost var list: LinkedList<T>
    ghost var pos: nat

    ghost predicate Valid()
      reads this, list, list.Repr
    {
      list.Valid() &&
      (pos < |list.Contents| ==> cursor == list.Spine[pos]) &&
      (pos == |list.Contents| ==> cursor == list.After())
    }

    constructor (list: LinkedList<T>)
      requires list.Valid()
      ensures Valid() && this.list == list && pos == 0 && cursor == list.head
    {
      this.list := list;
      cursor := list.head;
      pos := 0;
    }

    method HasNext() returns (b: bool)
      requires Valid()
      ensures b <==> cursor != null
      ensures pos < |list.Contents| ==> b
      ensures pos == |list.Contents| ==> (b <==> list.After() != null)
    {
      b := cursor != null;
    }

    /** `None` is the `NoSuchElementException` of an exhausted iterator. */
    method Next() returns (r: Option<T>)
      requires Valid()
      modifies this`cursor, this`pos
      ensures Valid()
      ensures old(pos) < |list.Contents| ==> r == Some(list.Contents[old(pos)]) && pos == old(pos) + 1
      ensures old(cursor) == null ==> r == None && cursor == null && pos == old(pos)
      ensures old(cursor) != null ==> r == Some(old(cursor).value) && cursor == old(cursor).next
    {
      if cursor != null {
        var value := cursor.value;
        cursor := cursor.next;
        pos := pos + 1;
        return Some(value);
      }
      return None;
    }
  }

  /**
   * The link `RemoveLast` leaves behind is still walked by an iterator:
   * after `[1, 2]`, `removeLast()` and `addFirst(0)`, iteration yields
   * 0, 1 and then the removed 2.
   */
  method StaleLinkIteration() returns (first: Option<int>, second: Option<int>, third: Option<int>)
    ensures first == Some(0) && second == Some(1) && third == Some(2)
  {
    var l := new LinkedList<int>.Singleton(1);
    l.Add(2);
    var removed := l.RemoveLast();
    l.AddFirst(0);
    var it := l.Iterator();
    first := it.Next();
    second := it.Next();
    third := it.Next();
  }

  /**
   * A list built by `addFirst` on an empty list holds no stale link: its
   * iterator yields the one item and then has nothing more, also when the
   * empty list was left behind by `removeFirst`.
   */
  method AddFirstIterationStops() returns (item: Option<int>, more: bool)
    ensures item == Some(2) && !more
  {
    var l := new LinkedList<int>.Singleton(1);
    var removed := l.RemoveFirst();
    l.AddFirst(2);
    var it := l.Iterator();
    item := it.Next();
    more := it.HasNext();
  }
}
