/**
  The singly linked list behind the hash table's chains and its key list
  (lib/prom/src/prom_linked_list.c).
  */
module LinkedLists {
  import opened Prelude

  /** `s` without its first element that `same` calls equal to `item`. */
  function RemoveFirst<T>(s: seq<T>, item: T, same: (T, T) -> bool): seq<T> {
    if s == [] then []
    else if same(s[0], item) then s[1..]
    else [s[0]] + RemoveFirst(s[1..], item, same)
  }

  function WithoutAt<T>(s: seq<T>, k: nat): (r: seq<T>)
    requires k < |s|
    ensures |r| == |s| - 1
    ensures forall i :: 0 <= i < |r| ==> r[i] == if i < k then s[i] else s[i + 1]
  {
    s[..k] + s[k + 1..]
  }

  /** Skipping a prefix without a match, `RemoveFirst` drops exactly the first match. */
  lemma {:induction false} RemoveFirstAt<T>(s: seq<T>, item: T, same: (T, T) -> bool, k: nat)
    requires k <= |s|
    requires forall i :: 0 <= i < k ==> !same(s[i], item)
    requires k < |s| ==> same(s[k], item)
    ensures RemoveFirst(s, item, same) == if k < |s| then WithoutAt(s, k) else s
  {
    if k > 0 {
      RemoveFirstAt(s[1..], item, same, k - 1);
      WithoutAtStep(s, k);
    } else if s != [] {
      assert s[..0] + s[1..] == s[1..];
    }
  }

  lemma WithoutAtStep<T>(s: seq<T>, k: nat)
    requires 0 < k <= |s|
    ensures k < |s| ==> WithoutAt(s, k) == [s[0]] + WithoutAt(s[1..], k - 1)
    ensures s == [s[0]] + s[1..]
  {
  }

  class Node<T> {
    var next: Node?<T>
    var item: T

    constructor (item: T, next: Node?<T>)
      ensures this.item == item && this.next == next
    {
      this.item, this.next := item, next;
    }
  }

  class LinkedList<T> {
    var head: Node?<T>
    var tail: Node?<T>
    var size: nat
    const same: (T, T) -> bool       // the comparator installed on the list

    ghost var items: seq<T>          // the abstract value
    ghost var spine: seq<Node<T>>    // the nodes, in list order
    ghost var Repr: set<object>

    /** The spine is the chain of `next` pointers: acyclic, ending in NULL, with
        `tail` its last node (NULL exactly when the list is empty) and `size` its length. */
    ghost predicate Valid()
      reads this, Repr
      ensures Valid() ==> this in Repr
    {
      && this in Repr
      && |items| == |spine| == size
      && (forall i :: 0 <= i < |spine| ==> spine[i] in Repr)
      && (forall i {:trigger spine[i].item} :: 0 <= i < |spine| ==> spine[i].item == items[i])
      && (forall i {:trigger spine[i].next} :: 0 <= i < |spine| ==> spine[i].next == NodeAt(spine, i + 1))
      && (forall i, j :: 0 <= i < j < |spine| ==> spine[i] != spine[j])
      && head == NodeAt(spine, 0)
      && tail == NodeAt(spine, |spine| - 1)
    }

    static ghost function NodeAt(spine: seq<Node<T>>, i: int): Node?<T> {
      if 0 <= i < |spine| then spine[i] else null
    }

    constructor (same: (T, T) -> bool)
      ensures Valid() && fresh(Repr) && items == [] && this.same == same
    {
      this.same := same;
      head, tail, size := null, null, 0;
      items, spine, Repr := [], [], {this};
    }

    method Append(item: T)
      requires Valid()
      modifies Repr
      ensures Valid() && fresh(Repr - old(Repr)) && old(Repr) <= Repr
      ensures items == old(items) + [item]
    {
      var node := new Node(item, null);
      if tail != null {
        tail.next := node;
      } else {
        head := node;
      }
      tail := node;
      size := size + 1;
      items, spine, Repr := items + [item], spine + [node], Repr + {node};
    }

    method Push(item: T)
      requires Valid()
      modifies Repr
      ensures Valid() && fresh(Repr - old(Repr)) && old(Repr) <= Repr
      ensures items == [item] + old(items)
    {
      var node := new Node(item, head);
      head := node;
      if tail == null {
        tail := node;
      }
      size := size + 1;
      items, spine, Repr := [item] + items, [node] + spine, Repr + {node};
    }

    /** The source also frees the item before returning its address; only the
        list's shape and the value that was at its head are modelled. */
    /** The item that was in front, or NULL. What it points at has been freed. */
    method Pop() returns (item: Option<T>)
      requires Valid()
      modifies Repr
      ensures Valid() && Repr == old(Repr)
      ensures item == if old(items) == [] then None else Some(old(items)[0])
      ensures items == if old(items) == [] then [] else old(items)[1..]
    {
      if head == null {
        return None;
      }
      var node := head;
      item := Some(node.item);
      head := node.next;
      if tail == node {
        tail := null;
      }
      size := size - 1;
      items, spine := items[1..], spine[1..];
    }

    /** The search loop of `Remove`: the first match, its predecessor and its position. */
    method Locate(item: T) returns (node: Node?<T>, prev: Node?<T>, ghost k: nat)
      requires Valid()
      ensures k <= |spine| && node == NodeAt(spine, k) && prev == NodeAt(spine, k - 1)
      ensures forall i :: 0 <= i < k ==> !same(items[i], item)
      ensures k < |spine| ==> same(items[k], item)
      ensures node != null ==> same(node.item, item)
      ensures node == null ==> forall i :: 0 <= i < |items| ==> !same(items[i], item)
    {
      node, prev, k := head, null, 0;
      while node != null && !same(node.item, item)
        invariant k <= |spine| && node == NodeAt(spine, k) && prev == NodeAt(spine, k - 1)
        invariant forall i :: 0 <= i < k ==> !same(items[i], item)
        decreases |spine| - k
      {
        prev, node := node, node.next;
        k := k + 1;
      }
    }

    method Remove(item: T)
      requires Valid()
      modifies Repr
      ensures Valid() && Repr == old(Repr)
      ensures items == RemoveFirst(old(items), item, same)
    {
      var node, prev, k := Locate(item);
      RemoveFirstAt(items, item, same, k);
      if node == null {
        return;
      }
      Unlink(node, prev, k);
    }

    /** The rewiring of `Remove`. */
    method Unlink(node: Node<T>, prev: Node?<T>, ghost k: nat)
      requires Valid()
      requires k < |spine| && node == spine[k] && prev == NodeAt(spine, k - 1)
      modifies Repr
      ensures Valid() && Repr == old(Repr)
      ensures items == WithoutAt(old(items), k)
    {
      if prev != null {
        prev.next := node.next;
      } else {
        head := node.next;
      }
      if node.next == null {
        tail := prev;
      }
      size := size - 1;
      items, spine := WithoutAt(items, k), WithoutAt(spine, k);
    }

    /** Puts another item into a node, in place (prom_map.c, line 281). */
    method Replace(node: Node<T>, item: T, ghost k: nat)
      requires Valid() && k < |spine| && node == spine[k]
      modifies Repr
      ensures Valid() && Repr == old(Repr)
      ensures items == old(items)[k := item]
    {
      node.item := item;
      items := items[k := item];
    }

    method Purge()
      requires Valid()
      modifies Repr
      ensures Valid() && Repr == old(Repr) && items == []
    {
      ghost var k: nat := 0;
      var node := head;
      while node != null
        invariant Valid() && items == old(items) && Repr == old(Repr)
        invariant k <= |spine| && node == NodeAt(spine, k)
        decreases |spine| - k
      {
        node := node.next;
        k := k + 1;
      }
      head, tail, size := null, null, 0;
      items, spine := [], [];
    }

    method First() returns (r: Option<T>)
      requires Valid()
      ensures r == if items == [] then None else Some(items[0])
    {
      r := if head != null then Some(head.item) else None;
    }

    method Last() returns (r: Option<T>)
      requires Valid()
      ensures r == if items == [] then None else Some(items[|items| - 1])
    {
      r := if tail != null then Some(tail.item) else None;
    }

    method Size() returns (n: nat)
      requires Valid()
      ensures n == |items|
    {
      n := size;
    }
  }
}
