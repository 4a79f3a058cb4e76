/**
 * linked_list_t from fork_tree.c: an append-only singly linked list with head,
 * tail and size. The chain of nodes from head to tail is kept as the sequence
 * `items` (items[0] is the head's value, the last element the tail's).
 */
module LinkedLists {

  class LinkedList {
    var items: seq<int>
    var size: int

    /** The size field counts the nodes on the chain. */
    ghost predicate Valid()
      reads this
    {
      size == |items|
    }

    /** linked_list_create: no head, no tail, size 0. */
    constructor ()
      ensures Valid() && items == []
    {
      items := [];
      size := 0;
    }

    /**
     * linked_list_add: the new node becomes the head when the list is empty,
     * and is linked after the tail otherwise; either way it is the new tail.
     */
    method Add(v: int)
      requires Valid()
      modifies this
      ensures Valid()
      ensures items == old(items) + [v]
      ensures size == old(size) + 1
    {
      if items == [] {
        items := [v];
        size := 1;
      } else {
        items := items + [v];
        size := size + 1;
      }
    }
  }
}
