/**
 * The unbalanced binary search tree keyed by int that fork_tree.c uses for the
 * parent-to-children map and for the width memo (map_get, map_put).
 * Smaller keys go left, larger keys go right; there is no deletion and no rebalancing.
 */
module BstMap {
  import opened Wrappers

  datatype Tree<V> = Leaf | Node(left: Tree<V>, key: int, value: V, right: Tree<V>)

  /** map_get: walk down from the root; None plays the part of the NULL result. */
  function Get<V>(t: Tree<V>, k: int): (r: Option<V>)
    ensures r.Some? ==> k in Keys(t)
  {
    match t
    case Leaf => None
    case Node(l, key, v, r) =>
      if key == k then Some(v)
      else if key > k then Get(l, k)
      else Get(r, k)
  }

  /**
   * map_put: an empty subtree becomes a new node; a node holding the key gets its
   * value overwritten; otherwise descend left (key smaller) or right.
   */
  function Put<V>(t: Tree<V>, k: int, v: V): (r: Tree<V>)
    ensures Keys(r) == Keys(t) + {k}
  {
    match t
    case Leaf => Node(Leaf, k, v, Leaf)
    case Node(l, key, w, r) =>
      if key == k then Node(l, key, v, r)
      else if key > k then Node(Put(l, k, v), key, w, r)
      else Node(l, key, w, Put(r, k, v))
  }

  ghost function Keys<V>(t: Tree<V>): set<int>
  {
    match t
    case Leaf => {}
    case Node(l, key, _, r) => Keys(l) + {key} + Keys(r)
  }

  /** Number of allocated nodes. */
  function Size<V>(t: Tree<V>): nat
  {
    match t
    case Leaf => 0
    case Node(l, _, _, r) => Size(l) + 1 + Size(r)
  }

  /** The search-tree ordering: left keys < key < right keys, at every node. */
  ghost predicate Ordered<V>(t: Tree<V>)
  {
    match t
    case Leaf => true
    case Node(l, key, _, r) =>
      && Ordered(l) && Ordered(r)
      && (forall x :: x in Keys(l) ==> x < key)
      && (forall x :: x in Keys(r) ==> key < x)
  }

  /** The abstract map a tree stands for. */
  ghost function View<V>(t: Tree<V>): map<int, V>
  {
    match t
    case Leaf => map[]
    case Node(l, key, v, r) => (View(l) + View(r))[key := v]
  }

  lemma {:induction false} ViewKeys<V>(t: Tree<V>)
    ensures View(t).Keys == Keys(t)
  {
    match t
    case Leaf =>
    case Node(l, _, _, r) =>
      ViewKeys(l);
      ViewKeys(r);
  }

  /** On an ordered tree, map_get finds exactly what the abstract map holds. */
  lemma {:induction false} GetView<V>(t: Tree<V>, k: int)
    requires Ordered(t)
    ensures Get(t, k) == if k in View(t) then Some(View(t)[k]) else None
  {
    match t
    case Leaf =>
    case Node(l, key, v, r) =>
      ViewKeys(l);
      ViewKeys(r);
      if key > k {
        GetView(l, k);
        assert k !in Keys(r);
      } else if key < k {
        GetView(r, k);
        assert k !in Keys(l);
      }
  }

  lemma {:induction false} PutOrdered<V>(t: Tree<V>, k: int, v: V)
    requires Ordered(t)
    ensures Ordered(Put(t, k, v))
  {
    match t
    case Leaf =>
    case Node(l, key, w, r) =>
      if key > k {
        PutOrdered(l, k, v);
      } else if key < k {
        PutOrdered(r, k, v);
      }
  }

  /**
   * map_put keeps the tree ordered and updates the abstract map at k only:
   * afterwards k maps to v and every other key keeps its value.
   */
  lemma {:induction false} PutView<V>(t: Tree<V>, k: int, v: V)
    requires Ordered(t)
    ensures Ordered(Put(t, k, v))
    ensures View(Put(t, k, v)) == View(t)[k := v]
  {
    PutOrdered(t, k, v);
    match t
    case Leaf =>
    case Node(l, key, w, r) =>
      ViewKeys(l);
      ViewKeys(r);
      if key > k {
        PutView(l, k, v);
        UpdateLeft(View(l), View(r), key, w, k, v);
      } else if key < k {
        PutView(r, k, v);
        UpdateRight(View(l), View(r), key, w, k, v);
      }
  }

  /** Updating the left part of a node's map at a key that is not the node's own. */
  lemma UpdateLeft<V>(a: map<int, V>, b: map<int, V>, key: int, w: V, k: int, v: V)
    requires k != key && k !in b
    ensures (a[k := v] + b)[key := w] == ((a + b)[key := w])[k := v]
  {
  }

  /** Updating the right part of a node's map at a key that is not the node's own. */
  lemma UpdateRight<V>(a: map<int, V>, b: map<int, V>, key: int, w: V, k: int, v: V)
    requires k != key
    ensures (a + b[k := v])[key := w] == ((a + b)[key := w])[k := v]
  {
  }

  /** After map_put(m, k, v), map_get(m, k) == v and every other lookup is unchanged. */
  lemma PutThenGet<V>(t: Tree<V>, k: int, v: V, other: int)
    requires Ordered(t) && other != k
    ensures Get(Put(t, k, v), k) == Some(v)
    ensures Get(Put(t, k, v), other) == Get(t, other)
  {
    PutView(t, k, v);
    GetView(Put(t, k, v), k);
    GetView(Put(t, k, v), other);
    GetView(t, other);
  }

  /** Overwriting an existing key allocates no node; a new key allocates exactly one. */
  lemma {:induction false} PutSize<V>(t: Tree<V>, k: int, v: V)
    requires Ordered(t)
    ensures Size(Put(t, k, v)) == if k in Keys(t) then Size(t) else Size(t) + 1
  {
    match t
    case Leaf =>
    case Node(l, key, _, r) =>
      if key > k {
        PutSize(l, k, v);
        assert k !in Keys(r);
      } else if key < k {
        PutSize(r, k, v);
        assert k !in Keys(l);
      }
  }
}
