/**
 * The tree assembler of the two render functions in fork_tree.c: one pass over every
 * slot of every page, appending each recorded child to its parent's list in a
 * parent-keyed search tree, creating the list the first time the parent is met.
 */
module Assembler {
  import opened Wrappers
  import opened BstMap
  import opened LinkedLists
  import opened PageStore

  /** The children recorded for parent p, in edge order (the reference definition). */
  function ChildrenOf(es: seq<Edge>, p: int): seq<int>
  {
    if es == [] then []
    else ChildrenOf(es[..|es| - 1], p) + (if es[|es| - 1].parent == p then [es[|es| - 1].child] else [])
  }

  ghost function ParentsOf(es: seq<Edge>): set<int>
  {
    set i | 0 <= i < |es| :: es[i].parent
  }

  /** The adjacency the assembler must build: each parent with its children in edge order. */
  ghost function AdjacencySpec(es: seq<Edge>): map<int, seq<int>>
  {
    map p | p in ParentsOf(es) :: ChildrenOf(es, p)
  }

  /** cm is an ordered search tree of well-formed lists spelling out adj. */
  ghost predicate ChildMap(cm: Tree<LinkedList>, adj: map<int, seq<int>>)
    reads View(cm).Values
  {
    && Ordered(cm)
    && View(cm).Keys == adj.Keys
    && (forall k :: k in View(cm) ==> View(cm)[k].Valid() && View(cm)[k].items == adj[k])
  }

  /** No two parents share one list object. */
  ghost predicate DistinctLists(cm: Tree<LinkedList>)
  {
    forall a, b :: a in View(cm) && b in View(cm) && a != b ==> View(cm)[a] != View(cm)[b]
  }

  lemma ChildrenOfSnoc(es: seq<Edge>, e: Edge, p: int)
    ensures ChildrenOf(es + [e], p) == ChildrenOf(es, p) + (if e.parent == p then [e.child] else [])
  {
    assert (es + [e])[..|es|] == es;
  }

  lemma ParentsOfSnoc(es: seq<Edge>, e: Edge)
    ensures ParentsOf(es + [e]) == ParentsOf(es) + {e.parent}
  {
    var es' := es + [e];
    assert es'[|es|] == e;
    forall p | p in ParentsOf(es) ensures p in ParentsOf(es') {
      var i :| 0 <= i < |es| && es[i].parent == p;
      assert es'[i] == es[i];
    }
  }

  /** Assembling one more edge appends its child to its parent's list and nothing else. */
  lemma AdjacencySpecSnoc(es: seq<Edge>, e: Edge)
    ensures AdjacencySpec(es + [e]) ==
      AdjacencySpec(es)[e.parent := (if e.parent in AdjacencySpec(es) then AdjacencySpec(es)[e.parent] else []) + [e.child]]
  {
    var before, after := AdjacencySpec(es), AdjacencySpec(es + [e]);
    var updated := before[e.parent := (if e.parent in before then before[e.parent] else []) + [e.child]];
    ParentsOfSnoc(es, e);
    assert after.Keys == updated.Keys;
    forall p | p in after ensures after[p] == updated[p] {
      ChildrenOfSnoc(es, e, p);
      if p == e.parent && p !in before {
        ChildrenOfAbsent(es, p);
      }
    }
  }

  lemma {:induction false} ChildrenOfAbsent(es: seq<Edge>, p: int)
    requires p !in ParentsOf(es)
    ensures ChildrenOf(es, p) == []
  {
    if es != [] {
      var n := |es| - 1;
      assert forall i :: 0 <= i < n ==> es[..n][i] == es[i];
      assert ParentsOf(es[..n]) <= ParentsOf(es);
      ChildrenOfAbsent(es[..n], p);
    }
  }

  /** Order of siblings is edge order: assembling a concatenation concatenates the lists. */
  lemma {:induction false} ChildrenOfAppend(a: seq<Edge>, b: seq<Edge>, p: int)
    ensures ChildrenOf(a + b, p) == ChildrenOf(a, p) + ChildrenOf(b, p)
    decreases |b|
  {
    if b != [] {
      var n := |b| - 1;
      ChildrenOfAppend(a, b[..n], p);
      assert (a + b)[..|a + b| - 1] == a + b[..n];
      assert (a + b)[|a + b| - 1] == b[n];
    } else {
      assert a + b == a;
    }
  }

  /** c is listed under p exactly when the edge (c, p) was recorded. */
  lemma {:induction false} ChildrenOfMembers(es: seq<Edge>, p: int, c: int)
    ensures c in ChildrenOf(es, p) <==> Edge(c, p) in es
  {
    if es != [] {
      var n := |es| - 1;
      ChildrenOfMembers(es[..n], p, c);
      assert es == es[..n] + [es[n]];
    }
  }

  /** Every parent the assembler creates a list for gets at least one child. */
  lemma AdjacencyListsNonEmpty(es: seq<Edge>)
    ensures forall p :: p in AdjacencySpec(es) ==> |AdjacencySpec(es)[p]| > 0
  {
    forall p | p in AdjacencySpec(es) ensures |ChildrenOf(es, p)| > 0 {
      var i :| 0 <= i < |es| && es[i].parent == p;
      ChildrenOfMembers(es, p, es[i].child);
    }
  }

  /** A recorded fork shows up as the last child of its parent; other parents are unaffected. */
  lemma RecordedChildGoesLast(ps: seq<Page>, e: Edge)
    requires Shaped(ps) && e.child != 0
    ensures e.parent in AdjacencySpec(Edges(Appended(ps, e)))
    ensures AdjacencySpec(Edges(Appended(ps, e)))[e.parent] == ChildrenOf(Edges(ps), e.parent) + [e.child]
    ensures forall p :: p != e.parent ==> ChildrenOf(Edges(Appended(ps, e)), p) == ChildrenOf(Edges(ps), p)
  {
    AppendedEdges(ps, e);
    AdjacencySpecSnoc(Edges(ps), e);
    if e.parent !in ParentsOf(Edges(ps)) {
      ChildrenOfAbsent(Edges(ps), e.parent);
    }
    forall p | p != e.parent ensures ChildrenOf(Edges(Appended(ps, e)), p) == ChildrenOf(Edges(ps), p) {
      ChildrenOfSnoc(Edges(ps), e, p);
    }
  }

  /** The edges of the pages before page i plus the first j slots of page i. */
  function EdgesUpTo(pages: seq<Page>, i: nat, j: nat): seq<Edge>
    requires AllWellFormed(pages) && i < |pages| && j <= NodePerPage
  {
    Edges(pages[..i]) + SlotEdges(pages[i], j)
  }

  lemma EdgesUpToStep(pages: seq<Page>, i: nat, j: nat)
    requires AllWellFormed(pages) && i < |pages| && j < NodePerPage
    ensures EdgesUpTo(pages, i, j + 1) == EdgesUpTo(pages, i, j) +
      (if pages[i].nodes[j] != 0 then [Edge(pages[i].nodes[j], pages[i].parent[j])] else [])
  {
  }

  lemma EdgesUpToPage(pages: seq<Page>, i: nat)
    requires AllWellFormed(pages) && i < |pages|
    ensures EdgesUpTo(pages, i, 0) == Edges(pages[..i])
    ensures EdgesUpTo(pages, i, NodePerPage) == Edges(pages[..i + 1])
  {
    assert pages[..i + 1][..i] == pages[..i];
  }

  /**
   * map_get on the parent; when it finds nothing, linked_list_create and map_put.
   * The list found or made holds the parent's children so far and belongs to no
   * other parent.
   */
  method ListFor(cm: Tree<LinkedList>, parent: int, ghost adj: map<int, seq<int>>)
    returns (list: LinkedList, cm': Tree<LinkedList>)
    requires ChildMap(cm, adj) && DistinctLists(cm)
    requires forall l :: l in View(cm).Values ==> allocated(l)
    ensures Ordered(cm') && View(cm') == View(cm)[parent := list]
    ensures list.Valid() && list.items == (if parent in adj then adj[parent] else [])
    ensures forall k :: k in View(cm) && k != parent ==> View(cm)[k] != list
    ensures DistinctLists(cm')
    ensures list in View(cm).Values || fresh(list)
    ensures forall l :: l in View(cm').Values ==> allocated(l) && (l in View(cm).Values || fresh(l))
  {
    GetView(cm, parent);
    var found := Get(cm, parent);
    if found.None? {
      list := new LinkedList();
      forall k | k in View(cm) ensures View(cm)[k] != list {
        assert View(cm)[k] in View(cm).Values;
      }
      PutView(cm, parent, list);
      cm' := Put(cm, parent, list);
      UpdateValues(View(cm), parent, list);
    } else {
      list := found.value;
      assert list == View(cm)[parent];
      cm' := cm;
      assert View(cm)[parent := list] == View(cm);
    }
  }

  /** One non-empty slot: find or make the parent's list, then append the child to it. */
  method RecordChild(cm: Tree<LinkedList>, parent: int, child: int, ghost adj: map<int, seq<int>>)
    returns (cm': Tree<LinkedList>)
    requires ChildMap(cm, adj) && DistinctLists(cm)
    requires forall l :: l in View(cm).Values ==> allocated(l)
    modifies View(cm).Values
    ensures ChildMap(cm', adj[parent := (if parent in adj then adj[parent] else []) + [child]])
    ensures DistinctLists(cm')
    ensures forall l :: l in View(cm').Values ==> allocated(l) && (l in View(cm).Values || fresh(l))
  {
    ghost var old0 := View(cm);
    var list;
    list, cm' := ListFor(cm, parent, adj);
    ghost var view := View(cm');
    ghost var adj' := adj[parent := list.items + [child]];
    list.Add(child);
    forall k | k in view ensures view[k].Valid() && view[k].items == adj'[k] {
      if k != parent {
        assert view[k] == old0[k] && old0[k] in old0.Values;
      }
    }
  }

  /** The values of m[k := v] are v and values of m. */
  lemma UpdateValues<K, V>(m: map<K, V>, k: K, v: V)
    ensures m[k := v].Values <= m.Values + {v}
  {
    forall x | x in m[k := v].Values ensures x in m.Values + {v} {
      var j :| j in m[k := v] && m[k := v][j] == x;
      if j != k {
        assert m[j] in m.Values;
      }
    }
  }

  /**
   * The nested page/slot loop of fork_tree_render_*_svg: every non-empty slot
   * appends nodes[j] to the list of parent[j], creating and inserting the list first
   * when map_get finds none. The result spells out AdjacencySpec of the stored edges.
   */
  method Assemble(pages: seq<Page>) returns (cm: Tree<LinkedList>)
    requires AllWellFormed(pages)
    ensures ChildMap(cm, AdjacencySpec(Edges(pages))) && DistinctLists(cm)
    ensures forall l :: l in View(cm).Values ==> fresh(l) && allocated(l)
  {
    cm := Leaf;
    var i := 0;
    while i < |pages|
      invariant 0 <= i <= |pages|
      invariant ChildMap(cm, AdjacencySpec(Edges(pages[..i])))
      invariant DistinctLists(cm)
      invariant forall l :: l in View(cm).Values ==> fresh(l) && allocated(l)
    {
      EdgesUpToPage(pages, i);
      cm := AssemblePage(cm, pages, i);
      i := i + 1;
    }
    assert pages[..|pages|] == pages;
  }

  /** The inner loop: the slots of page i in order, each non-empty one recorded. */
  method AssemblePage(cm: Tree<LinkedList>, pages: seq<Page>, i: nat) returns (cm': Tree<LinkedList>)
    requires AllWellFormed(pages) && i < |pages|
    requires ChildMap(cm, AdjacencySpec(EdgesUpTo(pages, i, 0))) && DistinctLists(cm)
    requires forall l :: l in View(cm).Values ==> allocated(l)
    modifies View(cm).Values
    ensures ChildMap(cm', AdjacencySpec(EdgesUpTo(pages, i, NodePerPage))) && DistinctLists(cm')
    ensures forall l :: l in View(cm').Values ==> allocated(l) && (l in View(cm).Values || fresh(l))
  {
    var page := pages[i];
    cm' := cm;
    var j := 0;
    ghost var done := EdgesUpTo(pages, i, 0);
    while j < NodePerPage
      invariant 0 <= j <= NodePerPage
      invariant done == EdgesUpTo(pages, i, j)
      invariant ChildMap(cm', AdjacencySpec(done)) && DistinctLists(cm')
      invariant forall l :: l in View(cm').Values ==> allocated(l) && (l in View(cm).Values || fresh(l))
    {
      EdgesUpToStep(pages, i, j);
      if page.nodes[j] != 0 {
        var e := Edge(page.nodes[j], page.parent[j]);
        AdjacencySpecSnoc(done, e);
        cm' := RecordChild(cm', e.parent, e.child, AdjacencySpec(done));
        done := done + [e];
      }
      j := j + 1;
    }
  }
}
