/**
 * The shared page store of fork_tree.c: the metadata block (root pid, page count,
 * semaphore) and the page file, a growing sequence of fixed-size pages, each holding
 * NODE_PER_PAGE (child, parent) slots. A slot whose child is 0 is empty.
 * fork_tree_add_node appends one edge under the semaphore.
 */
module PageStore {

  const NodePerPage: nat := 20

  /** One recorded duplication: `child` was forked by `parent`. */
  datatype Edge = Edge(child: int, parent: int)

  /** tree_page_t: the two parallel arrays nodes (child ids) and parent. */
  datatype Page = Page(nodes: seq<int>, parent: seq<int>)

  predicate WellFormedPage(p: Page)
  {
    |p.nodes| == NodePerPage && |p.parent| == NodePerPage
  }

  predicate AllWellFormed(ps: seq<Page>)
  {
    forall i :: 0 <= i < |ps| ==> WellFormedPage(ps[i])
  }

  /** A page as ftruncate adds it to the file: all zero bytes. */
  function EmptyPage(): (p: Page)
    ensures WellFormedPage(p)
    ensures forall i :: 0 <= i < NodePerPage ==> p.nodes[i] == 0 && p.parent[i] == 0
  {
    Page(seq(NodePerPage, _ => 0), seq(NodePerPage, _ => 0))
  }

  /** Writes the edge into slot i: nodes[i] := child, parent[i] := parent. */
  function WriteSlot(p: Page, i: nat, e: Edge): Page
    requires WellFormedPage(p) && i < NodePerPage
  {
    Page(p.nodes[i := e.child], p.parent[i := e.parent])
  }

  /** The edges held by the first j slots of p, in slot order. */
  function SlotEdges(p: Page, j: nat): seq<Edge>
    requires WellFormedPage(p) && j <= NodePerPage
  {
    if j == 0 then []
    else SlotEdges(p, j - 1) + (if p.nodes[j - 1] != 0 then [Edge(p.nodes[j - 1], p.parent[j - 1])] else [])
  }

  function PageEdges(p: Page): seq<Edge>
    requires WellFormedPage(p)
  {
    SlotEdges(p, NodePerPage)
  }

  /** Every non-empty slot of the store, page by page, slot by slot. */
  function Edges(ps: seq<Page>): seq<Edge>
    requires AllWellFormed(ps)
  {
    if ps == [] then [] else Edges(ps[..|ps| - 1]) + PageEdges(ps[|ps| - 1])
  }

  predicate Full(p: Page)
    requires WellFormedPage(p)
  {
    forall i :: 0 <= i < NodePerPage ==> p.nodes[i] != 0
  }

  /** The non-empty slots of p form a prefix. */
  predicate Packed(p: Page)
    requires WellFormedPage(p)
  {
    forall i, j :: 0 <= i < j < NodePerPage && p.nodes[j] != 0 ==> p.nodes[i] != 0
  }

  /** The store invariant: every page but the last is full, the last one is packed. */
  ghost predicate Shaped(ps: seq<Page>)
  {
    && AllWellFormed(ps)
    && (forall i :: 0 <= i < |ps| - 1 ==> Full(ps[i]))
    && (ps != [] ==> Packed(ps[|ps| - 1]))
  }

  /** The lowest empty slot at index i or above, or NodePerPage when there is none. */
  function FirstEmptyFrom(p: Page, i: nat): (r: nat)
    requires WellFormedPage(p) && i <= NodePerPage
    ensures i <= r <= NodePerPage
    ensures r < NodePerPage ==> p.nodes[r] == 0
    ensures forall k :: i <= k < r ==> p.nodes[k] != 0
    decreases NodePerPage - i
  {
    if i == NodePerPage then i
    else if p.nodes[i] == 0 then i
    else FirstEmptyFrom(p, i + 1)
  }

  function FirstEmpty(p: Page): nat
    requires WellFormedPage(p)
  {
    FirstEmptyFrom(p, 0)
  }

  /** The slot a scan from 0 stops at, when every slot before it is taken, is FirstEmpty. */
  lemma FirstEmptyIs(p: Page, i: nat)
    requires WellFormedPage(p) && i <= NodePerPage
    requires forall k :: 0 <= k < i ==> p.nodes[k] != 0
    requires i < NodePerPage ==> p.nodes[i] == 0
    ensures FirstEmpty(p) == i
  {
  }

  /** The slot loop of fork_tree_add_node: scan the page from slot 0 for a zero child. */
  method FindFreeSlot(p: Page) returns (i: nat)
    requires WellFormedPage(p)
    ensures i == FirstEmpty(p)
  {
    i := 0;
    while i < NodePerPage && p.nodes[i] != 0
      invariant 0 <= i <= NodePerPage
      invariant forall k :: 0 <= k < i ==> p.nodes[k] != 0
    {
      i := i + 1;
    }
    FirstEmptyIs(p, i);
  }

  /** An append must grow the file: there is no page yet, or the last page is full. */
  predicate NeedsPage(ps: seq<Page>)
    requires AllWellFormed(ps)
  {
    ps == [] || FirstEmpty(ps[|ps| - 1]) == NodePerPage
  }

  /**
   * The pages after a successful append of e: the lowest empty slot of the last page,
   * or slot 0 of one new page when there is no page or the last page is full.
   */
  function Appended(ps: seq<Page>, e: Edge): (r: seq<Page>)
    requires AllWellFormed(ps)
    ensures AllWellFormed(r)
  {
    if ps == [] then [WriteSlot(EmptyPage(), 0, e)]
    else
      var last := ps[|ps| - 1];
      var i := FirstEmpty(last);
      if i < NodePerPage then ps[|ps| - 1 := WriteSlot(last, i, e)]
      else ps + [WriteSlot(EmptyPage(), 0, e)]
  }

  /** The pages after a sequence of successful appends, in order. */
  function AppendAll(ps: seq<Page>, es: seq<Edge>): (r: seq<Page>)
    requires AllWellFormed(ps)
    ensures AllWellFormed(r)
  {
    if es == [] then ps else Appended(AppendAll(ps, es[..|es| - 1]), es[|es| - 1])
  }

  // ---------------------------------------------------------------------------
  // Lemmas about the edge view of the store

  lemma {:induction false} SlotEdgesAgree(p: Page, q: Page, j: nat)
    requires WellFormedPage(p) && WellFormedPage(q) && j <= NodePerPage
    requires forall k :: 0 <= k < j ==> p.nodes[k] == q.nodes[k] && p.parent[k] == q.parent[k]
    ensures SlotEdges(p, j) == SlotEdges(q, j)
  {
    if j > 0 { SlotEdgesAgree(p, q, j - 1); }
  }

  lemma {:induction false} SlotEdgesEmptyTail(p: Page, k: nat, j: nat)
    requires WellFormedPage(p) && k <= j <= NodePerPage
    requires forall m :: k <= m < j ==> p.nodes[m] == 0
    ensures SlotEdges(p, j) == SlotEdges(p, k)
    decreases j
  {
    if j > k { SlotEdgesEmptyTail(p, k, j - 1); }
  }

  /** A page that ftruncate just added holds no edge. */
  lemma EmptyPageHasNoEdges()
    ensures PageEdges(EmptyPage()) == []
  {
    SlotEdgesEmptyTail(EmptyPage(), 0, NodePerPage);
  }

  lemma EdgesSnoc(ps: seq<Page>, p: Page)
    requires AllWellFormed(ps) && WellFormedPage(p)
    ensures AllWellFormed(ps + [p])
    ensures Edges(ps + [p]) == Edges(ps) + PageEdges(p)
  {
    assert (ps + [p])[..|ps|] == ps;
  }

  /** Writing into the lowest empty slot of a packed page appends exactly that edge. */
  lemma WriteFirstEmpty(p: Page, e: Edge)
    requires WellFormedPage(p) && Packed(p) && FirstEmpty(p) < NodePerPage
    ensures WellFormedPage(WriteSlot(p, FirstEmpty(p), e))
    ensures Packed(WriteSlot(p, FirstEmpty(p), e))
    ensures PageEdges(WriteSlot(p, FirstEmpty(p), e)) == PageEdges(p) + (if e.child != 0 then [e] else [])
  {
    var i := FirstEmpty(p);
    var q := WriteSlot(p, i, e);
    FreeTail(p);
    WritePacked(p, e);
    SlotEdgesEmptyTail(p, i, NodePerPage);
    SlotEdgesEmptyTail(q, i + 1, NodePerPage);
    SlotEdgesAgree(p, q, i);
  }

  /** On a packed page every slot from the lowest free one on is free. */
  lemma FreeTail(p: Page)
    requires WellFormedPage(p) && Packed(p)
    ensures forall m :: FirstEmpty(p) <= m < NodePerPage ==> p.nodes[m] == 0
  {
  }

  lemma WritePacked(p: Page, e: Edge)
    requires WellFormedPage(p) && Packed(p) && FirstEmpty(p) < NodePerPage
    requires forall m :: FirstEmpty(p) <= m < NodePerPage ==> p.nodes[m] == 0
    ensures WellFormedPage(WriteSlot(p, FirstEmpty(p), e))
    ensures Packed(WriteSlot(p, FirstEmpty(p), e))
  {
  }

  /**
   * A successful append keeps the store invariant and adds exactly the new edge at the
   * end of the edge sequence (a child id 0 writes a slot that still reads as empty).
   */
  lemma AppendedEdges(ps: seq<Page>, e: Edge)
    requires Shaped(ps)
    ensures Shaped(Appended(ps, e))
    ensures Edges(Appended(ps, e)) == Edges(ps) + (if e.child != 0 then [e] else [])
  {
    if ps == [] || FirstEmpty(ps[|ps| - 1]) == NodePerPage {
      AppendedToNewPage(ps, e);
    } else {
      AppendedToLastPage(ps, e);
    }
  }

  lemma UpdateLast(ps: seq<Page>, p: Page, q: Page)
    ensures (ps + [p])[|ps| := q] == ps + [q]
  {
  }

  /** Adding a packed page after full ones keeps the store invariant. */
  lemma ShapedSnoc(ps: seq<Page>, p: Page)
    requires Shaped(ps) && WellFormedPage(p) && Packed(p)
    requires ps != [] ==> Full(ps[|ps| - 1])
    ensures Shaped(ps + [p])
  {
    var r := ps + [p];
    assert forall i :: 0 <= i < |ps| ==> r[i] == ps[i];
  }

  lemma AppendedToNewPage(ps: seq<Page>, e: Edge)
    requires Shaped(ps) && NeedsPage(ps)
    ensures Appended(ps, e) == ps + [WriteSlot(EmptyPage(), 0, e)]
    ensures Shaped(Appended(ps, e))
    ensures Edges(Appended(ps, e)) == Edges(ps) + (if e.child != 0 then [e] else [])
  {
    var newPage := WriteSlot(EmptyPage(), 0, e);
    assert FirstEmpty(EmptyPage()) == 0;
    WriteFirstEmpty(EmptyPage(), e);
    EmptyPageHasNoEdges();
    EdgesSnoc(ps, newPage);
    if ps != [] {
      assert Full(ps[|ps| - 1]);
    }
    ShapedSnoc(ps, newPage);
  }

  lemma AppendedToLastPage(ps: seq<Page>, e: Edge)
    requires Shaped(ps) && !NeedsPage(ps)
    ensures Shaped(Appended(ps, e))
    ensures Edges(Appended(ps, e)) == Edges(ps) + (if e.child != 0 then [e] else [])
  {
    var n := |ps| - 1;
    var last := ps[n];
    WriteFirstEmpty(last, e);
    var q := WriteSlot(last, FirstEmpty(last), e);
    var r := Appended(ps, e);
    assert r == ps[..n] + [q];
    assert ps == ps[..n] + [last];
    EdgesSnoc(ps[..n], q);
    EdgesSnoc(ps[..n], last);
    assert forall i :: 0 <= i < n ==> r[i] == ps[i];
  }

  /**
   * Where a successful append writes: with room on the last page, its lowest free slot
   * and no other slot or page; otherwise slot 0 of exactly one new page, all of whose
   * other slots are empty, with every earlier page unchanged.
   */
  lemma AppendedSlotChoice(ps: seq<Page>, e: Edge)
    requires AllWellFormed(ps)
    ensures !NeedsPage(ps) ==>
      var n := |ps| - 1;
      var i := FirstEmpty(ps[n]);
      var r := Appended(ps, e);
      && |r| == |ps|
      && ps[n].nodes[i] == 0 && (forall k :: 0 <= k < i ==> ps[n].nodes[k] != 0)
      && r[n].nodes[i] == e.child && r[n].parent[i] == e.parent
      && (forall j :: 0 <= j < NodePerPage && j != i ==> r[n].nodes[j] == ps[n].nodes[j] && r[n].parent[j] == ps[n].parent[j])
      && (forall q :: 0 <= q < n ==> r[q] == ps[q])
    ensures NeedsPage(ps) ==>
      var r := Appended(ps, e);
      && |r| == |ps| + 1
      && r[..|ps|] == ps
      && r[|ps|].nodes[0] == e.child && r[|ps|].parent[0] == e.parent
      && (forall j :: 0 < j < NodePerPage ==> r[|ps|].nodes[j] == 0 && r[|ps|].parent[j] == 0)
  {
    if NeedsPage(ps) && ps != [] {
      assert Appended(ps, e)[..|ps|] == ps;
    }
  }

  /**
   * A failed append leaves at most one extra page behind, and that page is empty only
   * when the store needed it: the edges and the store invariant are unharmed.
   */
  lemma FailedAppendKeepsEdges(ps: seq<Page>)
    requires Shaped(ps) && NeedsPage(ps)
    ensures Shaped(ps + [EmptyPage()])
    ensures Edges(ps + [EmptyPage()]) == Edges(ps)
  {
    EmptyPageHasNoEdges();
    EdgesSnoc(ps, EmptyPage());
    if ps != [] {
      assert Full(ps[|ps| - 1]);
    }
    assert Packed(EmptyPage());
  }

  /** Successful appends of non-zero children record every edge, in order, none lost. */
  lemma {:induction false} AppendAllEdges(es: seq<Edge>)
    requires forall k :: 0 <= k < |es| ==> es[k].child != 0
    ensures Shaped(AppendAll([], es))
    ensures Edges(AppendAll([], es)) == es
  {
    if es != [] {
      var n := |es| - 1;
      var init := es[..n];
      assert forall k :: 0 <= k < |init| ==> init[k] == es[k];
      AppendAllEdges(init);
      assert es == init + [es[n]];
      AppendAllStep(init, es[n]);
    }
  }

  lemma AppendAllStep(es: seq<Edge>, e: Edge)
    requires Shaped(AppendAll([], es)) && Edges(AppendAll([], es)) == es && e.child != 0
    ensures Shaped(AppendAll([], es + [e]))
    ensures Edges(AppendAll([], es + [e])) == es + [e]
  {
    var all := es + [e];
    assert all[..|all| - 1] == es && all[|all| - 1] == e;
    assert AppendAll([], all) == Appended(AppendAll([], es), e);
    AppendedEdges(AppendAll([], es), e);
  }

  /**
   * The layout a run of appends es to an empty store produces: the store has exactly
   * ceil(|es| / 20) pages, edge k sits in page k / 20, slot k % 20, and every slot past
   * the last edge is empty.
   */
  ghost predicate LaidOut(ps: seq<Page>, es: seq<Edge>)
  {
    && AllWellFormed(ps)
    && |ps| == (|es| + NodePerPage - 1) / NodePerPage
    && (forall k :: 0 <= k < |es| ==>
         && ps[k / NodePerPage].nodes[k % NodePerPage] == es[k].child
         && ps[k / NodePerPage].parent[k % NodePerPage] == es[k].parent)
    && (forall q, j :: 0 <= q < |ps| && 0 <= j < NodePerPage && q * NodePerPage + j >= |es| ==>
         ps[q].nodes[j] == 0)
  }

  /** Appending when the last page has room: the edge goes to slot |es| % 20 of it. */
  lemma LaidOutStepWithinPage(ps: seq<Page>, es: seq<Edge>, e: Edge)
    requires LaidOut(ps, es) && |es| % NodePerPage != 0
    requires forall k :: 0 <= k < |es| ==> es[k].child != 0
    ensures LaidOut(Appended(ps, e), es + [e])
  {
    var n := |es|;
    var L := n / NodePerPage;
    var es' := es + [e];
    assert |ps| == L + 1;
    var last := ps[L];
    forall j | 0 <= j < n % NodePerPage
      ensures last.nodes[j] != 0
    {
      var k := L * NodePerPage + j;
      assert k / NodePerPage == L && k % NodePerPage == j;
    }
    assert last.nodes[n % NodePerPage] == 0;
    assert FirstEmpty(last) == n % NodePerPage;
    var r := Appended(ps, e);
    assert r == ps[L := WriteSlot(last, n % NodePerPage, e)];
    forall k | 0 <= k < |es'|
      ensures r[k / NodePerPage].nodes[k % NodePerPage] == es'[k].child
      ensures r[k / NodePerPage].parent[k % NodePerPage] == es'[k].parent
    {
      if k < n {
        assert k / NodePerPage != L || k % NodePerPage != n % NodePerPage;
      }
    }
    forall q, j | 0 <= q < |r| && 0 <= j < NodePerPage && q * NodePerPage + j >= |es'|
      ensures r[q].nodes[j] == 0
    {
      assert q != L || j != n % NodePerPage;
    }
  }

  /** Appending when the store is empty or its last page is full opens one new page. */
  lemma LaidOutStepNewPage(ps: seq<Page>, es: seq<Edge>, e: Edge)
    requires LaidOut(ps, es) && |es| % NodePerPage == 0
    requires forall k :: 0 <= k < |es| ==> es[k].child != 0
    ensures LaidOut(Appended(ps, e), es + [e])
  {
    var n := |es|;
    var m := n / NodePerPage;
    var es' := es + [e];
    assert |ps| == m;
    var r := Appended(ps, e);
    if m > 0 {
      var last := ps[m - 1];
      forall j | 0 <= j < NodePerPage
        ensures last.nodes[j] != 0
      {
        var k := (m - 1) * NodePerPage + j;
        assert k / NodePerPage == m - 1 && k % NodePerPage == j;
      }
      assert FirstEmpty(last) == NodePerPage;
    }
    assert r == ps + [WriteSlot(EmptyPage(), 0, e)];
    forall k | 0 <= k < |es'|
      ensures r[k / NodePerPage].nodes[k % NodePerPage] == es'[k].child
      ensures r[k / NodePerPage].parent[k % NodePerPage] == es'[k].parent
    {
      if k < n {
        assert k / NodePerPage < m;
      } else {
        assert k / NodePerPage == m && k % NodePerPage == 0;
      }
    }
  }

  /** Where a run of appends of non-zero children to an empty store puts each edge. */
  lemma {:induction false} AppendAllLayout(es: seq<Edge>)
    requires forall k :: 0 <= k < |es| ==> es[k].child != 0
    ensures LaidOut(AppendAll([], es), es)
  {
    if es != [] {
      var n := |es| - 1;
      AppendAllLayout(es[..n]);
      assert es == es[..n] + [es[n]];
      if n % NodePerPage != 0 {
        LaidOutStepWithinPage(AppendAll([], es[..n]), es[..n], es[n]);
      } else {
        LaidOutStepNewPage(AppendAll([], es[..n]), es[..n], es[n]);
      }
    }
  }

  /** Edge 21 causes the one and only growth so far and lands in page 1, slot 0. */
  lemma TwentyFirstAppendOpensPage(es: seq<Edge>)
    requires |es| == NodePerPage + 1
    requires forall k :: 0 <= k < |es| ==> es[k].child != 0
    ensures |AppendAll([], es[..NodePerPage])| == 1
    ensures |AppendAll([], es)| == 2
    ensures AppendAll([], es)[1].nodes[0] == es[NodePerPage].child
    ensures AppendAll([], es)[1].parent[0] == es[NodePerPage].parent
  {
    AppendAllLayout(es[..NodePerPage]);
    AppendAllLayout(es);
    var k := NodePerPage;
    assert k / NodePerPage == 1 && k % NodePerPage == 0;
  }

  // ---------------------------------------------------------------------------
  // The shared metadata block and fork_tree_add_node

  /**
   * What the operating system answers to the calls fork_tree_add_node makes:
   * mapping the metadata block, resizing the page file (ftruncate), mapping the pages,
   * and mapping them again after growth.
   */
  datatype Os = Os(mapMeta: bool, resize: bool, mapPages: bool, remapPages: bool)

  /** 0 from fork_tree_add_node, -1, or waiting forever on a semaphore nobody posts. */
  datatype AddResult = Added | AddFailed | AddBlocked

  /** An append on pages ps gets to its final `return 0` under these OS answers. */
  predicate AppendSucceeds(os: Os, ps: seq<Page>)
    requires AllWellFormed(ps)
  {
    && os.mapPages
    && (NeedsPage(ps) ==> os.resize)
    && (NeedsPage(ps) && ps != [] ==> os.remapPages)
  }

  /** A failing append that had already extended the file by one (still empty) page. */
  predicate AppendLeavesEmptyPage(os: Os, ps: seq<Page>)
    requires AllWellFormed(ps)
  {
    && NeedsPage(ps)
    && os.resize
    && (if ps == [] then !os.mapPages else os.mapPages && !os.remapPages)
  }

  class SharedTree {
    const rootProcessId: int
    /** number_of_pages in the metadata block. */
    var numberOfPages: int
    /** The page file's contents, one entry per page the file holds. */
    var pages: seq<Page>
    /** The semaphore is taken (its value is 0). */
    var locked: bool

    ghost predicate Valid()
      reads this
    {
      Shaped(pages) && numberOfPages == |pages|
    }

    /** The metadata fork_tree_init writes: the caller is the root, no pages, semaphore free. */
    constructor (rootProcessId: int)
      ensures Valid() && this.rootProcessId == rootProcessId
      ensures pages == [] && numberOfPages == 0 && !locked
    {
      this.rootProcessId := rootProcessId;
      numberOfPages := 0;
      pages := [];
      locked := false;
    }

    /** Extends the page file by one zero page and counts it, in that order. */
    method Grow(resizeOk: bool) returns (ok: bool)
      requires Valid() && NeedsPage(pages)
      modifies this`pages, this`numberOfPages
      ensures Valid()
      ensures ok == resizeOk
      ensures pages == old(pages) + (if ok then [EmptyPage()] else [])
    {
      if !resizeOk {
        return false;
      }
      FailedAppendKeepsEdges(pages);
      pages := pages + [EmptyPage()];
      numberOfPages := numberOfPages + 1;
      return true;
    }

    /**
     * The growth step of fork_tree_add_node as written: the page is counted before
     * ftruncate is attempted, and the count is not taken back when ftruncate fails.
     */
    method GrowAsWritten(resizeOk: bool) returns (ok: bool)
      requires Valid() && NeedsPage(pages)
      modifies this`pages, this`numberOfPages
      ensures ok == resizeOk
      ensures numberOfPages == old(numberOfPages) + 1
      ensures pages == old(pages) + (if ok then [EmptyPage()] else [])
      ensures !ok ==> numberOfPages == |pages| + 1 && !Valid()
    {
      numberOfPages := numberOfPages + 1;
      if !resizeOk {
        return false;
      }
      pages := pages + [EmptyPage()];
      return true;
    }

    /**
     * The part of fork_tree_add_node after the pages are mapped: the slot loop over the
     * last page, then, when no slot was free, one growth and slot 0 of the new page.
     */
    method InsertIntoLastPage(os: Os, e: Edge) returns (ok: bool)
      requires Valid() && pages != []
      modifies this`pages, this`numberOfPages
      ensures Valid()
      ensures ok == (NeedsPage(old(pages)) ==> os.resize && os.remapPages)
      ensures ok ==> pages == Appended(old(pages), e)
      ensures !ok ==> pages == old(pages) + (if os.resize then [EmptyPage()] else [])
    {
      var last := pages[numberOfPages - 1];
      var i := FindFreeSlot(last);
      if i < NodePerPage {
        pages := pages[numberOfPages - 1 := WriteSlot(last, i, e)];
        AppendedToLastPage(old(pages), e);
        return true;
      }
      ok := AppendOnNewPage(os, e);
    }

    /** No slot was free: grow the file, remap it, and write slot 0 of the new page. */
    method AppendOnNewPage(os: Os, e: Edge) returns (ok: bool)
      requires Valid() && NeedsPage(pages)
      modifies this`pages, this`numberOfPages
      ensures Valid()
      ensures ok == (os.resize && os.remapPages)
      ensures ok ==> pages == Appended(old(pages), e)
      ensures !ok ==> pages == old(pages) + (if os.resize then [EmptyPage()] else [])
    {
      var grown := Grow(os.resize);
      if !grown || !os.remapPages {
        return false;
      }
      ghost var before := old(pages);
      assert pages == before + [EmptyPage()] && numberOfPages - 1 == |before|;
      var first := WriteSlot(pages[numberOfPages - 1], 0, e);
      UpdateLast(before, EmptyPage(), first);
      pages := pages[numberOfPages - 1 := first];
      AppendedToNewPage(before, e);
      return true;
    }

    /**
     * fork_tree_add_node(tree, parentPid, childPid), the semaphore section taken as one
     * atomic step. The lock is released on every path that took it.
     */
    method AddNode(os: Os, parentPid: int, childPid: int) returns (r: AddResult)
      requires Valid()
      modifies this
      ensures Valid()
      ensures locked == old(locked)
      ensures r == AddBlocked <==> os.mapMeta && old(locked)
      ensures r == Added <==> os.mapMeta && !old(locked) && AppendSucceeds(os, old(pages))
      ensures r == Added ==> pages == Appended(old(pages), Edge(childPid, parentPid))
      ensures r != Added ==>
        pages == old(pages) + (if os.mapMeta && !old(locked) && AppendLeavesEmptyPage(os, old(pages)) then [EmptyPage()] else [])
    {
      var e := Edge(childPid, parentPid);
      if !os.mapMeta {
        return AddFailed;
      }
      if locked {
        return AddBlocked;
      }
      locked := true;
      if numberOfPages == 0 {
        var grown := Grow(os.resize);
        if !grown {
          locked := false;
          return AddFailed;
        }
        assert FirstEmpty(EmptyPage()) == 0;
      }
      if !os.mapPages {
        locked := false;
        return AddFailed;
      }
      var ok := InsertIntoLastPage(os, e);
      locked := false;
      r := if ok then Added else AddFailed;
    }
  }
}
