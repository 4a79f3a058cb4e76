/**
 * fork_tree_render_centralized_svg and fork_tree_render_dense_svg: take the lock, read
 * the pages, assemble the child lists, compute widths, run the line pass and the circle
 * pass over one canvas region, pad it, and release the lock. The two functions differ
 * only in the dense flag they pass down, so both are RenderSvg here.
 */
module Render {
  import opened BstMap
  import opened PageStore
  import opened Assembler
  import opened Widths
  import opened Layout
  import opened LayoutFacts

  /** The document: its viewBox, the connector layer and the circle layer, in drawing order. */
  datatype Svg = Svg(viewBox: Bounds, lines: seq<Shape>, circles: seq<Shape>)

  /**
   * 0 with a document, 0 with nothing written (no pages), -1, a wait that never ends, or
   * a crash in the final cleanup with the semaphore still held.
   */
  datatype RenderResult = Rendered(svg: Svg) | NothingWritten | RenderFailed | RenderBlocked | RenderCrashed

  /** The document for the tree adj rooted at root: both passes from (0, level 1), then the margin. */
  ghost function Picture(adj: map<int, seq<int>>, root: int, dense: bool, h: nat): Svg
    requires Bounded(adj, root, h)
  {
    var lines := Shapes(adj, root, 1, 0.0, true, dense, h);
    var circles := Shapes(adj, root, 1, 0.0, false, dense, h);
    Svg(Widened(Cover(Cover(Seed(), lines), circles), DocumentMargin), lines, circles)
  }

  /**
   * One render. os.mapMeta and os.mapPages are the answers of the two mmap calls; the
   * lock is the semaphore. With zero pages the function returns before releasing it.
   * When the root has no recorded child, get_width stores nothing, so the width map is
   * still NULL when the success path's cleanup dereferences it, and the process dies
   * before the semaphore is posted.
   */
  method RenderSvg(t: SharedTree, os: Os, dense: bool, ghost h: nat) returns (r: RenderResult)
    requires t.Valid()
    requires Bounded(AdjacencySpec(Edges(t.pages)), t.rootProcessId, h)
    modifies t
    ensures t.Valid() && t.pages == old(t.pages)
    ensures r == RenderBlocked <==> os.mapMeta && old(t.locked)
    ensures r == RenderBlocked ==> t.locked == old(t.locked)
    ensures !os.mapMeta ==> r == RenderFailed && t.locked == old(t.locked)
    ensures os.mapMeta && !old(t.locked) ==>
      if t.pages == [] then r == NothingWritten && t.locked
      else if !os.mapPages then r == RenderFailed && !t.locked
      else if t.rootProcessId !in AdjacencySpec(Edges(t.pages)) then r == RenderCrashed && t.locked
      else r == Rendered(Picture(AdjacencySpec(Edges(t.pages)), t.rootProcessId, dense, h)) && !t.locked
  {
    if !os.mapMeta {
      return RenderFailed;
    }
    if t.locked {
      return RenderBlocked;
    }
    t.locked := true;
    if t.numberOfPages == 0 {
      return NothingWritten;
    }
    if !os.mapPages {
      t.locked := false;
      return RenderFailed;
    }
    var pages := t.pages;
    var root := t.rootProcessId;
    ghost var adj := AdjacencySpec(Edges(pages));
    var cm := Assemble(pages);
    AdjacencyListsNonEmpty(Edges(pages));
    var memo: Tree<real> := Leaf;
    var rootWidth;
    rootWidth, memo := GetWidth(memo, cm, root, dense, adj, h, h);
    var region := new CanvasRegion();
    var lines, circles;
    lines, memo := RenderTree(memo, cm, region, root, 1, 0.0, true, dense, adj, h, h);
    circles, memo := RenderTree(memo, cm, region, root, 1, 0.0, false, dense, adj, h, h);
    region.AddMargin();
    // fork_tree_render_cleanup: the width map is empty exactly when the root has no list
    GetView(cm, root);
    if Get(cm, root).None? {
      return RenderCrashed;
    }
    r := Rendered(Svg(region.Current(), lines, circles));
    t.locked := false;
  }

  /** The line pass leaves the region alone, so the viewBox is the circles' box plus the margin. */
  lemma ViewBoxOfCircles(adj: map<int, seq<int>>, root: int, dense: bool, h: nat)
    requires Bounded(adj, root, h)
    ensures Picture(adj, root, dense, h).viewBox == Widened(Cover(Seed(), Picture(adj, root, dense, h).circles), DocumentMargin)
    ensures forall k :: 0 <= k < |Picture(adj, root, dense, h).lines| ==> Picture(adj, root, dense, h).lines[k].Line?
    ensures forall k :: 0 <= k < |Picture(adj, root, dense, h).circles| ==> Picture(adj, root, dense, h).circles[k].Circle?
  {
    LinePassKeepsRegion(adj, root, dense, h);
    PassKinds(adj, root, 1, 0.0, true, dense, h);
    PassKinds(adj, root, 1, 0.0, false, dense, h);
  }

  /** A root with children is drawn at (0, 30), so the viewBox starts DOCUMENT_MARGIN above y = 0. */
  lemma RenderedTopEdge(adj: map<int, seq<int>>, root: int, dense: bool, h: nat)
    requires Bounded(adj, root, h) && root in adj
    ensures Picture(adj, root, dense, h).viewBox.minY == Fin(-DocumentMargin)
  {
    ViewBoxOfCircles(adj, root, dense, h);
    TopEdge(adj, root, dense, h);
  }

  /**
   * The viewBox is the smallest box around the circles, padded by DOCUMENT_MARGIN: the
   * unpadded box encloses every circle, each of its sides touches one, and the viewBox
   * keeps its infinite seed exactly when no circle is drawn.
   */
  lemma ViewBoxFitsCircles(adj: map<int, seq<int>>, root: int, dense: bool, h: nat)
    requires Bounded(adj, root, h)
    ensures var p := Picture(adj, root, dense, h);
      var box := Cover(Seed(), p.circles);
      && p.viewBox == Widened(box, DocumentMargin)
      && Tight(box, p.circles)
      && (forall k :: 0 <= k < |p.circles| ==> p.circles[k].Circle? && Encloses(box, p.circles[k].cx, p.circles[k].cy))
      && (p.viewBox == Seed() <==> p.circles == [])
  {
    var p := Picture(adj, root, dense, h);
    ViewBoxOfCircles(adj, root, dense, h);
    CoverFromSeed(p.circles);
    if p.circles != [] {
      assert !p.circles[0].Line?;
    }
  }

  /**
   * A root without a recorded child draws nothing: render_tree returns before the
   * root's circle, and the viewBox keeps its infinite seed.
   */
  lemma ChildlessRootDrawsNothing(adj: map<int, seq<int>>, root: int, dense: bool, h: nat)
    requires Bounded(adj, root, h) && root !in adj
    ensures Picture(adj, root, dense, h) == Svg(Seed(), [], [])
  {
  }

  /**
   * A tree that never recorded a fork has no pages: the render writes nothing and keeps
   * the semaphore, so the next fork_tree_add_node waits on it.
   */
  method RenderOfUnforkedTree(root: int, child: int, os: Os, dense: bool) returns (r: RenderResult, a: AddResult)
    requires os.mapMeta
    ensures r == NothingWritten && a == AddBlocked
  {
    var t := new SharedTree(root);
    assert AdjacencySpec(Edges(t.pages)) == map[];
    r := RenderSvg(t, os, dense, 0);
    a := t.AddNode(os, root, child);
  }
}
