/**
 * render_tree from fork_tree.c: where every circle and connector goes, and the
 * canvas region (bounding box) kept while the circles are placed.
 * The SVG text itself is not modelled; a pass produces the list of draw commands
 * (Shape values carrying the coordinates handed to create_circle / create_line), in
 * the order the source issues them.
 */
module Layout {
  import opened Wrappers
  import opened BstMap
  import opened LinkedLists
  import opened Assembler
  import opened Widths

  const CircleMarginY: real := 80.0
  const DocumentMargin: real := 40.0

  /** A coordinate bound that may still hold the INFINITY / -INFINITY seed. */
  datatype Ext = NegInf | Fin(v: real) | PosInf

  /** e > v, the test of the region updates. */
  predicate Exceeds(e: Ext, v: real)
  {
    e.PosInf? || (e.Fin? && e.v > v)
  }

  predicate Below(e: Ext, v: real)
  {
    e.NegInf? || (e.Fin? && e.v < v)
  }

  /** e <= v, with the infinities ordered as usual. */
  predicate AtMost(e: Ext, v: real)
  {
    !Exceeds(e, v)
  }

  predicate AtLeast(e: Ext, v: real)
  {
    !Below(e, v)
  }

  /** e + d, infinities absorbing. */
  function Shift(e: Ext, d: real): Ext
  {
    match e
    case Fin(v) => Fin(v + d)
    case _ => e
  }

  /** canvas_region_t as a value. */
  datatype Bounds = Bounds(minX: Ext, minY: Ext, maxX: Ext, maxY: Ext)

  /** The seed of the render functions: min at +INFINITY, max at -INFINITY. */
  function Seed(): Bounds
  {
    Bounds(PosInf, PosInf, NegInf, NegInf)
  }

  /** The four region updates made after drawing a circle centred at (cx, cy). */
  function IncludeCircle(b: Bounds, cx: real, cy: real): Bounds
  {
    var r := CircleSize / 2.0;
    Bounds(
      if Exceeds(b.minX, cx - r) then Fin(cx - r) else b.minX,
      if Exceeds(b.minY, cy - r) then Fin(cy - r) else b.minY,
      if Below(b.maxX, cx + r) then Fin(cx + r) else b.maxX,
      if Below(b.maxY, cy + r) then Fin(cy + r) else b.maxY)
  }

  /** b encloses the circle of radius CircleSize / 2 centred at (cx, cy). */
  predicate Encloses(b: Bounds, cx: real, cy: real)
  {
    var r := CircleSize / 2.0;
    AtMost(b.minX, cx - r) && AtMost(b.minY, cy - r) && AtLeast(b.maxX, cx + r) && AtLeast(b.maxY, cy + r)
  }

  /** outer encloses everything inner does. */
  predicate Contains(outer: Bounds, inner: Bounds)
  {
    && (inner.minX.Fin? ==> AtMost(outer.minX, inner.minX.v)) && (inner.minX.NegInf? ==> outer.minX.NegInf?)
    && (inner.minY.Fin? ==> AtMost(outer.minY, inner.minY.v)) && (inner.minY.NegInf? ==> outer.minY.NegInf?)
    && (inner.maxX.Fin? ==> AtLeast(outer.maxX, inner.maxX.v)) && (inner.maxX.PosInf? ==> outer.maxX.PosInf?)
    && (inner.maxY.Fin? ==> AtLeast(outer.maxY, inner.maxY.v)) && (inner.maxY.PosInf? ==> outer.maxY.PosInf?)
  }

  /** DOCUMENT_MARGIN padding on every side. */
  function Widened(b: Bounds, m: real): Bounds
  {
    Bounds(Shift(b.minX, -m), Shift(b.minY, -m), Shift(b.maxX, m), Shift(b.maxY, m))
  }

  /** The coordinates passed to create_circle (shadow, disc and label) or create_line. */
  datatype Shape =
    | Circle(node: int, cx: real, cy: real)
    | Line(px: real, py: real, x: real, y: real, isLast: bool)

  /** The region after placing shapes in order: circles widen it, connectors leave it alone. */
  function Cover(b: Bounds, shapes: seq<Shape>): Bounds
  {
    if shapes == [] then b
    else
      var s := shapes[|shapes| - 1];
      var prev := Cover(b, shapes[..|shapes| - 1]);
      if s.Circle? then IncludeCircle(prev, s.cx, s.cy) else prev
  }

  /** The centre row of a level: level 1 is the root's row; rows are CIRCLE_SIZE + CIRCLE_MARGIN_Y apart. */
  function RowY(level: int): real
  {
    CircleSize / 2.0 + (CircleSize + CircleMarginY) * (level - 1) as real
  }

  /** The centralized slot width, size / n; dense layout uses no slots. */
  function Step(size: real, n: nat, dense: bool): real
  {
    if dense || n == 0 then 0.0 else size / n as real
  }

  /**
   * Centre of child i of a parent centred at baseX taking room size: dense children
   * follow each other CIRCLE_MARGIN_X apart, centralized children sit step apart.
   */
  function ChildX(ws: seq<real>, i: nat, size: real, baseX: real, dense: bool): real
    requires i < |ws|
  {
    var step := Step(size, |ws|, dense);
    var offset := baseX - size / 2.0 - step / 2.0;
    if dense then offset + Sum(ws[..i]) + CircleMarginX * i as real + ws[i] / 2.0
    else offset + step * (i + 1) as real
  }

  /**
   * The draw commands of render_tree(node, level, baseX, isLine, dense), in issue order:
   * a node without a child list draws nothing; the root's own circle comes first in the
   * circle pass at level 1; then each child's circle or connector, followed by its subtree.
   */
  ghost function Shapes(adj: map<int, seq<int>>, node: int, level: int, baseX: real,
                        isLine: bool, dense: bool, h: nat): seq<Shape>
    requires Bounded(adj, node, h)
    decreases h, 1
  {
    if node !in adj then []
    else
      (if !isLine && level == 1 then [Circle(node, baseX, RowY(level))] else [])
      + ChildShapes(adj, node, level, baseX, isLine, dense, h, |adj[node]|)
  }

  /** The commands for the first k children of node. */
  ghost function ChildShapes(adj: map<int, seq<int>>, node: int, level: int, baseX: real,
                             isLine: bool, dense: bool, h: nat, k: nat): seq<Shape>
    requires Bounded(adj, node, h) && node in adj && k <= |adj[node]|
    decreases h, 0, k
  {
    if k == 0 then []
    else
      var cs := adj[node];
      var i := k - 1;
      assert cs[i] in cs;
      var x := ChildX(ChildWidths(adj, cs, dense, h - 1), i, Width(adj, node, dense, h), baseX, dense);
      ChildShapes(adj, node, level, baseX, isLine, dense, h, i)
      + [ChildShape(cs[i], baseX, RowY(level), x, RowY(level + 1), i == |cs| - 1, isLine)]
      + Shapes(adj, cs[i], level + 1, x, isLine, dense, h - 1)
  }

  /** A child's own command: its connector from the parent in the line pass, its circle otherwise. */
  function ChildShape(child: int, px: real, py: real, x: real, y: real, isLast: bool, isLine: bool): Shape
  {
    if isLine then Line(px, py, x, y, isLast) else Circle(child, x, y)
  }

  /** canvas_region_t, updated in place by render_tree. */
  class CanvasRegion {
    var minX: Ext
    var minY: Ext
    var maxX: Ext
    var maxY: Ext

    function Current(): Bounds
      reads this
    {
      Bounds(minX, minY, maxX, maxY)
    }

    /** The initialiser of the render functions. */
    constructor ()
      ensures Current() == Seed()
    {
      minX, minY, maxX, maxY := PosInf, PosInf, NegInf, NegInf;
    }

    /** After a circle at (cx, cy): lower the minima and raise the maxima to its edges. */
    method Include(cx: real, cy: real)
      modifies this
      ensures Current() == IncludeCircle(old(Current()), cx, cy)
    {
      var half := CircleSize / 2.0;
      var lowX, highX := cx - half, cx + half;
      if Exceeds(minX, lowX) {
        minX := Fin(lowX);
      }
      if Below(maxX, highX) {
        maxX := Fin(highX);
      }
      var lowY, highY := cy - half, cy + half;
      if Exceeds(minY, lowY) {
        minY := Fin(lowY);
      }
      if Below(maxY, highY) {
        maxY := Fin(highY);
      }
    }

    /** The DOCUMENT_MARGIN padding after both passes. */
    method AddMargin()
      modifies this
      ensures Current() == Widened(old(Current()), DocumentMargin)
    {
      maxX := Shift(maxX, DocumentMargin);
      maxY := Shift(maxY, DocumentMargin);
      minX := Shift(minX, -DocumentMargin);
      minY := Shift(minY, -DocumentMargin);
    }
  }

  /** One more child: its own command, then its subtree, come after the earlier children's. */
  lemma ChildShapesNext(adj: map<int, seq<int>>, node: int, level: int, baseX: real,
                        isLine: bool, dense: bool, h: nat, i: nat, x: real)
    requires Bounded(adj, node, h) && node in adj && i < |adj[node]|
    requires x == ChildX(ChildWidths(adj, adj[node], dense, h - 1), i, Width(adj, node, dense, h), baseX, dense)
    ensures Bounded(adj, adj[node][i], h - 1)
    ensures ChildShapes(adj, node, level, baseX, isLine, dense, h, i + 1) ==
      ChildShapes(adj, node, level, baseX, isLine, dense, h, i)
      + ([ChildShape(adj[node][i], baseX, RowY(level), x, RowY(level + 1), i == |adj[node]| - 1, isLine)]
         + Shapes(adj, adj[node][i], level + 1, x, isLine, dense, h - 1))
  {
    assert adj[node][i] in adj[node];
    var a := ChildShapes(adj, node, level, baseX, isLine, dense, h, i);
    var s := [ChildShape(adj[node][i], baseX, RowY(level), x, RowY(level + 1), i == |adj[node]| - 1, isLine)];
    var t := Shapes(adj, adj[node][i], level + 1, x, isLine, dense, h - 1);
    assert a + s + t == a + (s + t);
  }

  /** The loop's running offset yields ChildX: dense offsets advance by a width plus the margin. */
  lemma ChildXFromOffset(ws: seq<real>, i: nat, size: real, baseX: real, dense: bool,
                         offset: real, step: real, offsetX: real, childSize: real)
    requires i < |ws| && childSize == ws[i] && step == Step(size, |ws|, dense)
    requires offset == baseX - size / 2.0 - step / 2.0
    requires dense ==> offsetX == offset + Sum(ws[..i]) + CircleMarginX * i as real
    requires !dense ==> offsetX == offset
    ensures dense ==> ChildX(ws, i, size, baseX, dense) == offsetX + childSize / 2.0
    ensures !dense ==> ChildX(ws, i, size, baseX, dense) == offsetX + step * (i + 1) as real
    ensures dense ==> offsetX + childSize + CircleMarginX == offset + Sum(ws[..i + 1]) + CircleMarginX * (i + 1) as real
  {
    assert ws[..i + 1][..i] == ws[..i];
  }

  lemma {:induction false} CoverAppend(b: Bounds, s: seq<Shape>, t: seq<Shape>)
    ensures Cover(b, s + t) == Cover(Cover(b, s), t)
    decreases |t|
  {
    if t == [] {
      assert s + t == s;
    } else {
      var n := |t| - 1;
      CoverAppend(b, s, t[..n]);
      assert (s + t)[..|s + t| - 1] == s + t[..n];
      assert (s + t)[|s + t| - 1] == t[n];
    }
  }

  /**
   * render_tree: nothing for a node without a child list; otherwise its width (from the
   * memo), the slot step, the root circle at level 1 when drawing circles, then the child
   * loop. The commands issued are Shapes(...) and the region is covered by them.
   */
  method RenderTree(memo: Tree<real>, cm: Tree<LinkedList>, region: CanvasRegion, node: int, level: int,
                    baseX: real, isLine: bool, dense: bool,
                    ghost adj: map<int, seq<int>>, ghost h: nat, ghost bound: nat)
    returns (drawn: seq<Shape>, memo': Tree<real>)
    requires ChildMap(cm, adj) && NonEmptyLists(adj) && Bounded(adj, node, h) && h <= bound
    requires forall l :: l in View(cm).Values ==> allocated(l)
    requires MemoSound(memo, adj, dense, bound)
    modifies region
    ensures drawn == Shapes(adj, node, level, baseX, isLine, dense, h)
    ensures region.Current() == Cover(old(region.Current()), drawn)
    ensures MemoSound(memo', adj, dense, bound)
    decreases h, 2
  {
    GetView(cm, node);
    var children := Get(cm, node);
    if children.None? {
      return [], memo;
    }
    var list := children.value;
    assert list in View(cm).Values;
    var size;
    size, memo' := GetWidth(memo, cm, node, dense, adj, h, bound);
    var step := 0.0;
    if !dense {
      step := size / list.size as real;
    }
    var offsetX := baseX - size / 2.0 - step / 2.0;
    var isRoot := level == 1;
    var parentY := CircleSize / 2.0 + (CircleSize + CircleMarginY) * (level - 1) as real;
    drawn := [];
    if !isLine && isRoot {
      drawn := [Circle(node, baseX, parentY)];
      region.Include(baseX, parentY);
    }
    ghost var start := drawn;
    var rest;
    rest, memo' := RenderChildren(memo', cm, region, list, node, level, baseX, size, offsetX, step, isLine, dense, adj, h, bound);
    CoverAppend(old(region.Current()), start, rest);
    drawn := drawn + rest;
  }

  /** The child loop of render_tree. */
  method RenderChildren(memo: Tree<real>, cm: Tree<LinkedList>, region: CanvasRegion, list: LinkedList,
                        node: int, level: int, baseX: real, size: real, offset: real, step: real,
                        isLine: bool, dense: bool,
                        ghost adj: map<int, seq<int>>, ghost h: nat, ghost bound: nat)
    returns (drawn: seq<Shape>, memo': Tree<real>)
    requires ChildMap(cm, adj) && NonEmptyLists(adj) && Bounded(adj, node, h) && h <= bound && node in adj
    requires forall l :: l in View(cm).Values ==> allocated(l)
    requires list in View(cm).Values && list.items == adj[node] && list.size == |adj[node]|
    requires MemoSound(memo, adj, dense, bound)
    requires size == Width(adj, node, dense, h) && step == Step(size, |adj[node]|, dense)
    requires offset == baseX - size / 2.0 - step / 2.0
    modifies region
    ensures drawn == ChildShapes(adj, node, level, baseX, isLine, dense, h, |adj[node]|)
    ensures region.Current() == Cover(old(region.Current()), drawn)
    ensures MemoSound(memo', adj, dense, bound)
    decreases h, 1
  {
    var cs := list.items;
    ghost var ws := ChildWidths(adj, cs, dense, h - 1);
    assert |ws| == |cs| && Step(size, |ws|, dense) == step;
    var offsetX := offset;
    drawn := [];
    memo' := memo;
    var i := 0;
    while i < |cs|
      invariant 0 <= i <= |cs|
      invariant cs == adj[node] && |ws| == |cs|
      invariant drawn == ChildShapes(adj, node, level, baseX, isLine, dense, h, i)
      invariant dense ==> offsetX == offset + Sum(ws[..i]) + CircleMarginX * i as real
      invariant !dense ==> offsetX == offset
      invariant region.Current() == Cover(old(region.Current()), drawn)
      invariant MemoSound(memo', adj, dense, bound)
    {
      var x;
      x, offsetX, memo' := PlaceChild(memo', cm, cs, i, size, baseX, offset, step, offsetX, dense, adj, ws, h, bound);
      ChildShapesNext(adj, node, level, baseX, isLine, dense, h, i, x);
      var one;
      one, memo' := DrawChild(memo', cm, region, cs[i], level, baseX, x, i == |cs| - 1, isLine, dense, adj, h - 1, bound);
      CoverAppend(old(region.Current()), drawn, one);
      drawn := drawn + one;
      i := i + 1;
    }
  }

  /**
   * The start of one pass of render_tree's child loop: the child's width, its centre x
   * (after the running offset in dense mode, one step further in centralized mode) and
   * the offset for the next child.
   */
  method PlaceChild(memo: Tree<real>, cm: Tree<LinkedList>, cs: seq<int>, i: nat, size: real, baseX: real,
                    offset: real, step: real, offsetX: real, dense: bool,
                    ghost adj: map<int, seq<int>>, ghost ws: seq<real>, ghost h: nat, ghost bound: nat)
    returns (x: real, offsetX': real, memo': Tree<real>)
    requires ChildMap(cm, adj) && 0 < h <= bound && i < |cs|
    requires forall c :: c in cs ==> Bounded(adj, c, h - 1)
    requires forall l :: l in View(cm).Values ==> allocated(l)
    requires MemoSound(memo, adj, dense, bound)
    requires ws == ChildWidths(adj, cs, dense, h - 1) && step == Step(size, |ws|, dense)
    requires offset == baseX - size / 2.0 - step / 2.0
    requires dense ==> offsetX == offset + Sum(ws[..i]) + CircleMarginX * i as real
    requires !dense ==> offsetX == offset
    ensures x == ChildX(ws, i, size, baseX, dense)
    ensures dense ==> offsetX' == offset + Sum(ws[..i + 1]) + CircleMarginX * (i + 1) as real
    ensures !dense ==> offsetX' == offset
    ensures MemoSound(memo', adj, dense, bound)
    decreases h - 1, 2
  {
    assert cs[i] in cs;
    var childSize;
    childSize, memo' := GetWidth(memo, cm, cs[i], dense, adj, h - 1, bound);
    ChildWidthsAt(adj, cs, dense, h - 1, i);
    ChildXFromOffset(ws, i, size, baseX, dense, offset, step, offsetX, childSize);
    offsetX' := offsetX;
    if dense {
      x := offsetX' + childSize / 2.0;
      offsetX' := offsetX' + childSize + CircleMarginX;
    } else {
      x := offsetX' + step * (i + 1) as real;
    }
  }

  /**
   * One pass of the child loop after the child's centre x is known: the child's
   * connector (line pass) or its circle and the region update (circle pass), then the
   * recursive call for the child's own subtree one level down.
   */
  method DrawChild(memo: Tree<real>, cm: Tree<LinkedList>, region: CanvasRegion, child: int, level: int,
                   baseX: real, x: real, isLast: bool, isLine: bool, dense: bool,
                   ghost adj: map<int, seq<int>>, ghost h: nat, ghost bound: nat)
    returns (drawn: seq<Shape>, memo': Tree<real>)
    requires ChildMap(cm, adj) && NonEmptyLists(adj) && Bounded(adj, child, h) && h <= bound
    requires forall l :: l in View(cm).Values ==> allocated(l)
    requires MemoSound(memo, adj, dense, bound)
    modifies region
    ensures drawn == [ChildShape(child, baseX, RowY(level), x, RowY(level + 1), isLast, isLine)]
      + Shapes(adj, child, level + 1, x, isLine, dense, h)
    ensures region.Current() == Cover(old(region.Current()), drawn)
    ensures MemoSound(memo', adj, dense, bound)
    decreases h, 3
  {
    var parentY := CircleSize / 2.0 + (CircleSize + CircleMarginY) * (level - 1) as real;
    var y := CircleSize / 2.0 + (CircleSize + CircleMarginY) * level as real;
    var shape := ChildShape(child, baseX, parentY, x, y, isLast, isLine);
    if !isLine {
      region.Include(x, y);
    }
    assert region.Current() == Cover(old(region.Current()), [shape]);
    var sub;
    sub, memo' := RenderTree(memo, cm, region, child, level + 1, x, isLine, dense, adj, h, bound);
    CoverAppend(old(region.Current()), [shape], sub);
    drawn := [shape] + sub;
  }
}

module LayoutFacts {
  import opened BstMap
  import opened Widths
  import opened Layout

  // ---------------------------------------------------------------------------
  // What each pass draws

  /** The line pass issues only connectors, the circle pass only circles. */
  lemma {:induction false} PassKinds(adj: map<int, seq<int>>, node: int, level: int, baseX: real,
                                     isLine: bool, dense: bool, h: nat)
    requires Bounded(adj, node, h)
    ensures forall k :: 0 <= k < |Shapes(adj, node, level, baseX, isLine, dense, h)| ==>
      Shapes(adj, node, level, baseX, isLine, dense, h)[k].Line? == isLine
    decreases h, 1
  {
    if node in adj {
      ChildPassKinds(adj, node, level, baseX, isLine, dense, h, |adj[node]|);
    }
  }

  lemma {:induction false} ChildPassKinds(adj: map<int, seq<int>>, node: int, level: int, baseX: real,
                                          isLine: bool, dense: bool, h: nat, k: nat)
    requires Bounded(adj, node, h) && node in adj && k <= |adj[node]|
    ensures forall j :: 0 <= j < |ChildShapes(adj, node, level, baseX, isLine, dense, h, k)| ==>
      ChildShapes(adj, node, level, baseX, isLine, dense, h, k)[j].Line? == isLine
    decreases h, 0, k
  {
    if k > 0 {
      var cs := adj[node];
      var i := k - 1;
      assert cs[i] in cs;
      var x := ChildX(ChildWidths(adj, cs, dense, h - 1), i, Width(adj, node, dense, h), baseX, dense);
      ChildPassKinds(adj, node, level, baseX, isLine, dense, h, i);
      PassKinds(adj, cs[i], level + 1, x, isLine, dense, h - 1);
    }
  }

  /** Connectors leave the region as it was. */
  lemma {:induction false} CoverIgnoresLines(b: Bounds, s: seq<Shape>)
    requires forall k :: 0 <= k < |s| ==> s[k].Line?
    ensures Cover(b, s) == b
  {
    if s != [] {
      CoverIgnoresLines(b, s[..|s| - 1]);
    }
  }

  /** So after the line pass the region still holds its seed. */
  lemma LinePassKeepsRegion(adj: map<int, seq<int>>, root: int, dense: bool, h: nat)
    requires Bounded(adj, root, h)
    ensures Cover(Seed(), Shapes(adj, root, 1, 0.0, true, dense, h)) == Seed()
  {
    PassKinds(adj, root, 1, 0.0, true, dense, h);
    CoverIgnoresLines(Seed(), Shapes(adj, root, 1, 0.0, true, dense, h));
  }

  // ---------------------------------------------------------------------------
  // The region encloses every circle

  lemma IncludeCircleGrows(b: Bounds, cx: real, cy: real)
    ensures Contains(IncludeCircle(b, cx, cy), b)
    ensures Encloses(IncludeCircle(b, cx, cy), cx, cy)
  {
  }

  lemma ContainsTrans(a: Bounds, b: Bounds, c: Bounds)
    requires Contains(a, b) && Contains(b, c)
    ensures Contains(a, c)
  {
  }

  lemma ContainsEncloses(a: Bounds, b: Bounds, cx: real, cy: real)
    requires Contains(a, b) && Encloses(b, cx, cy)
    ensures Encloses(a, cx, cy)
  {
  }

  /** The region after shapes contains where it started and every circle among them. */
  lemma {:induction false} CoverContains(b: Bounds, s: seq<Shape>)
    ensures Contains(Cover(b, s), b)
    ensures forall k :: 0 <= k < |s| && s[k].Circle? ==> Encloses(Cover(b, s), s[k].cx, s[k].cy)
  {
    if s == [] {
      assert Cover(b, s) == b;
    } else {
      var n := |s| - 1;
      var prev := Cover(b, s[..n]);
      CoverContains(b, s[..n]);
      if s[n].Circle? {
        IncludeCircleGrows(prev, s[n].cx, s[n].cy);
        ContainsTrans(Cover(b, s), prev, b);
        forall k | 0 <= k < n && s[k].Circle? ensures Encloses(Cover(b, s), s[k].cx, s[k].cy) {
          assert s[..n][k] == s[k];
          ContainsEncloses(Cover(b, s), prev, s[k].cx, s[k].cy);
        }
      } else {
        forall k | 0 <= k < n && s[k].Circle? ensures Encloses(Cover(b, s), s[k].cx, s[k].cy) {
          assert s[..n][k] == s[k];
        }
      }
    }
  }

  /** Every finite side of the region is the edge of one of the circles placed. */
  ghost predicate Tight(b: Bounds, s: seq<Shape>)
  {
    var r := CircleSize / 2.0;
    && (b.minX.Fin? ==> exists k :: 0 <= k < |s| && s[k].Circle? && b.minX.v == s[k].cx - r)
    && (b.minY.Fin? ==> exists k :: 0 <= k < |s| && s[k].Circle? && b.minY.v == s[k].cy - r)
    && (b.maxX.Fin? ==> exists k :: 0 <= k < |s| && s[k].Circle? && b.maxX.v == s[k].cx + r)
    && (b.maxY.Fin? ==> exists k :: 0 <= k < |s| && s[k].Circle? && b.maxY.v == s[k].cy + r)
    && (b.minX.Fin? || b.minY.Fin? || b.maxX.Fin? || b.maxY.Fin? ==> b.minX.Fin? && b.minY.Fin? && b.maxX.Fin? && b.maxY.Fin?)
    && !b.minX.NegInf? && !b.minY.NegInf? && !b.maxX.PosInf? && !b.maxY.PosInf?
  }

  lemma TightSnoc(b: Bounds, s: seq<Shape>, t: Shape)
    requires Tight(b, s)
    ensures Tight(if t.Circle? then IncludeCircle(b, t.cx, t.cy) else b, s + [t])
  {
    var s' := s + [t];
    assert forall k :: 0 <= k < |s| ==> s'[k] == s[k];
    assert s'[|s|] == t;
  }

  /**
   * Starting from the seed, the region is the smallest box around the circles placed:
   * it encloses each one, each finite side touches one, and it stays at the seed
   * exactly when there is no circle at all.
   */
  lemma {:induction false} CoverFromSeed(s: seq<Shape>)
    ensures Tight(Cover(Seed(), s), s)
    ensures forall k :: 0 <= k < |s| && s[k].Circle? ==> Encloses(Cover(Seed(), s), s[k].cx, s[k].cy)
    ensures Cover(Seed(), s) == Seed() <==> forall k :: 0 <= k < |s| ==> s[k].Line?
  {
    CoverContains(Seed(), s);
    if s != [] {
      var n := |s| - 1;
      CoverFromSeed(s[..n]);
      assert s == s[..n] + [s[n]];
      TightSnoc(Cover(Seed(), s[..n]), s[..n], s[n]);
      if Cover(Seed(), s[..n]) == Seed() && s[n].Line? {
        forall k | 0 <= k < |s| ensures s[k].Line? {
          if k < n {
            assert s[..n][k] == s[k];
          }
        }
      }
      if exists k :: 0 <= k < |s[..n]| && s[..n][k].Circle? {
        var k :| 0 <= k < |s[..n]| && s[..n][k].Circle?;
        assert s[k].Circle?;
      }
    }
  }

  // ---------------------------------------------------------------------------
  // The two passes agree: every connector ends at the centre of a circle

  /** Connector k of one list ends where circle k of the other is centred. */
  ghost predicate Agree(lines: seq<Shape>, circles: seq<Shape>)
  {
    && |lines| == |circles|
    && forall k :: 0 <= k < |lines| ==>
         lines[k].Line? && circles[k].Circle? && lines[k].x == circles[k].cx && lines[k].y == circles[k].cy
  }

  lemma AgreeAppend(l1: seq<Shape>, c1: seq<Shape>, l2: seq<Shape>, c2: seq<Shape>)
    requires Agree(l1, c1) && Agree(l2, c2)
    ensures Agree(l1 + l2, c1 + c2)
  {
    forall k | 0 <= k < |l1 + l2|
      ensures (l1 + l2)[k].Line? && (c1 + c2)[k].Circle?
      ensures (l1 + l2)[k].x == (c1 + c2)[k].cx && (l1 + l2)[k].y == (c1 + c2)[k].cy
    {
      if k >= |l1| {
        assert (l1 + l2)[k] == l2[k - |l1|] && (c1 + c2)[k] == c2[k - |c1|];
      }
    }
  }

  /** Below the root, the line pass and the circle pass place the same points in the same order. */
  lemma {:induction false} PassesAgree(adj: map<int, seq<int>>, node: int, level: int, baseX: real, dense: bool, h: nat)
    requires Bounded(adj, node, h) && level >= 2
    ensures Agree(Shapes(adj, node, level, baseX, true, dense, h), Shapes(adj, node, level, baseX, false, dense, h))
    decreases h, 1
  {
    if node in adj {
      ChildPassesAgree(adj, node, level, baseX, dense, h, |adj[node]|);
      assert Shapes(adj, node, level, baseX, false, dense, h) == [] + ChildShapes(adj, node, level, baseX, false, dense, h, |adj[node]|);
      assert Shapes(adj, node, level, baseX, true, dense, h) == [] + ChildShapes(adj, node, level, baseX, true, dense, h, |adj[node]|);
    }
  }

  lemma {:induction false} ChildPassesAgree(adj: map<int, seq<int>>, node: int, level: int, baseX: real,
                                            dense: bool, h: nat, k: nat)
    requires Bounded(adj, node, h) && node in adj && k <= |adj[node]| && level >= 1
    ensures Agree(ChildShapes(adj, node, level, baseX, true, dense, h, k),
                  ChildShapes(adj, node, level, baseX, false, dense, h, k))
    decreases h, 0, k
  {
    if k > 0 {
      var cs := adj[node];
      var i := k - 1;
      assert cs[i] in cs;
      var x := ChildX(ChildWidths(adj, cs, dense, h - 1), i, Width(adj, node, dense, h), baseX, dense);
      ChildPassesAgree(adj, node, level, baseX, dense, h, i);
      PassesAgree(adj, cs[i], level + 1, x, dense, h - 1);
      var y := RowY(level + 1);
      AgreeAppend(ChildShapes(adj, node, level, baseX, true, dense, h, i),
                  ChildShapes(adj, node, level, baseX, false, dense, h, i),
                  [Line(baseX, RowY(level), x, y, i == |cs| - 1)], [Circle(cs[i], x, y)]);
      AgreeAppend(ChildShapes(adj, node, level, baseX, true, dense, h, i) + [Line(baseX, RowY(level), x, y, i == |cs| - 1)],
                  ChildShapes(adj, node, level, baseX, false, dense, h, i) + [Circle(cs[i], x, y)],
                  Shapes(adj, cs[i], level + 1, x, true, dense, h - 1),
                  Shapes(adj, cs[i], level + 1, x, false, dense, h - 1));
    }
  }

  /**
   * At the root the circle pass adds just the root's own circle in front; otherwise
   * each connector the line pass draws ends on the circle drawn for its child.
   */
  lemma RootPassesAgree(adj: map<int, seq<int>>, root: int, dense: bool, h: nat)
    requires Bounded(adj, root, h) && root in adj
    ensures Shapes(adj, root, 1, 0.0, false, dense, h)[0] == Circle(root, 0.0, RowY(1))
    ensures Agree(Shapes(adj, root, 1, 0.0, true, dense, h), Shapes(adj, root, 1, 0.0, false, dense, h)[1..])
  {
    ChildPassesAgree(adj, root, 1, 0.0, dense, h, |adj[root]|);
    var c := ChildShapes(adj, root, 1, 0.0, false, dense, h, |adj[root]|);
    assert Shapes(adj, root, 1, 0.0, false, dense, h) == [Circle(root, 0.0, RowY(1))] + c;
    assert ([Circle(root, 0.0, RowY(1))] + c)[1..] == c;
    assert Shapes(adj, root, 1, 0.0, true, dense, h) == [] + ChildShapes(adj, root, 1, 0.0, true, dense, h, |adj[root]|);
  }

  // ---------------------------------------------------------------------------
  // Where the children of one parent go

  lemma SumPrefix(ws: seq<real>, i: nat)
    requires i < |ws|
    ensures Sum(ws[..i + 1]) == Sum(ws[..i]) + ws[i]
  {
    assert ws[..i + 1][..i] == ws[..i];
  }

  lemma {:induction false} SumPrefixBounds(ws: seq<real>, i: nat)
    requires i <= |ws| && forall j :: 0 <= j < |ws| ==> ws[j] >= 0.0
    ensures 0.0 <= Sum(ws[..i]) <= Sum(ws)
    decreases |ws| - i
  {
    assert forall j :: 0 <= j < i ==> ws[..i][j] == ws[j];
    SumNonNegative(ws[..i]);
    if i < |ws| {
      SumPrefix(ws, i);
      SumPrefixBounds(ws, i + 1);
    } else {
      assert ws[..i] == ws;
    }
  }

  lemma {:induction false} SumNonNegative(ws: seq<real>)
    requires forall j :: 0 <= j < |ws| ==> ws[j] >= 0.0
    ensures Sum(ws) >= 0.0
  {
    if ws != [] {
      SumNonNegative(ws[..|ws| - 1]);
    }
  }

  /**
   * Dense layout: the first child's left edge is the parent's left edge and the last
   * child's right edge is the parent's right edge, also for an only child.
   */
  lemma DenseEdges(ws: seq<real>, baseX: real)
    requires |ws| > 0
    ensures ChildX(ws, 0, FamilyWidth(ws, true), baseX, true) - ws[0] / 2.0 == baseX - FamilyWidth(ws, true) / 2.0
    ensures ChildX(ws, |ws| - 1, FamilyWidth(ws, true), baseX, true) + ws[|ws| - 1] / 2.0 == baseX + FamilyWidth(ws, true) / 2.0
  {
    var n := |ws| - 1;
    assert ws[..0] == [];
    SumPrefix(ws, n);
    assert ws[..n + 1] == ws;
  }

  /** Dense neighbours: exactly CIRCLE_MARGIN_X between their rooms, centres in list order. */
  lemma DenseRow(ws: seq<real>, baseX: real, i: nat)
    requires i + 1 < |ws| && forall j :: 0 <= j < |ws| ==> ws[j] >= 0.0
    ensures ChildX(ws, i + 1, FamilyWidth(ws, true), baseX, true) - ws[i + 1] / 2.0
         == ChildX(ws, i, FamilyWidth(ws, true), baseX, true) + ws[i] / 2.0 + CircleMarginX
    ensures ChildX(ws, i, FamilyWidth(ws, true), baseX, true) < ChildX(ws, i + 1, FamilyWidth(ws, true), baseX, true)
  {
    SumPrefix(ws, i);
  }

  /** Left edge of centralized slot i: slots of width step tile the parent's room. */
  function SlotLeft(size: real, n: nat, baseX: real, i: nat): real
  {
    baseX - size / 2.0 + Step(size, n, false) * i as real
  }

  /** Later slots start further right. */
  lemma SlotLeftMono(size: real, n: nat, baseX: real, i: nat, j: nat)
    requires Step(size, n, false) >= 0.0 && i <= j
    ensures SlotLeft(size, n, baseX, i) <= SlotLeft(size, n, baseX, j)
  {
    MulMonoNat(Step(size, n, false), i, j);
  }

  lemma MulMonoNat(a: real, i: nat, j: nat)
    requires a >= 0.0 && i <= j
    ensures a * i as real <= a * j as real
  {
    assert a * j as real - a * i as real == a * (j - i) as real;
  }

  /** The centralized step: n steps make up the parent's room, and one step fits the widest child. */
  lemma CentralizedStep(ws: seq<real>)
    requires |ws| > 0 && forall j :: 0 <= j < |ws| ==> ws[j] >= 0.0
    ensures Step(FamilyWidth(ws, false), |ws|, false) * |ws| as real == FamilyWidth(ws, false)
    ensures forall j :: 0 <= j < |ws| ==> ws[j] <= Step(FamilyWidth(ws, false), |ws|, false)
  {
    var n := |ws| as real;
    var size := FamilyWidth(ws, false);
    var m := MaxOf(ws);
    var step := size / n;
    MaxOfBounds(ws);
    assert step * n == size;
    assert size >= m * n;
    assert (step - m) * n >= 0.0;
  }

  /**
   * Centralized layout: the slots of width step run from the parent's left edge to its
   * right edge; child i is centred in slot i, a full step from its neighbours, and the row
   * is symmetric about baseX.
   */
  lemma CentralizedRow(ws: seq<real>, baseX: real, i: nat)
    requires i < |ws| && forall j :: 0 <= j < |ws| ==> ws[j] >= 0.0
    ensures SlotLeft(FamilyWidth(ws, false), |ws|, baseX, 0) == baseX - FamilyWidth(ws, false) / 2.0
    ensures SlotLeft(FamilyWidth(ws, false), |ws|, baseX, |ws|) == baseX + FamilyWidth(ws, false) / 2.0
    ensures ChildX(ws, i, FamilyWidth(ws, false), baseX, false)
         == (SlotLeft(FamilyWidth(ws, false), |ws|, baseX, i) + SlotLeft(FamilyWidth(ws, false), |ws|, baseX, i + 1)) / 2.0
    ensures i + 1 < |ws| ==>
      ChildX(ws, i + 1, FamilyWidth(ws, false), baseX, false) - ChildX(ws, i, FamilyWidth(ws, false), baseX, false)
        == Step(FamilyWidth(ws, false), |ws|, false)
    ensures ChildX(ws, 0, FamilyWidth(ws, false), baseX, false) + ChildX(ws, |ws| - 1, FamilyWidth(ws, false), baseX, false)
         == 2.0 * baseX
  {
    var n := |ws|;
    var step := Step(FamilyWidth(ws, false), n, false);
    CentralizedStep(ws);
    assert step * (i + 1) as real == step * i as real + step;
    assert step * (i + 2) as real == step * (i + 1) as real + step;
    assert step * n as real == step * (n - 1) as real + step;
  }

  /** A child stays inside its own centralized slot, so siblings' rooms never overlap. */
  lemma CentralizedChildInSlot(ws: seq<real>, baseX: real, i: nat)
    requires i < |ws| && forall j :: 0 <= j < |ws| ==> ws[j] >= 0.0
    ensures SlotLeft(FamilyWidth(ws, false), |ws|, baseX, i) <= ChildX(ws, i, FamilyWidth(ws, false), baseX, false) - ws[i] / 2.0
    ensures ChildX(ws, i, FamilyWidth(ws, false), baseX, false) + ws[i] / 2.0 <= SlotLeft(FamilyWidth(ws, false), |ws|, baseX, i + 1)
  {
    CentralizedRow(ws, baseX, i);
    CentralizedStep(ws);
    var step := Step(FamilyWidth(ws, false), |ws|, false);
    assert step * (i + 1) as real == step * i as real + step;
  }

  /** Each child's room lies inside its parent's room, in both modes. */
  lemma ChildWithinParent(ws: seq<real>, baseX: real, dense: bool, i: nat)
    requires i < |ws| && forall j :: 0 <= j < |ws| ==> ws[j] >= 0.0
    ensures baseX - FamilyWidth(ws, dense) / 2.0 <= ChildX(ws, i, FamilyWidth(ws, dense), baseX, dense) - ws[i] / 2.0
    ensures ChildX(ws, i, FamilyWidth(ws, dense), baseX, dense) + ws[i] / 2.0 <= baseX + FamilyWidth(ws, dense) / 2.0
  {
    var n := |ws|;
    if dense {
      SumPrefix(ws, i);
      SumPrefixBounds(ws, i);
      SumPrefixBounds(ws, i + 1);
      assert CircleMarginX * i as real <= CircleMarginX * (n - 1) as real;
    } else {
      var size := FamilyWidth(ws, false);
      var step := Step(size, n, false);
      CentralizedRow(ws, baseX, i);
      CentralizedChildInSlot(ws, baseX, i);
      CentralizedStep(ws);
      assert step >= 0.0;
      SlotLeftMono(size, n, baseX, 0, i);
      SlotLeftMono(size, n, baseX, i + 1, n);
    }
  }

  // ---------------------------------------------------------------------------
  // A subtree stays inside the room its width gives it, and below its row

  /** Every circle in s lies, with its radius, between lo and hi. */
  ghost predicate Within(s: seq<Shape>, lo: real, hi: real)
  {
    forall k :: 0 <= k < |s| && s[k].Circle? ==> lo <= s[k].cx - CircleSize / 2.0 && s[k].cx + CircleSize / 2.0 <= hi
  }

  lemma WithinAppend(s: seq<Shape>, t: seq<Shape>, lo: real, hi: real)
    requires Within(s, lo, hi) && Within(t, lo, hi)
    ensures Within(s + t, lo, hi)
  {
    forall k | 0 <= k < |s + t| && (s + t)[k].Circle?
      ensures lo <= (s + t)[k].cx - CircleSize / 2.0 && (s + t)[k].cx + CircleSize / 2.0 <= hi
    {
      if k >= |s| {
        assert (s + t)[k] == t[k - |s|];
      }
    }
  }

  /**
   * Every circle render_tree places for a subtree centred at baseX stays within
   * baseX -/+ half the subtree's width: the widths get_width computes are enough room.
   */
  lemma {:induction false} SubtreeWithinWidth(adj: map<int, seq<int>>, node: int, level: int, baseX: real, dense: bool, h: nat)
    requires Bounded(adj, node, h) && NonEmptyLists(adj)
    ensures Within(Shapes(adj, node, level, baseX, false, dense, h),
                   baseX - Width(adj, node, dense, h) / 2.0, baseX + Width(adj, node, dense, h) / 2.0)
    decreases h, 1
  {
    if node in adj {
      var w := Width(adj, node, dense, h);
      WidthAtLeastCircle(adj, node, dense, h);
      var root: seq<Shape> := if level == 1 then [Circle(node, baseX, RowY(level))] else [];
      assert Within(root, baseX - w / 2.0, baseX + w / 2.0);
      ChildSubtreesWithin(adj, node, level, baseX, dense, h, |adj[node]|);
      WithinAppend(root, ChildShapes(adj, node, level, baseX, false, dense, h, |adj[node]|), baseX - w / 2.0, baseX + w / 2.0);
    }
  }

  lemma {:induction false} ChildSubtreesWithin(adj: map<int, seq<int>>, node: int, level: int, baseX: real,
                                               dense: bool, h: nat, k: nat)
    requires Bounded(adj, node, h) && node in adj && k <= |adj[node]| && NonEmptyLists(adj)
    ensures Within(ChildShapes(adj, node, level, baseX, false, dense, h, k),
                   baseX - Width(adj, node, dense, h) / 2.0, baseX + Width(adj, node, dense, h) / 2.0)
    decreases h, 0, k
  {
    if k > 0 {
      var cs := adj[node];
      var i := k - 1;
      assert cs[i] in cs;
      var ws := ChildWidths(adj, cs, dense, h - 1);
      var w := Width(adj, node, dense, h);
      assert w == FamilyWidth(ws, dense);
      var lo, hi := baseX - w / 2.0, baseX + w / 2.0;
      forall j | 0 <= j < |ws| ensures ws[j] >= CircleSize {
        ChildWidthsAt(adj, cs, dense, h - 1, j);
        assert cs[j] in cs;
        WidthAtLeastCircle(adj, cs[j], dense, h - 1);
      }
      ChildWidthsAt(adj, cs, dense, h - 1, i);
      var x := ChildX(ws, i, w, baseX, dense);
      ChildWithinParent(ws, baseX, dense, i);
      ChildSubtreesWithin(adj, node, level, baseX, dense, h, i);
      SubtreeWithinWidth(adj, cs[i], level + 1, x, dense, h - 1);
      var sub := Shapes(adj, cs[i], level + 1, x, false, dense, h - 1);
      assert Within(sub, lo, hi);
      assert Within([Circle(cs[i], x, RowY(level + 1))], lo, hi);
      WithinAppend(ChildShapes(adj, node, level, baseX, false, dense, h, i), [Circle(cs[i], x, RowY(level + 1))], lo, hi);
      WithinAppend(ChildShapes(adj, node, level, baseX, false, dense, h, i) + [Circle(cs[i], x, RowY(level + 1))], sub, lo, hi);
    }
  }

  /** Every circle of a subtree whose root is drawn on row level sits on that row or below. */
  ghost predicate BelowRow(s: seq<Shape>, y: real)
  {
    forall k :: 0 <= k < |s| && s[k].Circle? ==> s[k].cy >= y
  }

  lemma BelowRowAppend(s: seq<Shape>, t: seq<Shape>, y: real)
    requires BelowRow(s, y) && BelowRow(t, y)
    ensures BelowRow(s + t, y)
  {
    forall k | 0 <= k < |s + t| && (s + t)[k].Circle? ensures (s + t)[k].cy >= y {
      if k >= |s| {
        assert (s + t)[k] == t[k - |s|];
      }
    }
  }

  lemma RowsApart(level: int)
    ensures RowY(level + 1) == RowY(level) + CircleSize + CircleMarginY
  {
    assert (CircleSize + CircleMarginY) * level as real == (CircleSize + CircleMarginY) * (level - 1) as real + (CircleSize + CircleMarginY);
  }

  lemma {:induction false} CirclesBelowRow(adj: map<int, seq<int>>, node: int, level: int, baseX: real, dense: bool, h: nat)
    requires Bounded(adj, node, h)
    ensures BelowRow(Shapes(adj, node, level, baseX, false, dense, h), RowY(level))
    decreases h, 1
  {
    if node in adj {
      var root: seq<Shape> := if level == 1 then [Circle(node, baseX, RowY(level))] else [];
      ChildCirclesBelowRow(adj, node, level, baseX, dense, h, |adj[node]|);
      BelowRowAppend(root, ChildShapes(adj, node, level, baseX, false, dense, h, |adj[node]|), RowY(level));
    }
  }

  lemma {:induction false} ChildCirclesBelowRow(adj: map<int, seq<int>>, node: int, level: int, baseX: real,
                                                dense: bool, h: nat, k: nat)
    requires Bounded(adj, node, h) && node in adj && k <= |adj[node]|
    ensures BelowRow(ChildShapes(adj, node, level, baseX, false, dense, h, k), RowY(level + 1))
    decreases h, 0, k
  {
    if k > 0 {
      var cs := adj[node];
      var i := k - 1;
      assert cs[i] in cs;
      var x := ChildX(ChildWidths(adj, cs, dense, h - 1), i, Width(adj, node, dense, h), baseX, dense);
      ChildCirclesBelowRow(adj, node, level, baseX, dense, h, i);
      CirclesBelowRow(adj, cs[i], level + 1, x, dense, h - 1);
      var y := RowY(level + 1);
      BelowRowAppend(ChildShapes(adj, node, level, baseX, false, dense, h, i), [Circle(cs[i], x, y)], y);
      BelowRowAppend(ChildShapes(adj, node, level, baseX, false, dense, h, i) + [Circle(cs[i], x, y)],
                     Shapes(adj, cs[i], level + 1, x, false, dense, h - 1), y);
    }
  }

  /** With a root that has children, the circle pass puts the region's top edge at y = 0. */
  lemma TopEdge(adj: map<int, seq<int>>, root: int, dense: bool, h: nat)
    requires Bounded(adj, root, h) && root in adj
    ensures Cover(Seed(), Shapes(adj, root, 1, 0.0, false, dense, h)).minY == Fin(0.0)
  {
    var s := Shapes(adj, root, 1, 0.0, false, dense, h);
    var b := Cover(Seed(), s);
    RootPassesAgree(adj, root, dense, h);
    CoverFromSeed(s);
    CirclesBelowRow(adj, root, 1, 0.0, dense, h);
    assert s[0].Circle? && s[0].cy == CircleSize / 2.0;
    assert b.minY.Fin?;
    var k :| 0 <= k < |s| && s[k].Circle? && b.minY.v == s[k].cy - CircleSize / 2.0;
  }
}
