/**
 * get_width from fork_tree.c: the horizontal room a subtree takes, memoised per node
 * in a second search tree. A node without a child list is one circle wide; a parent
 * is as wide as its children laid side by side with CIRCLE_MARGIN_X between them,
 * where in centralized mode every child counts as wide as the widest sibling.
 * Widths are C doubles in the source and exact reals here. Dense widths grow at most
 * 100 pixels per node, but centralized widths can double with each level of depth and
 * then round once they pass 2^53; that rounding is not modelled.
 */
module Widths {
  import opened Wrappers
  import opened BstMap
  import opened LinkedLists
  import opened Assembler

  const CircleSize: real := 60.0
  const CircleMarginX: real := 40.0

  /** Every path below n in adj has at most h parents on it (no cycles, finite depth). */
  ghost predicate Bounded(adj: map<int, seq<int>>, n: int, h: nat)
    decreases h
  {
    n in adj ==> h > 0 && forall c :: c in adj[n] ==> Bounded(adj, c, h - 1)
  }

  /** Every child list holds at least one child, as the assembler guarantees. */
  ghost predicate NonEmptyLists(adj: map<int, seq<int>>)
  {
    forall p :: p in adj ==> |adj[p]| > 0
  }

  function Sum(ws: seq<real>): real
  {
    if ws == [] then 0.0 else Sum(ws[..|ws| - 1]) + ws[|ws| - 1]
  }

  /** The running maximum of the source's child loop, which starts from 0. */
  function MaxOf(ws: seq<real>): real
  {
    if ws == [] then 0.0
    else if ws[|ws| - 1] > MaxOf(ws[..|ws| - 1]) then ws[|ws| - 1]
    else MaxOf(ws[..|ws| - 1])
  }

  lemma SumMaxSnoc(ws: seq<real>, x: real)
    ensures Sum(ws + [x]) == Sum(ws) + x
    ensures MaxOf(ws + [x]) == if x > MaxOf(ws) then x else MaxOf(ws)
  {
    assert (ws + [x])[..|ws|] == ws;
  }

  /** The room one parent takes for children of widths ws. */
  function FamilyWidth(ws: seq<real>, dense: bool): real
  {
    if dense then Sum(ws) + CircleMarginX * (|ws| - 1) as real
    else MaxOf(ws) * |ws| as real + CircleMarginX * (|ws| - 1) as real
  }

  ghost function Width(adj: map<int, seq<int>>, n: int, dense: bool, h: nat): real
    requires Bounded(adj, n, h)
    decreases h, 0
  {
    if n !in adj then CircleSize
    else FamilyWidth(ChildWidths(adj, adj[n], dense, h - 1), dense)
  }

  /** The widths of the children cs, in list order. */
  ghost function ChildWidths(adj: map<int, seq<int>>, cs: seq<int>, dense: bool, h: nat): (r: seq<real>)
    requires forall c :: c in cs ==> Bounded(adj, c, h)
    ensures |r| == |cs|
    decreases h, 1, |cs|
  {
    if cs == [] then []
    else ChildWidths(adj, cs[..|cs| - 1], dense, h) + [Width(adj, cs[|cs| - 1], dense, h)]
  }

  lemma ChildWidthsAt(adj: map<int, seq<int>>, cs: seq<int>, dense: bool, h: nat, i: nat)
    requires forall c :: c in cs ==> Bounded(adj, c, h)
    requires i < |cs|
    ensures ChildWidths(adj, cs, dense, h)[i] == Width(adj, cs[i], dense, h)
    decreases |cs|
  {
    if i < |cs| - 1 {
      assert forall c :: c in cs[..|cs| - 1] ==> c in cs;
      ChildWidthsAt(adj, cs[..|cs| - 1], dense, h, i);
    }
  }

  /** The widths of one more child of the list: the prefix grows by that child's width. */
  lemma ChildWidthsSnoc(adj: map<int, seq<int>>, cs: seq<int>, dense: bool, h: nat, i: nat)
    requires forall c :: c in cs ==> Bounded(adj, c, h)
    requires i < |cs|
    ensures forall c :: c in cs[..i + 1] ==> Bounded(adj, c, h)
    ensures ChildWidths(adj, cs[..i + 1], dense, h) == ChildWidths(adj, cs[..i], dense, h) + [Width(adj, cs[i], dense, h)]
  {
    assert forall c :: c in cs[..i + 1] ==> c in cs;
    assert cs[..i + 1][..i] == cs[..i];
  }

  /** A larger bound admits the same subtree and gives it the same width. */
  lemma {:induction false} WidthStable(adj: map<int, seq<int>>, n: int, dense: bool, h: nat, h': nat)
    requires Bounded(adj, n, h) && h <= h'
    ensures Bounded(adj, n, h')
    ensures Width(adj, n, dense, h) == Width(adj, n, dense, h')
    decreases h, 0
  {
    if n in adj {
      ChildWidthsStable(adj, adj[n], dense, h - 1, h' - 1);
    }
  }

  lemma {:induction false} ChildWidthsStable(adj: map<int, seq<int>>, cs: seq<int>, dense: bool, h: nat, h': nat)
    requires forall c :: c in cs ==> Bounded(adj, c, h)
    requires h <= h'
    ensures forall c :: c in cs ==> Bounded(adj, c, h')
    ensures ChildWidths(adj, cs, dense, h) == ChildWidths(adj, cs, dense, h')
    decreases h, 1, |cs|
  {
    if cs != [] {
      var n := |cs| - 1;
      assert forall c :: c in cs[..n] ==> c in cs;
      ChildWidthsStable(adj, cs[..n], dense, h, h');
      WidthStable(adj, cs[n], dense, h, h');
      forall c | c in cs ensures Bounded(adj, c, h') {
        if c != cs[n] {
          assert c in cs[..n];
        }
      }
    }
  }

  lemma {:induction false} SumAtLeast(ws: seq<real>, lo: real)
    requires forall i :: 0 <= i < |ws| ==> ws[i] >= lo
    ensures Sum(ws) >= lo * |ws| as real
  {
    if ws != [] {
      SumAtLeast(ws[..|ws| - 1], lo);
    }
  }

  /** MaxOf is at least every element and, on a non-empty list of non-negatives, one of them. */
  lemma {:induction false} MaxOfBounds(ws: seq<real>)
    ensures MaxOf(ws) >= 0.0
    ensures forall i :: 0 <= i < |ws| ==> ws[i] <= MaxOf(ws)
    ensures ws != [] && (forall i :: 0 <= i < |ws| ==> ws[i] >= 0.0) ==> exists i :: 0 <= i < |ws| && MaxOf(ws) == ws[i]
  {
    if ws != [] {
      var n := |ws| - 1;
      MaxOfBounds(ws[..n]);
      assert forall i :: 0 <= i < n ==> ws[..n][i] == ws[i];
      if ws[n] <= MaxOf(ws[..n]) && n > 0 && (forall i :: 0 <= i < |ws| ==> ws[i] >= 0.0) {
        var i :| 0 <= i < n && MaxOf(ws[..n]) == ws[..n][i];
        assert MaxOf(ws) == ws[i];
      }
    }
  }

  /** The sum of a list is at most its length times its maximum. */
  lemma {:induction false} SumAtMostMax(ws: seq<real>)
    ensures Sum(ws) <= MaxOf(ws) * |ws| as real
  {
    if ws != [] {
      var n := |ws| - 1;
      var m, m' := MaxOf(ws[..n]), MaxOf(ws);
      SumAtMostMax(ws[..n]);
      assert m <= m' && ws[n] <= m';
      MulMono(m, m', n as real);
      assert m' * (n + 1) as real == m' * n as real + m';
    }
  }

  lemma MulMono(a: real, b: real, k: real)
    requires a <= b && 0.0 <= k
    ensures a * k <= b * k
  {
    assert b * k - a * k == (b - a) * k;
  }

  /** With non-empty child lists every subtree is at least one circle wide. */
  lemma {:induction false} WidthAtLeastCircle(adj: map<int, seq<int>>, n: int, dense: bool, h: nat)
    requires Bounded(adj, n, h) && NonEmptyLists(adj)
    ensures Width(adj, n, dense, h) >= CircleSize
    decreases h
  {
    if n in adj {
      var cs := adj[n];
      var ws := ChildWidths(adj, cs, dense, h - 1);
      forall i | 0 <= i < |ws| ensures ws[i] >= CircleSize {
        ChildWidthsAt(adj, cs, dense, h - 1, i);
        WidthAtLeastCircle(adj, cs[i], dense, h - 1);
      }
      SumAtLeast(ws, CircleSize);
      if !dense {
        MaxOfBounds(ws);
        assert ws[0] >= CircleSize;
        assert MaxOf(ws) * |ws| as real >= CircleSize * |ws| as real;
      }
    }
  }

  /** Centralized layout never takes less room than dense layout, subtree by subtree. */
  lemma {:induction false} CentralizedCoversDense(adj: map<int, seq<int>>, n: int, h: nat)
    requires Bounded(adj, n, h)
    ensures Width(adj, n, false, h) >= Width(adj, n, true, h)
    decreases h
  {
    if n in adj {
      var cs := adj[n];
      var dw := ChildWidths(adj, cs, true, h - 1);
      var cw := ChildWidths(adj, cs, false, h - 1);
      forall i | 0 <= i < |cs| ensures cw[i] >= dw[i] {
        ChildWidthsAt(adj, cs, true, h - 1, i);
        ChildWidthsAt(adj, cs, false, h - 1, i);
        CentralizedCoversDense(adj, cs[i], h - 1);
      }
      SumMono(dw, cw);
      SumAtMostMax(cw);
    }
  }

  lemma {:induction false} SumMono(a: seq<real>, b: seq<real>)
    requires |a| == |b| && forall i :: 0 <= i < |a| ==> a[i] <= b[i]
    ensures Sum(a) <= Sum(b)
  {
    if a != [] {
      SumMono(a[..|a| - 1], b[..|b| - 1]);
    }
  }

  /** Childless children are one circle wide each: their total and their maximum. */
  lemma {:induction false} LeafWidths(adj: map<int, seq<int>>, cs: seq<int>, dense: bool, h: nat)
    requires forall c :: c in cs ==> c !in adj
    ensures forall c :: c in cs ==> Bounded(adj, c, h)
    ensures Sum(ChildWidths(adj, cs, dense, h)) == CircleSize * |cs| as real
    ensures |cs| > 0 ==> MaxOf(ChildWidths(adj, cs, dense, h)) == CircleSize
    decreases |cs|
  {
    if cs != [] {
      var n := |cs| - 1;
      assert forall c :: c in cs[..n] ==> c in cs;
      LeafWidths(adj, cs[..n], dense, h);
      var ws := ChildWidths(adj, cs[..n], dense, h);
      assert ChildWidths(adj, cs, dense, h) == ws + [CircleSize];
      SumMaxSnoc(ws, CircleSize);
    }
  }

  /** A parent of k childless children is k circles and k - 1 gaps wide, in either mode. */
  lemma LeafFamilyWidth(adj: map<int, seq<int>>, root: int, dense: bool, h: nat)
    requires root in adj && h > 0 && |adj[root]| > 0
    requires forall c :: c in adj[root] ==> c !in adj
    ensures Bounded(adj, root, h)
    ensures Width(adj, root, dense, h) == (CircleSize + CircleMarginX) * |adj[root]| as real - CircleMarginX
  {
    LeafWidths(adj, adj[root], dense, h - 1);
  }

  /** Three leaf children: 3 circles and 2 gaps, 260 pixels in either mode. */
  lemma ThreeLeavesWidth(adj: map<int, seq<int>>, root: int, a: int, b: int, c: int, dense: bool)
    requires adj == map[root := [a, b, c]] && a != root && b != root && c != root
    ensures Bounded(adj, root, 1)
    ensures Width(adj, root, dense, 1) == 260.0
  {
    LeafFamilyWidth(adj, root, dense, 1);
  }

  /** The width memo holds, for each key, the width of that node's subtree. */
  ghost predicate MemoSound(memo: Tree<real>, adj: map<int, seq<int>>, dense: bool, bound: nat)
  {
    && Ordered(memo)
    && forall k :: k in View(memo) ==> Bounded(adj, k, bound) && View(memo)[k] == Width(adj, k, dense, bound)
  }

  /**
   * get_width: answer from the memo when the node is there; one circle for a node
   * without children; otherwise walk the child list (ChildLoop) and store the family
   * width in the memo before returning it.
   */
  method GetWidth(memo: Tree<real>, cm: Tree<LinkedList>, node: int, dense: bool,
                  ghost adj: map<int, seq<int>>, ghost h: nat, ghost bound: nat)
    returns (r: real, memo': Tree<real>)
    requires ChildMap(cm, adj) && Bounded(adj, node, h) && h <= bound
    requires forall l :: l in View(cm).Values ==> allocated(l)
    requires MemoSound(memo, adj, dense, bound)
    ensures r == Width(adj, node, dense, h)
    ensures MemoSound(memo', adj, dense, bound)
    ensures Keys(memo) <= Keys(memo')
    decreases h, 1
  {
    GetView(memo, node);
    var cached := Get(memo, node);
    if cached.Some? {
      WidthStable(adj, node, dense, h, bound);
      return cached.value, memo;
    }
    GetView(cm, node);
    var children := Get(cm, node);
    if children.None? {
      return CircleSize, memo;
    }
    var list := children.value;
    assert node in adj && list.items == adj[node] && list.size == |adj[node]|;
    assert list in View(cm).Values;
    var maxSize, totalSize;
    maxSize, totalSize, memo' := ChildLoop(memo, cm, list, dense, adj, h, bound);
    r, memo' := StoreFamily(memo', node, maxSize, totalSize, list.size, dense, adj, h, bound);
  }

  /**
   * The end of get_width for a node with children: the family width from the largest
   * child width and the total, stored in the memo under the node.
   */
  method StoreFamily(memo: Tree<real>, node: int, maxSize: real, totalSize: real, count: int, dense: bool,
                     ghost adj: map<int, seq<int>>, ghost h: nat, ghost bound: nat)
    returns (r: real, memo': Tree<real>)
    requires Bounded(adj, node, h) && h <= bound && node in adj && count == |adj[node]|
    requires maxSize == MaxOf(ChildWidths(adj, adj[node], dense, h - 1))
    requires totalSize == Sum(ChildWidths(adj, adj[node], dense, h - 1))
    requires MemoSound(memo, adj, dense, bound)
    ensures r == Width(adj, node, dense, h)
    ensures MemoSound(memo', adj, dense, bound)
    ensures Keys(memo') == Keys(memo) + {node}
  {
    if dense {
      r := totalSize + CircleMarginX * (count - 1) as real;
    } else {
      r := maxSize * count as real + CircleMarginX * (count - 1) as real;
    }
    WidthStable(adj, node, dense, h, bound);
    MemoStore(memo, adj, dense, bound, node, r);
    memo' := Put(memo, node, r);
  }

  /** Storing a node's true width keeps the memo sound and adds that node's key. */
  lemma MemoStore(memo: Tree<real>, adj: map<int, seq<int>>, dense: bool, bound: nat, node: int, w: real)
    requires MemoSound(memo, adj, dense, bound)
    requires Bounded(adj, node, bound) && w == Width(adj, node, dense, bound)
    ensures MemoSound(Put(memo, node, w), adj, dense, bound)
    ensures Keys(Put(memo, node, w)) == Keys(memo) + {node}
  {
    PutView(memo, node, w);
  }

  /** The loop of get_width over one child list: the largest child width and their total. */
  method ChildLoop(memo: Tree<real>, cm: Tree<LinkedList>, list: LinkedList, dense: bool,
                   ghost adj: map<int, seq<int>>, ghost h: nat, ghost bound: nat)
    returns (maxSize: real, totalSize: real, memo': Tree<real>)
    requires ChildMap(cm, adj) && 0 < h <= bound
    requires forall l :: l in View(cm).Values ==> allocated(l)
    requires forall c :: c in list.items ==> Bounded(adj, c, h - 1)
    requires MemoSound(memo, adj, dense, bound)
    ensures maxSize == MaxOf(ChildWidths(adj, list.items, dense, h - 1))
    ensures totalSize == Sum(ChildWidths(adj, list.items, dense, h - 1))
    ensures MemoSound(memo', adj, dense, bound)
    ensures Keys(memo) <= Keys(memo')
    decreases h, 0
  {
    var cs := list.items;
    ghost var all := ChildWidths(adj, cs, dense, h - 1);
    maxSize, totalSize := 0.0, 0.0;
    memo' := memo;
    var i := 0;
    while i < |cs|
      invariant 0 <= i <= |cs|
      invariant maxSize == MaxOf(all[..i]) && totalSize == Sum(all[..i])
      invariant MemoSound(memo', adj, dense, bound)
      invariant Keys(memo) <= Keys(memo')
    {
      assert cs[i] in cs;
      ChildWidthsAt(adj, cs, dense, h - 1, i);
      assert all[..i + 1] == all[..i] + [all[i]];
      maxSize, totalSize, memo' := AddChildWidth(memo', cm, cs[i], maxSize, totalSize, dense, adj, all[..i], h, bound);
      i := i + 1;
    }
    assert all[..i] == all;
  }

  /** One turn of get_width's child loop: the child's width raises the maximum and the total. */
  method AddChildWidth(memo: Tree<real>, cm: Tree<LinkedList>, child: int, maxSize: real, totalSize: real,
                       dense: bool, ghost adj: map<int, seq<int>>, ghost ws: seq<real>, ghost h: nat, ghost bound: nat)
    returns (maxSize': real, totalSize': real, memo': Tree<real>)
    requires ChildMap(cm, adj) && 0 < h <= bound && Bounded(adj, child, h - 1)
    requires forall l :: l in View(cm).Values ==> allocated(l)
    requires maxSize == MaxOf(ws) && totalSize == Sum(ws)
    requires MemoSound(memo, adj, dense, bound)
    ensures maxSize' == MaxOf(ws + [Width(adj, child, dense, h - 1)])
    ensures totalSize' == Sum(ws + [Width(adj, child, dense, h - 1)])
    ensures MemoSound(memo', adj, dense, bound)
    ensures Keys(memo) <= Keys(memo')
    decreases h - 1, 2
  {
    var size;
    size, memo' := GetWidth(memo, cm, child, dense, adj, h - 1, bound);
    SumMaxSnoc(ws, size);
    maxSize' := maxSize;
    if size > maxSize' {
      maxSize' := size;
    }
    totalSize' := totalSize + size;
  }
}
