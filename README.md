# fork_tree in Dafny

`fork_tree` records the fork tree of a family of processes in shared memory and draws it
as an SVG picture. A shared metadata block (`shared_tree_t`) holds the root process id, a
page count and a semaphore. A page file holds pages (`tree_page_t`) of twenty
`(child, parent)` slots each. `fork_tree_add_node` appends one edge after the last used
slot and grows the file by one page when it has to. A render reads every page. It builds
a binary-search-tree map from each parent to a linked list of its children, then computes
subtree widths with a memo map (`get_width`). It then walks the tree twice with
`render_tree`: first for the connectors, then for the circles. The circle pass grows a
canvas region around each circle it draws; the connector pass leaves the region alone.
That region, padded by a document margin, becomes the viewBox. Two layouts exist:
- dense: children are packed side by side, `CIRCLE_MARGIN_X` apart;
- centralized: the parent is as wide as n copies of its widest child plus the margins
  between them, and every child is centred in an equal slot of width size / n, which is
  the widest child plus 40·(n−1)/n.

The project models that core:

| module | file | models |
|---|---|---|
| `Wrappers` | wrappers.dfy | `Option` |
| `Names` | names.dfy | the shared-memory object names `p_tree_<n>` and `<name>_p` |
| `BstMap` | bst_map.dfy | `map_get` / `map_put` on a value `Tree`, with its abstraction `View` as a `map` |
| `LinkedLists` | linked_list.dfy | `linked_list_t` as a class whose `items` field the methods reassign |
| `PageStore` | page_store.dfy | pages, slots and edges; `shared_tree_t` as the class `SharedTree`; `fork_tree_add_node` |
| `Assembler` | assembler.dfy | the loop that turns pages into the child map, proved against `AdjacencySpec` |
| `Widths` | widths.dfy | `get_width`, proved against the recursive definition `Width` |
| `Layout`, `LayoutFacts` | layout.dfy | `canvas_region_t`, `render_tree` proved against the drawing definition `Shapes`, and the geometry of the layout |
| `Render` | render.dfy | the two render entry points: lock, assemble, width, two passes, margin |

The operating system's answers (whether each `mmap` and `ftruncate` succeeds)
are an `Os` value passed to each operation. The semaphore is the `locked` field of
`SharedTree`. A call that would wait on a semaphore nobody will post returns
`AddBlocked` or `RenderBlocked`. The model assumes the parent-to-children relation is
acyclic; this assumption is passed down as a ghost height bound `h` (the predicate
`Widths.Bounded`) that the recursive definitions decrease.

Two behaviours of the code a reader may not expect:
- A render whose root has no recorded child, while pages exist, crashes. `get_width`
  returns one circle width for such a root without storing anything
  (fork_tree.c:411-414), so the width map is still NULL when the success path calls
  `fork_tree_render_cleanup` (fork_tree.c:749, dense 912). `width_map_destroy` then
  reads through the NULL pointer (fork_tree.c:582, 555), and the process dies before
  `sem_post` (fork_tree.c:587) with the semaphore held. `Render.RenderSvg` returns
  `RenderCrashed` with the lock held in this case. The picture such a root would give
  is empty anyway: `render_tree` returns before drawing the root's circle, so the
  viewBox would keep its infinite seed (`Render.ChildlessRootDrawsNothing`). A tree
  that never forked has no pages at all, so the render writes nothing
  (`Render.RenderOfUnforkedTree`).
- With zero pages the render returns 0 while still holding the semaphore
  (fork_tree.c:598-600). The next `fork_tree_add_node` therefore waits forever
  (`Render.RenderOfUnforkedTree`).

## Model

| member | source | states |
|---|---|---|
| Names.DigitChar | fork_tree.c:231 | the character printed for a decimal digit is a `'0'..'9'` character whose code offset is that digit |
| Names.Digits | fork_tree.c:231 | the digits `%d` prints for a natural number are non-empty and all decimal |
| Names.DigitsRoundTrip | fork_tree.c:231 | those digits read back as the same number |
| Names.DigitsLength | fork_tree.c:221-231 | a number below 10^k prints in at most k digits |
| Names.ParseNegative | fork_tree.c:231 | a minus sign followed by the digits of a positive number reads back as the negated number |
| Names.ParseNonNegative | fork_tree.c:231 | the digits of a natural number read back as that number |
| Names.Decimal | fork_tree.c:231 | the `%d` text is non-empty, starts with a minus sign exactly when the number is negative, and ends in a digit; its round trip is `Names.DecimalRoundTrip` |
| Names.DecimalRoundTrip | fork_tree.c:231 | the `%d` text of any integer, negative or not, reads back as that integer |
| Names.DecimalFitsBuffer | fork_tree.c:221-231 | every 32-bit number below 999999999 prints in at most 11 characters, so prefix, number and terminator fit the 19-byte buffer |
| Names.Pow10Values | fork_tree.c:226 | the powers of ten that bound the accepted tree numbers |
| Names.TreeName | fork_tree.c:220-237 | a name exists exactly when the number is below 999999999; it starts with `p_tree_`, fits the buffer and ends in the number's decimal text |
| Names.PageName | fork_tree.c:239-250 | the page-file name is the tree name plus two characters |
| Names.PageNameRoundTrip | fork_tree.c:239-250 | removing the `_p` suffix from a page-file name gives back the tree name |
| Names.TreeNamesDistinct | fork_tree.c:220-250 | different tree numbers give different metadata names and different page-file names |
| Names.PageNameIsNoTreeName | fork_tree.c:220-250 | a page-file name never equals a metadata name, so the two shared objects never collide |
| BstMap.Get | fork_tree.c:53-64 | a lookup finds a value only for a key stored in the tree; exactly which value is `BstMap.GetView` |
| BstMap.Put | fork_tree.c:66-85 | insertion adds exactly the inserted key to the stored keys; the map update it performs is `BstMap.PutView` and `BstMap.PutThenGet` |
| BstMap.ViewKeys | fork_tree.c:53-85 | the keys of the map's abstract view are the keys stored in the tree |
| BstMap.GetView | fork_tree.c:53-64 | on an ordered tree, lookup finds a key's value exactly when the key is in the view, and finds nothing otherwise |
| BstMap.PutOrdered | fork_tree.c:66-85 | insertion keeps the search-tree order |
| BstMap.PutView | fork_tree.c:66-85 | insertion is a map update: the new view is the old view with the key set to the value, replacing any earlier value |
| BstMap.UpdateLeft | fork_tree.c:74-78 | an update in the left subtree commutes with the node's own entry |
| BstMap.UpdateRight | fork_tree.c:79-83 | an update in the right subtree commutes with the node's own entry |
| BstMap.PutThenGet | fork_tree.c:53-85 | after insertion the key finds the new value and every other key finds what it found before |
| BstMap.PutSize | fork_tree.c:66-85 | insertion adds one node for a new key and none for an existing key |
| LinkedLists.LinkedList.constructor | fork_tree.c:133-137 | a new list is empty |
| LinkedLists.LinkedList.Add | fork_tree.c:115-131 | the value is appended at the tail and the size grows by one |
| PageStore.EmptyPage | fork_tree.c:270-277 | a freshly extended page has 20 zero slots |
| PageStore.FirstEmptyFrom | fork_tree.c:292-304 | the scan stops at the first zero slot at or after its start, or at 20 |
| PageStore.FirstEmptyIs | fork_tree.c:292-304 | the slot the scan finds is determined by the occupied prefix before it |
| PageStore.FindFreeSlot | fork_tree.c:292-304 | the slot loop finds the lowest free slot of the last page, or 20 when it is full |
| PageStore.SlotEdgesAgree | fork_tree.c:292-304 | pages that agree on their first j slots hold the same edges there |
| PageStore.SlotEdgesEmptyTail | fork_tree.c:292-304 | empty slots add no edges |
| PageStore.EmptyPageHasNoEdges | fork_tree.c:270-277 | a fresh page holds no edges |
| PageStore.EdgesSnoc | fork_tree.c:614-648 | the edges of a store are the edges of its pages in page order |
| PageStore.WriteFirstEmpty | fork_tree.c:292-304 | writing the lowest free slot keeps the page packed and appends the edge to the page's edges |
| PageStore.FreeTail | fork_tree.c:292-304 | on a packed page every slot from the first free one onward is free |
| PageStore.WritePacked | fork_tree.c:298-301 | the written page stays well formed and packed |
| PageStore.AppendedEdges | fork_tree.c:260-339 | a successful append keeps the store shaped (full pages, then one packed page) and appends exactly the new edge |
| PageStore.UpdateLast | fork_tree.c:328-331 | writing the new last page changes only that page |
| PageStore.ShapedSnoc | fork_tree.c:308-335 | a packed page after full pages keeps the store shaped |
| PageStore.AppendedToNewPage | fork_tree.c:308-335 | when the last page is full, the append adds one new page holding the edge in slot 0 |
| PageStore.AppendedToLastPage | fork_tree.c:292-304 | when the last page has room, the append writes there and keeps the shape |
| PageStore.AppendedSlotChoice | fork_tree.c:292-335 | with room, the lowest free slot of the last page is written and no other slot or page changes; without room, exactly one page is added with the edge in slot 0 and every other slot empty |
| PageStore.FailedAppendKeepsEdges | fork_tree.c:308-327 | a page left behind by a failed growth is empty, so the recorded edges and the shape are unharmed |
| PageStore.AppendAllEdges | fork_tree.c:260-339 | a sequence of appends records exactly the appended edges, in order |
| PageStore.AppendAllStep | fork_tree.c:260-339 | one more append extends the recorded edges by that edge |
| PageStore.LaidOutStepWithinPage | fork_tree.c:292-304 | edge k stays in page k / 20, slot k % 20, when the next edge still fits the last page |
| PageStore.LaidOutStepNewPage | fork_tree.c:308-335 | the same holds when the next edge opens a new page |
| PageStore.AppendAllLayout | fork_tree.c:260-339 | after any number of appends, edge k sits in page k / 20, slot k % 20, and every later slot is empty |
| PageStore.TwentyFirstAppendOpensPage | fork_tree.c:308-331 | appending 21 edges grows the store from one page to two, and the 21st edge lands in slot 0 of the second page |
| PageStore.SharedTree.constructor | fork_tree.c:200-205 | a new tree has its root id, no pages and an unheld semaphore |
| PageStore.SharedTree.Grow | fork_tree.c:308-335 | the corrected growth: the page count rises only when the file was extended, so the count always matches the pages |
| PageStore.SharedTree.GrowAsWritten | fork_tree.c:308-314 | the growth as written: the count rises before `ftruncate`, so after a failure it is one more than the pages that exist |
| PageStore.SharedTree.InsertIntoLastPage | fork_tree.c:279-335 | grows through the corrected `Grow`, not the growth as written; with a last page present, the append succeeds unless growth was needed and `ftruncate` or the second `mmap` failed; success appends the edge, failure leaves at most one empty page more |
| PageStore.SharedTree.AppendOnNewPage | fork_tree.c:308-331 | grows through the corrected `Grow`, not the growth as written; with a full last page, success means both growth calls succeeded and the edge went to slot 0 of the new page |
| PageStore.SharedTree.AddNode | fork_tree.c:260-339 | grows through the corrected `Grow`, not the growth as written; a held semaphore blocks the call; otherwise the semaphore is released on every exit, the call succeeds exactly when the OS calls it needs succeed, success appends exactly the new edge, and failure leaves the edges as they were |
| Assembler.ChildrenOfSnoc | fork_tree.c:614-648 | one more edge adds its child at the end of its parent's list only |
| Assembler.ParentsOfSnoc | fork_tree.c:614-648 | one more edge adds its parent to the set of keys |
| Assembler.AdjacencySpecSnoc | fork_tree.c:614-648 | one more edge appends its child to its parent's entry of the child map |
| Assembler.ChildrenOfAbsent | fork_tree.c:614-648 | a node that is nobody's parent has no children |
| Assembler.ChildrenOfAppend | fork_tree.c:614-648 | the children of a parent over two runs of edges are the first run's followed by the second's |
| Assembler.ChildrenOfMembers | fork_tree.c:614-648 | c is among p's children exactly when the edge (c, p) was recorded |
| Assembler.AdjacencyListsNonEmpty | fork_tree.c:621-641 | every list the assembler creates holds at least one child |
| Assembler.RecordedChildGoesLast | fork_tree.c:260-339 | after `fork_tree_add_node`, the new child is the last child of its parent in the next render, and no other parent's children change |
| Assembler.EdgesUpToStep | fork_tree.c:617-645 | each slot the inner loop visits adds that slot's edge, if any |
| Assembler.EdgesUpToPage | fork_tree.c:614-648 | the inner loop over one page covers exactly that page's edges |
| Assembler.ListFor | fork_tree.c:621-637 | returns the parent's existing list, or creates and inserts an empty one; no other key maps to the returned list |
| Assembler.RecordChild | fork_tree.c:621-641 | one slot: the parent's list gets the child appended and every other list is unchanged |
| Assembler.UpdateValues | fork_tree.c:628-636 | inserting a list adds at most that list to the map's values |
| Assembler.Assemble | fork_tree.c:614-648 | the child map holds, for every parent, its own list (no two parents share one) of its children in page and slot order (dense render: fork_tree.c:777-811) |
| Assembler.AssemblePage | fork_tree.c:617-647 | the inner slot loop adds one page's edges to the child map |
| Widths.SumMaxSnoc | fork_tree.c:416-427 | the loop's running sum and maximum after one more child |
| Widths.ChildWidths | fork_tree.c:416-427 | one width per child |
| Widths.ChildWidthsAt | fork_tree.c:421 | element i is the width of child i |
| Widths.ChildWidthsSnoc | fork_tree.c:416-427 | the widths of a prefix grow by one child at a time |
| Widths.WidthStable | fork_tree.c:405-444 | a subtree's width does not depend on the height bound used to reach it |
| Widths.ChildWidthsStable | fork_tree.c:416-427 | the same for a list of children |
| Widths.SumAtLeast | fork_tree.c:434-438 | n widths of at least lo sum to at least n·lo |
| Widths.MaxOfBounds | fork_tree.c:416-427 | the maximum is non-negative, bounds every width, and is one of them |
| Widths.SumAtMostMax | fork_tree.c:434-438 | the sum is at most n times the maximum |
| Widths.MulMono | fork_tree.c:434-438 | multiplication by a non-negative factor keeps order |
| Widths.WidthAtLeastCircle | fork_tree.c:411-438 | every subtree is at least one circle wide |
| Widths.CentralizedCoversDense | fork_tree.c:434-438 | a centralized subtree is never narrower than the dense one |
| Widths.SumMono | fork_tree.c:434-438 | widening every child widens the sum |
| Widths.LeafWidths | fork_tree.c:411-427 | leaf children are each one circle wide |
| Widths.LeafFamilyWidth | fork_tree.c:434-438 | a parent of n leaves is 100·n − 40 wide in both layouts |
| Widths.ThreeLeavesWidth | fork_tree.c:434-438 | a root with three leaf children is 3·60 + 2·40 = 260 wide, dense and centralized |
| Widths.GetWidth | fork_tree.c:405-444 | returns the subtree width, and the memo only grows with correct entries |
| Widths.StoreFamily | fork_tree.c:434-442 | applies the dense or centralized formula and stores the result under the node |
| Widths.MemoStore | fork_tree.c:439-442 | storing a correct width keeps the memo correct |
| Widths.ChildLoop | fork_tree.c:416-427 | the loop computes the maximum and the sum of the children's widths |
| Widths.AddChildWidth | fork_tree.c:420-426 | one step of that loop |
| Layout.CanvasRegion.constructor | fork_tree.c:651-655 | the region starts at the seed: minima +∞, maxima −∞ |
| Layout.CanvasRegion.Include | fork_tree.c:530-543 | after a circle, the minima are lowered and the maxima raised to the circle's edges |
| Layout.CanvasRegion.AddMargin | fork_tree.c:669-672 | the margin is added on every side |
| Layout.ChildShapesNext | fork_tree.c:498-550 | one more child's command and subtree follow the earlier children's |
| Layout.ChildXFromOffset | fork_tree.c:454-508 | the running offset gives the child's centre: dense advances by width plus margin, centralized by one step per child |
| Layout.CoverAppend | fork_tree.c:446-552 | the region after two runs of shapes is the second run applied to the first's region |
| Layout.RenderTree | fork_tree.c:446-552 | draws exactly the shapes of the drawing definition `Shapes`, in order, and the region grows by exactly those circles |
| Layout.RenderChildren | fork_tree.c:498-550 | the child loop draws every child's command and subtree in list order |
| Layout.PlaceChild | fork_tree.c:500-508 | the child's centre is its layout position, and the offset moves on by one child |
| Layout.DrawChild | fork_tree.c:510-544 | one child's connector from the parent, or its circle, with the region updated |
| LayoutFacts.PassKinds | fork_tree.c:510-545 | the line pass draws only connectors and the circle pass only circles |
| LayoutFacts.ChildPassKinds | fork_tree.c:498-550 | the same for a prefix of the children |
| LayoutFacts.CoverIgnoresLines | fork_tree.c:510-515 | connectors leave the region unchanged |
| LayoutFacts.LinePassKeepsRegion | fork_tree.c:657 | after the line pass the region still holds its seed |
| LayoutFacts.IncludeCircleGrows | fork_tree.c:530-543 | one region update keeps what was enclosed and encloses the new circle |
| LayoutFacts.ContainsTrans | fork_tree.c:530-543 | region containment is transitive |
| LayoutFacts.ContainsEncloses | fork_tree.c:530-543 | a containing region encloses what the contained one does |
| LayoutFacts.CoverContains | fork_tree.c:446-552 | the final region contains the starting one and encloses every circle drawn |
| LayoutFacts.TightSnoc | fork_tree.c:530-543 | each side of the region touches some circle, and this holds after one more shape |
| LayoutFacts.CoverFromSeed | fork_tree.c:651-663 | from the seed, the region is the tight box around the circles, and stays the seed exactly when no circle is drawn |
| LayoutFacts.AgreeAppend | fork_tree.c:498-550 | agreement of the two passes over joined runs |
| LayoutFacts.PassesAgree | fork_tree.c:510-545 | below the root, the two passes visit the same points in the same order |
| LayoutFacts.ChildPassesAgree | fork_tree.c:498-550 | the same for a prefix of the children |
| LayoutFacts.RootPassesAgree | fork_tree.c:463-550 | the circle pass begins with the root at (0, 30), and each connector ends at its child's circle |
| LayoutFacts.SumPrefix | fork_tree.c:502-508 | running sums grow by one width per child |
| LayoutFacts.SumPrefixBounds | fork_tree.c:502-508 | running sums lie between 0 and the total |
| LayoutFacts.SumNonNegative | fork_tree.c:434-438 | widths sum to a non-negative value |
| LayoutFacts.DenseEdges | fork_tree.c:454-508 | dense children start at the parent's left edge and end at its right edge, an only child included |
| LayoutFacts.DenseRow | fork_tree.c:454-508 | neighbouring dense children sit exactly 40 apart edge to edge, and their centres strictly increase in list order |
| LayoutFacts.SlotLeftMono | fork_tree.c:454-508 | later centralized slots start further right |
| LayoutFacts.MulMonoNat | fork_tree.c:454-457 | multiples of a non-negative step keep order |
| LayoutFacts.CentralizedStep | fork_tree.c:434-457 | n centralized steps make up the parent's width, and one step fits the widest child |
| LayoutFacts.CentralizedRow | fork_tree.c:454-508 | centralized slots tile the parent's width; each child is centred in its slot, one step from its neighbours, and the row is symmetric about the parent |
| LayoutFacts.CentralizedChildInSlot | fork_tree.c:454-508 | a centralized child's room stays inside its slot, so siblings never overlap |
| LayoutFacts.ChildWithinParent | fork_tree.c:454-508 | in both layouts a child's room lies inside the parent's room |
| LayoutFacts.WithinAppend | fork_tree.c:498-550 | circles inside a band stay inside it over joined runs |
| LayoutFacts.SubtreeWithinWidth | fork_tree.c:405-552 | every circle of a subtree lies within its centre ± half the width `get_width` computed |
| LayoutFacts.ChildSubtreesWithin | fork_tree.c:498-550 | the same for a prefix of the children |
| LayoutFacts.BelowRowAppend | fork_tree.c:498-550 | circles below a row stay below it over joined runs |
| LayoutFacts.RowsApart | fork_tree.c:462-495 | consecutive rows are `CIRCLE_SIZE + CIRCLE_MARGIN_Y` apart |
| LayoutFacts.CirclesBelowRow | fork_tree.c:446-552 | no circle of a subtree lies above the subtree's row |
| LayoutFacts.ChildCirclesBelowRow | fork_tree.c:498-550 | the same for a prefix of the children |
| LayoutFacts.TopEdge | fork_tree.c:463-493 | with a root that has children, the region's top edge is y = 0 |
| Render.RenderSvg | fork_tree.c:590-749 | a held semaphore blocks and stays held; a failed metadata mmap fails without touching the lock; zero pages write nothing and keep the lock; a failed pages mmap fails and releases it; a root with no recorded child crashes in the cleanup with the lock held; otherwise the document is exactly `Picture` of the recorded tree and the lock is released; the pages never change (dense render: fork_tree.c:753-912) |
| Render.ViewBoxOfCircles | fork_tree.c:651-672 | the viewBox is the circles' box plus the margin, the line layer holds only connectors and the circle layer only circles |
| Render.RenderedTopEdge | fork_tree.c:463-493 | with a root that has children, the viewBox's top is at −40 |
| Render.ViewBoxFitsCircles | fork_tree.c:651-672 | the unpadded viewBox is the smallest box around every circle, and keeps its infinite seed exactly when no circle is drawn |
| Render.ChildlessRootDrawsNothing | fork_tree.c:447-450 | a root without children draws nothing and leaves the viewBox at its seed |
| Render.RenderOfUnforkedTree | fork_tree.c:598-600 | a tree that never forked renders nothing, and the next `fork_tree_add_node` blocks on the semaphore |

## Left out

- Allocation failures (`malloc` returning NULL) are not modelled: memory is treated as unbounded. This covers `map_put`'s −1, `linked_list_add`'s −1 and the assembler's early returns. It also covers `get_width`'s −1 (fork_tree.c:427-430, 438-441), which no caller checks: a −1 is summed into the parent's width (fork_tree.c:420-425), used as a node's size in `render_tree` (fork_tree.c:452) and ignored by the renders (fork_tree.c:649), so it would flow into the widths and the geometry. The −1 returns of `render_tree` when writing a circle or a line fails, and the propagation of that −1 through the recursion, belong to the SVG-text line below.
- The SVG text itself. This covers `create_circle` and `create_line`, their `fprintf` errors, `tmpfile`, the header and the copy loop to the output. A render yields the shapes it would write, in order, with their coordinates, and the viewBox.
- `fork`, the examples and `fork_tree.h` are not part of this model.
- `fork_tree_destroy`, `map_destroy`, `width_map_destroy`, `linked_list_destroy` and `fork_tree_render_cleanup`, because memory release is not modelled. The model keeps one consequence of `fork_tree_render_cleanup`: the NULL width-map dereference on the success path is the `RenderCrashed` outcome of `Render.RenderSvg`. The same NULL dereferences on the early error paths (allocation and write failures) are left out with those failures.
- `map_in_order` is not modelled: no core operation calls it.
- The second, dead margin addition at fork_tree.c:743-746 and 906-909 comes after the viewBox has already been written, so it is not modelled.
- BstMap.Put: modelled as a value that rebuilds the search path, not as the in-place pointer rewrite through `map_node_t **`. Its ensures, like those of `BstMap.Get`, speak of the stored keys; the map behaviour is stated by the lemmas beside them.
- LinkedLists.LinkedList: its nodes are modelled as the sequence `items`. Node-level aliasing is not captured.
- PageStore.SharedTree: the page file is a sequence of page values. The answers of `mmap` and `ftruncate` come from the `Os` parameter, one answer per call.
- PageStore.SharedTree.AddNode: the semaphore's atomicity across processes is not modelled. A held semaphore is a flag, and waiting on it is the `AddBlocked` result.
- Render.RenderSvg: it needs the acyclicity bound `h` as a precondition, a usage assumption the source does not check. Process ids can be reused, so a recorded child can carry the pid of an older process that is already in the tree. The recorded map can then hold a cycle on which `get_width` (fork_tree.c:405-444) and `render_tree` recurse without end; the model does not cover such a map.
- PageStore.SharedTree.AddNode: grows the file through the corrected `PageStore.SharedTree.Grow`. After a failed `ftruncate` on a full last page it leaves `numberOfPages` equal to the pages, where fork_tree.c:309-314 leaves it one higher. That drift appears only in `PageStore.SharedTree.GrowAsWritten` (see "## Findings").
- PageStore.SharedTree.InsertIntoLastPage: also grows through the corrected `PageStore.SharedTree.Grow`, so it does not show the count drift of fork_tree.c:309-314.
- PageStore.SharedTree.AppendOnNewPage: also grows through the corrected `PageStore.SharedTree.Grow`, so it does not show the count drift of fork_tree.c:309-314.
- Doubles are modelled as exact reals and `INFINITY` as `Layout.Ext`. Rounding is not modelled. Centralized widths can double with each level (a chain of nodes each with one leaf child and one further child is 200·2^d − 40 wide at depth d), so past about 49 levels the source's doubles round where the model's reals do not.
- Widths.GetWidth, Layout.RenderTree and the assembler carry `allocated` preconditions on the lists in the child map. These are frame bookkeeping with no counterpart in the source.
- Some loops live in their own methods: the slot scan (`PageStore.FindFreeSlot`), the inner slot loop (`Assembler.AssemblePage`), the width loop (`Widths.ChildLoop`) and one step of the render loop (`Layout.PlaceChild`). They behave the same as in the source.

## Findings

| source | as written | input that shows it | evidently intended | confidence | as-written member | corrected member |
|---|---|---|---|---|---|---|
| fork_tree.c:308-314 | `number_of_pages` is incremented before `ftruncate`; on failure it is never decremented | a full last page and a failing `ftruncate`: the count then claims one more page than the file holds, and the next append scans and writes a page that does not exist | count a page only once the file has been extended | not executed | PageStore.SharedTree.GrowAsWritten | PageStore.SharedTree.Grow |
