/** Removing text from the tree on the heap (`delete_range_`). */
module NodeDelete {
  import opened SegmentTree
  import opened SegmentErase
  import opened SegmentDelete
  import opened Labelling
  import opened SegmentLinks
  import opened SegmentItems
  import opened SegmentState
  import opened NodeTree
  import opened NodeErase
  import opened RootErase
  import opened NodeShift

  /** The same nodes in the same places. */
  lemma WholeSame(e: Segments, root: Item, x: Item)
    requires Same(root, x) && Holds(x) && ValidRoot(Tree(x)) && Apart([root]) && e.root == root.node && IsTop(root.node)
    requires e.invalid == Unnamed([root]) && Live(e.hint, Nodes(root)) && Live(e.hint2, Nodes(root))
    ensures Whole(e, x) && Nodes(x) == Nodes(root)
  {
    SameOne(root, x);
  }

  lemma FixedTree(i: Item, offset: int, length: int)
    ensures Tree(FixItem(i, offset, length)) == FixDelete(Tree(i), offset, length) && Same(i, FixItem(i, offset, length))
  {
    FixedTrees(i.kids, offset, length);
  }

  /** `delete_range_` */
  method DeleteRange(e: Segments, start: int, end: int, ghost root: Item) returns (ghost after: Item)
    requires Whole(e, root) && 0 <= start < end <= root.endAt
    modifies e`invalid, e`hint, e`hint2, Nodes(root)
    ensures Whole(e, after) && Tree(after) == Deleted(Tree(root), start, end) && OldOrNew(Nodes(root), Nodes(after))
  {
    hide Apart, AllNodes, HoldAll, Unnamed, Holds, List, FixItem, FixDelete, EraseForest, ValidRoot;
    WholeFields(e, root);
    WholeIsValid(e, root);
    ghost var mid := EraseSegments(e, start, end, null, root);
    assert allocated(Nodes(mid));
    WholeIsValid(e, mid);
    var h;
    ghost var k;
    h, k := Climb(e, e.hint, e.root, mid, []);
    FixNode(e.root, start, end - start, h, mid, k);
    after := FixItem(mid, start, end - start);
    FixedTree(mid, start, end - start);
    DeletedRoot(Tree(root), start, end);
    WholeSame(e, mid, after);
  }

  lemma WholeIsValid(e: Segments, root: Item)
    requires Whole(e, root)
    ensures ValidRoot(Tree(root)) && Valid(Tree(root)) && Nodes(root) == {root.node} + AllNodes(root.kids)
  {
  }
}
