/** Bringing the tree on the heap in step with an edited text (`update_tree`). */
module NodeUpdate {
  import opened Wrappers
  import opened Contexts
  import opened SegmentTree
  import opened SegmentErase
  import opened SegmentCreate
  import opened Dirt
  import opened Labelling
  import opened SegmentLinks
  import opened SegmentItems
  import opened SegmentState
  import opened NodeTree
  import opened NodeErase
  import opened NodeCreate
  import opened NodeInsert
  import opened NodeDelete
  import opened NodeRange
  import opened TreeUpdate
  import RootErase

  // ----- the erased range as an invalid segment -----

  /** Nothing starts where the erased range starts, so the list has a place for it. */
  lemma {:induction false} UnnamedClear(row: seq<Item>, lo: int, hi: int, ctx: Option<Context>, a: int, b: int)
    requires HoldAll(row) && ValidForest(Trees(row), lo, hi, ctx) && DeepClear(Trees(row), a, b) && a < b
    ensures forall x :: x in Unnamed(row) ==> x.startAt != a
    decreases row
  {
    hide HoldAll, Holds, AllNodes, Below, Tops, List;
    if row != [] {
      HoldAllAt(row, 0);
      HoldsParts(row[0]);
      FirstForest(row, lo, hi, ctx);
      TreesParts(row, 1);
      UnnamedClear(row[0].kids, row[0].startAt, row[0].endAt, row[0].context, a, b);
      UnnamedClear(row[1..], row[0].endAt, hi, ctx, a, b);
    }
  }

  lemma ErasedList(e: Segments, root: Item, mid: Item, a: int, b: int)
    requires Whole(e, mid) && ValidRoot(Tree(root)) && 0 <= a < b <= root.endAt && Tree(mid) == Erased(Tree(root), a, b)
    ensures forall x :: x in e.invalid ==> x.startAt != a
    ensures CanHold(mid, None, a, b) && HasRoom(Trees(mid.kids), a, b) && IsPath(Tree(mid), []) && ItemAt(mid, []) == mid
    ensures Trees(mid.kids) == EraseForest(Tree(root).children, a, b)
  {
    hide AllNodes, Apart, Unnamed, HoldAll, Holds, List, Trees;
    HoldsParts(mid);
    UnnamedSingle(mid);
    ErasedHasRoom(Tree(root), a, b);
    EraseForestClears(Tree(root).children, 0, root.endAt, a, b, root.context);
    UnnamedClear(mid.kids, 0, mid.endAt, mid.context, a, b);
  }

  /** The range is erased and becomes one invalid child of the toplevel segment. */
  method InvalidateRange(e: Segments, a: int, b: int, ghost root: Item) returns (ghost after: Item)
    requires Whole(e, root) && 0 <= a < b <= root.endAt
    modifies e`invalid, e`hint, e`hint2, Nodes(root)
    ensures Whole(e, after) && OldOrNew(Nodes(root), Nodes(after)) && InvalidatedAt(Tree(root), Tree(after), a, b)
  {
    hide AllNodes, Apart, Unnamed, HoldAll, Holds, List, Trees, WithKid, HasRoom, IsPosition, CanHold, ValidRoot, Tree, Put, ItemAt, IsPath, InvalidatedAt, EraseForest;
    WholeIsValid(e, root);
    ghost var mid := RootErase.EraseSegments(e, a, b, null, root);
    ErasedList(e, root, mid, a, b);
    assert allocated(Nodes(mid));
    var n;
    ghost var k;
    n, k := Create(e, e.root, None, a, b, false, null, mid, []);
    after := WithKid(mid, k, Item(n, None, a, b, false, []));
    LinkedParts(mid, k, Item(n, None, a, b, false, []));
    PutNothing(mid, after);
    InvalidatedTree(root, mid, after, k, n, a, b);
  }

  lemma PutNothing(i: Item, x: Item)
    ensures IsPath(Tree(i), []) && Put(i, [], x) == x
  {
  }

  lemma InvalidatedTree(root: Item, mid: Item, after: Item, k: nat, n: Node, a: int, b: int)
    requires k <= |mid.kids| && IsPosition(Trees(mid.kids), k, a, b) && Trees(mid.kids) == EraseForest(Tree(root).children, a, b)
    requires Tree(mid) == Erased(Tree(root), a, b) && Tree(after) == Tree(mid).(children := SegmentCreate.Link(Trees(mid.kids), k, Tree(Item(n, None, a, b, false, []))))
    ensures InvalidatedAt(Tree(root), Tree(after), a, b)
  {
    hide EraseForest, IsPosition;
    assert Tree(Item(n, None, a, b, false, [])) == InvalidSegment(a, b);
    assert Tree(after) == Invalidated(Tree(root), a, b, k);
  }

  // ----- update_tree -----

  method AdjustOffsets(e: Segments, start: int, end: int, delta: int, ghost root: Item) returns (ghost after: Item)
    requires Whole(e, root) && ValidRoot(Tree(root)) && IsRegion(Tree(root), start, end, delta)
    modifies e`invalid, e`hint, e`hint2, Nodes(root)
    ensures Whole(e, after) && OldOrNew(Nodes(root), Nodes(after)) && AdjustedBy(Tree(root), Tree(after), start, end, delta)
  {
    hide AllNodes, Apart, Unnamed, HoldAll, Holds, List, Trees, ValidRoot, InsertedAt, Deleted, Whole;
    if delta > 0 {
      after := NodeRange.InsertRange(e, start, delta, root);
    } else if delta < 0 {
      after := NodeDelete.DeleteRange(e, end, end - delta, root);
    } else {
      after := root;
    }
  }

  method InvalidateRest(e: Segments, start: int, end: int, delta: int, ghost root: Item) returns (ghost after: Item)
    requires Whole(e, root) && ValidRoot(Tree(root)) && 0 <= start <= end <= root.endAt
    modifies e`invalid, e`hint, e`hint2, Nodes(root)
    ensures Whole(e, after) && OldOrNew(Nodes(root), Nodes(after)) && SettledBy(Tree(root), Tree(after), start, end, delta)
  {
    hide AllNodes, Apart, Unnamed, HoldAll, Holds, List, Trees, ValidRoot, InsertedAt, InvalidatedAt, Whole;
    var eraseStart := if delta <= 0 then start else start + delta;
    if eraseStart < end {
      after := InvalidateRange(e, eraseStart, end, root);
    } else {
      assert allocated(Nodes(root));
      var place := InvalidAt(e, start, root);
      if place == null {
        after := NodeRange.InsertRange(e, start, 0, root);
      } else {
        AtInvalid(e, root, place, start);
        after := root;
      }
    }
  }

  lemma AtInvalid(e: Segments, root: Item, n: Node, offset: nat)
    requires Whole(e, root) && ValidRoot(Tree(root)) && n in e.invalid && n.startAt <= offset <= n.endAt
    ensures InsertedAt(Tree(root), Tree(root), offset, 0)
  {
    hide Whole, ItemAt;
    var path := ListedPart(e, root, n);
    InvalidTouches(root, path, offset);
    PathHasInvalid(Tree(root), path, offset, offset);
  }

  /** `update_tree`: the list and the hints stay right, and the labels are what the edit
      leaves of them. */
  method UpdateTree(e: Segments, start: int, end: int, delta: int, ghost root: Item) returns (ghost after: Item)
    requires Whole(e, root) && ValidRoot(Tree(root)) && IsRegion(Tree(root), start, end, delta)
    modifies e`invalid, e`hint, e`hint2, Nodes(root)
    ensures Whole(e, after) && OldOrNew(Nodes(root), Nodes(after))
    ensures UpdatedBy(Tree(root), Tree(after), start, end, delta) && SoundUpdate(Tree(root), Tree(after), start, end, delta)
  {
    hide AllNodes, Apart, Unnamed, HoldAll, Holds, List, Trees, ValidRoot, Whole, AdjustedBy, SettledBy, SoundUpdate, Adjusted;
    ghost var middle := AdjustOffsets(e, start, end, delta, root);
    AdjustedFacts(Tree(root), Tree(middle), start, end, delta);
    AdjustedLength(Tree(root), Tree(middle), start, end, delta);
    assert allocated(Nodes(middle));
    after := InvalidateRest(e, start, end, delta, middle);
    UpdatedFacts(Tree(root), Tree(after), start, end, delta);
  }
}
