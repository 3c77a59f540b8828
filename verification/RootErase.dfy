/** `erase_segments`: the children of the toplevel segment are erased to the right and to
    the left of a hint, and the hint of the engine moves along. */
module RootErase {
  import opened Wrappers
  import opened Contexts
  import opened SegmentTree
  import opened SegmentErase
  import opened SegmentLinks
  import opened SegmentItems
  import opened SegmentState
  import opened Sequences
  import opened NodeTree
  import opened NodeErase

  // ----- the two passes -----

  /** The children of the toplevel segment, with nothing around them. */
  ghost predicate TopRow(e: Segments, n: Node, row: seq<Item>, hi: int)
    reads e, n, AllNodes(row)
  {
    InRow(e, n, row, [], [], {n}, 0, hi, Some(Root))
  }

  /** The first of the children that are left to the right, or none. */
  lemma FirstRight(e: Segments, n: Node, left: seq<Item>, right: seq<Item>, hi: int)
    requires TopRow(e, n, left + right, hi) && right != []
    ensures var x := right[0];
      && x.node.next == First(Heads(right[1..])) && x.node.prev == Last(Heads(left))
      && x.node.startAt == x.startAt && x.node.endAt == x.endAt && x.node in AllNodes(left + right) && x.startAt <= x.endAt
      && Tops(left + right) <= AllNodes(left + right) && Nodes(x) <= AllNodes(left + right) && (left + right)[|left|] == x
      && (right[1..] != [] ==> right[1].node in AllNodes(left + right))
  {
    hide Heads, InRow, AllNodes, Tops;
    var row, k := left + right, |left|;
    ChildIs(e, n, row, k, [], [], {n}, 0, hi, Some(Root));
    KidOrder(e, n, row, k, hi);
    if |right| > 1 {
      assert row[k + 1] == right[1];
      KidBelow(row, k + 1);
    }
    if k > 0 { assert row[k - 1] == left[k - 1]; }
  }

  lemma KidOrder(e: Segments, n: Node, row: seq<Item>, k: nat, hi: int)
    requires TopRow(e, n, row, hi) && k < |row|
    ensures row[k].startAt <= row[k].endAt && forall j :: k < j < |row| ==> row[k].endAt <= row[j].startAt && row[j].startAt <= row[j].endAt
  {
    var cs := Trees(row);
    ForestBounds(cs, 0, hi, Some(Root));
    forall j | k < j < |row| ensures row[k].endAt <= row[j].startAt && row[j].startAt <= row[j].endAt {
      assert cs[k].endAt <= cs[j].startAt && cs[j].startAt <= cs[j].endAt;
    }
    assert cs[k].startAt <= cs[k].endAt;
  }

  lemma Spliced(left: seq<Item>, mid: seq<Item>, right: seq<Item>)
    requires right != []
    ensures var row, k := left + right, |left|; row[..k] + mid + row[k + 1..] == left + mid + right[1..]
    ensures left + right == left + [right[0]] + right[1..]
  {
    assert (left + right)[..|left|] == left;
    assert (left + right)[|left| + 1..] == right[1..];
    assert right == [right[0]] + right[1..];
  }

  lemma ErasesNext(right: seq<Item>, a: int, b: int)
    requires right != []
    ensures EraseForest(Trees(right), a, b) == EraseRange(Tree(right[0]), a, b) + EraseForest(Trees(right[1..]), a, b)
    ensures right[0].startAt <= right[0].endAt < a < b || a < b < right[0].startAt <= right[0].endAt ==> EraseRange(Tree(right[0]), a, b) == [Tree(right[0])]
  {
    TreesParts(right, 1);
  }

  lemma ErasesNone(e: Segments, n: Node, left: seq<Item>, right: seq<Item>, hi: int, a: int, b: int)
    requires TopRow(e, n, left + right, hi) && a < b && (right != [] ==> b < right[0].startAt)
    ensures EraseForest(Trees(right), a, b) == Trees(right)
  {
    hide TopRow;
    if right != [] {
      KidOrder(e, n, left + right, |left|, hi);
      forall j | 0 <= j < |right| ensures b < Trees(right)[j].startAt <= Trees(right)[j].endAt {
        assert (left + right)[|left| + j] == right[j];
      }
    }
    EraseOutside(Trees(right), a, b);
  }

  method SetHint(e: Segments, h: Node, n: Node, ghost row: seq<Item>, ghost hi: int)
    requires TopRow(e, n, row, hi) && h in AllNodes(row)
    modifies e`hint
    ensures TopRow(e, n, row, hi) && e.hint == h
  {
    hide Apart, AllNodes, Tops, Below, Heads, HoldAll, Unnamed, List, Around, Trees, ValidForest;
    NodesParts(row);
    TopsAreHeads(row);
    assert allocated(AllNodes(row));
    e.hint := h;
  }

  lemma NoneDone(right: seq<Item>, a: int, b: int)
    ensures Trees([]) + EraseForest(Trees(right), a, b) == EraseForest(Trees(right), a, b)
    ensures EraseForest(Trees([]), a, b) == [] && EraseForest(Trees(right), a, b) + Trees([]) == EraseForest(Trees(right), a, b)
  {
  }

  lemma HeadIs(row: seq<Item>)
    ensures First(Heads(row)) == (if row == [] then null else row[0].node) && Last(Heads(row)) == if row == [] then null else row[|row| - 1].node
  {
    hide Heads;
  }

  /** A child that may meet the range. */
  method EraseTop(e: Segments, n: Node, child: Node, a: int, b: int, ghost left: seq<Item>, ghost right: seq<Item>, ghost hi: int) returns (ghost mid: seq<Item>)
    requires a < b && right != [] && child == right[0].node && TopRow(e, n, left + right, hi)
    modifies e`invalid, e`hint, e`hint2, n`children, n`lastChild, AllNodes(left + right)
    ensures TopRow(e, n, left + mid + right[1..], hi) && OldOrNew(AllNodes(left + right), AllNodes(left + mid + right[1..]))
    ensures Trees(mid) == EraseRange(Tree(right[0]), a, b)
  {
    hide Apart, AllNodes, Tops, Below, Heads, HoldAll, Unnamed, InRow, Trees, EraseRange;
    FirstRight(e, n, left, right, hi);
    mid := EraseKid(e, n, child, a, b, left + right, |left|, [], [], {n}, 0, hi, Some(Root));
    Spliced(left, mid, right);
    RowWith(left + right, |left|, mid);
    RowAt(left + right, |left|);
  }

  lemma PassOn(left: seq<Item>, done: seq<Item>, mid: seq<Item>, rest: seq<Item>, right: seq<Item>, a: int, b: int)
    requires rest != [] && Trees(mid) == EraseRange(Tree(rest[0]), a, b)
    requires Trees(done) + EraseForest(Trees(rest), a, b) == EraseForest(Trees(right), a, b)
    ensures Trees(done + mid) + EraseForest(Trees(rest[1..]), a, b) == EraseForest(Trees(right), a, b)
    ensures left + (done + mid) + rest[1..] == left + done + mid + rest[1..] && (mid == [rest[0]] ==> left + done + rest == left + (done + mid) + rest[1..])
  {
    hide Trees, EraseRange;
    ErasesNext(rest, a, b);
    TreesAppend(done, mid);
    Regroup(Trees(done), Trees(mid), EraseForest(Trees(rest[1..]), a, b));
    Regroup(left, done, mid);
    Spliced(left + done, mid, rest);
  }

  method ToRight(e: Segments, n: Node, a: int, b: int, start: Node, ghost left: seq<Item>, ghost right: seq<Item>, ghost hi: int) returns (ghost done: seq<Item>)
    requires a < b && right != [] && start == right[0].node && TopRow(e, n, left + right, hi)
    modifies e`invalid, e`hint, e`hint2, n`children, n`lastChild, AllNodes(left + right)
    ensures TopRow(e, n, left + done, hi) && OldOrNew(AllNodes(left + right), AllNodes(left + done))
    ensures Trees(done) == EraseForest(Trees(right), a, b)
  {
    hide Apart, AllNodes, Tops, Below, Heads, HoldAll, Unnamed, Holds, List, Around, Trees, TopRow, InRow, EraseRange, EraseForest;
    var child: Node? := start;
    ghost var rest := right;
    done := [];
    assert left + [] + rest == left + right;
    NoneDone(right, a, b);
    while child != null
      invariant child == First(Heads(rest)) && TopRow(e, n, left + done + rest, hi) && OldOrNew(AllNodes(left + right), AllNodes(left + done + rest))
      invariant Trees(done) + EraseForest(Trees(rest), a, b) == EraseForest(Trees(right), a, b)
      decreases |rest|
    {
      HeadIs(rest);
      FirstRight(e, n, left + done, rest, hi);
      ErasesNext(rest, a, b);
      var next := child.next;
      if child.startAt > b {
        ErasesNone(e, n, left + done, rest, hi, a, b);
        SetHint(e, child, n, left + done + rest, hi);
        TreesAppend(done, rest);
        Regroup(left, done, rest);
        done := done + rest;
        return;
      }
      ghost var mid := [rest[0]];
      if child.endAt < a {
        if next != null {
          SetHint(e, next, n, left + done + rest, hi);
        }
      } else {
        mid := EraseTop(e, n, child, a, b, left + done, rest, hi);
      }
      PassOn(left, done, mid, rest, right, a, b);
      done, rest := done + mid, rest[1..];
      child := next;
    }
    HeadIs(rest);
    assert rest == [] && left + done + rest == left + done;
    NoneDone([], a, b);
  }

  /** The last of the children that are left to the left. */
  lemma LastLeft(e: Segments, n: Node, left: seq<Item>, right: seq<Item>, hi: int)
    requires TopRow(e, n, left + right, hi) && left != []
    ensures var x, rest := left[|left| - 1], left[..|left| - 1];
      && left + right == rest + ([x] + right)
      && x.node.prev == Last(Heads(rest)) && x.node.startAt == x.startAt && x.node.endAt == x.endAt && x.node in AllNodes(left + right)
      && x.startAt <= x.endAt
  {
    hide Heads, TopRow, AllNodes;
    var x, rest := left[|left| - 1], left[..|left| - 1];
    assert left == rest + [x];
    Regroup(rest, [x], right);
    FirstRight(e, n, rest, [x] + right, hi);
  }

  lemma ErasesLast(left: seq<Item>, a: int, b: int)
    requires left != []
    ensures var x := left[|left| - 1];
      && EraseForest(Trees(left), a, b) == EraseForest(Trees(left[..|left| - 1]), a, b) + EraseRange(Tree(x), a, b)
      && (x.startAt <= x.endAt < a < b || a < b < x.startAt <= x.endAt ==> EraseRange(Tree(x), a, b) == [Tree(x)])
  {
    hide EraseForest, EraseRange;
    var x, rest := left[|left| - 1], left[..|left| - 1];
    TreesParts(left, |left| - 1);
    assert Trees(left) == Trees(rest) + [Tree(x)];
    EraseAppend(Trees(rest), [Tree(x)], a, b);
    EraseSingle(Tree(x), a, b);
    LeftAlone(Tree(x), a, b);
  }

  lemma LeftAlone(s: Segment, a: int, b: int)
    ensures s.startAt <= s.endAt < a < b || a < b < s.startAt <= s.endAt ==> EraseRange(s, a, b) == [s]
  {
  }

  lemma ErasesNoneLeft(e: Segments, n: Node, left: seq<Item>, right: seq<Item>, hi: int, a: int, b: int)
    requires TopRow(e, n, left + right, hi) && a < b && (left != [] ==> left[|left| - 1].endAt < a)
    ensures EraseForest(Trees(left), a, b) == Trees(left)
  {
    hide TopRow;
    forall j | 0 <= j < |left| ensures Trees(left)[j].startAt <= Trees(left)[j].endAt < a {
      assert (left + right)[j] == left[j] && (left + right)[|left| - 1] == left[|left| - 1];
      KidOrder(e, n, left + right, j, hi);
    }
    EraseOutside(Trees(left), a, b);
  }

  lemma PassBack(left: seq<Item>, mid: seq<Item>, done: seq<Item>, right: seq<Item>, all: seq<Item>, a: int, b: int)
    requires left != [] && Trees(mid) == EraseRange(Tree(left[|left| - 1]), a, b)
    requires EraseForest(Trees(left), a, b) + Trees(done) == EraseForest(Trees(all), a, b)
    ensures var rest := left[..|left| - 1];
      && EraseForest(Trees(rest), a, b) + Trees(mid + done) == EraseForest(Trees(all), a, b)
      && rest + mid + (done + right) == rest + (mid + done) + right
      && (mid == [left[|left| - 1]] ==> left + done + right == rest + (mid + done) + right)
  {
    hide Trees, EraseRange, EraseForest;
    var rest := left[..|left| - 1];
    ErasesLast(left, a, b);
    TreesAppend(mid, done);
    Regroup(EraseForest(Trees(rest), a, b), Trees(mid), Trees(done));
    Regroup(rest + mid, done, right);
    Regroup(rest, mid, done);
    assert left == rest + [left[|left| - 1]];
  }

  method ToLeft(e: Segments, n: Node, a: int, b: int, start: Node?, ghost left: seq<Item>, ghost right: seq<Item>, ghost hi: int) returns (ghost done: seq<Item>)
    requires a < b && start == Last(Heads(left)) && TopRow(e, n, left + right, hi)
    modifies e`invalid, e`hint, e`hint2, n`children, n`lastChild, AllNodes(left + right)
    ensures TopRow(e, n, done + right, hi) && OldOrNew(AllNodes(left + right), AllNodes(done + right))
    ensures Trees(done) == EraseForest(Trees(left), a, b)
  {
    hide Apart, AllNodes, Tops, Below, Heads, HoldAll, Unnamed, Holds, List, Around, Trees, TopRow, InRow, EraseRange, EraseForest;
    var child: Node? := start;
    ghost var rest := left;
    done := [];
    assert left + [] + right == left + right;
    NoneDone(left, a, b);
    while child != null
      invariant child == Last(Heads(rest)) && TopRow(e, n, rest + done + right, hi) && OldOrNew(AllNodes(left + right), AllNodes(rest + done + right))
      invariant EraseForest(Trees(rest), a, b) + Trees(done) == EraseForest(Trees(left), a, b)
      decreases |rest|
    {
      HeadIs(rest);
      Regroup(rest, done, right);
      LastLeft(e, n, rest, done + right, hi);
      ErasesLast(rest, a, b);
      var prev := child.prev;
      if e.hint == null {
        SetHint(e, child, n, rest + done + right, hi);
      }
      ghost var mid := [rest[|rest| - 1]];
      if child.startAt <= b {
        if child.endAt < a {
          ErasesNoneLeft(e, n, rest, done + right, hi, a, b);
          TreesAppend(rest, done);
          done := rest + done;
          return;
        }
        mid := EraseLast(e, n, child, a, b, rest, done + right, hi);
      }
      PassBack(rest, mid, done, right, left, a, b);
      rest, done := rest[..|rest| - 1], mid + done;
      child := prev;
    }
    HeadIs(rest);
    assert rest == [] && rest + done + right == done + right;
    NoneDone(left, a, b);
  }

  method EraseLast(e: Segments, n: Node, child: Node, a: int, b: int, ghost left: seq<Item>, ghost right: seq<Item>, ghost hi: int) returns (ghost mid: seq<Item>)
    requires a < b && left != [] && child == left[|left| - 1].node && TopRow(e, n, left + right, hi)
    modifies e`invalid, e`hint, e`hint2, n`children, n`lastChild, AllNodes(left + right)
    ensures TopRow(e, n, left[..|left| - 1] + mid + right, hi) && OldOrNew(AllNodes(left + right), AllNodes(left[..|left| - 1] + mid + right))
    ensures Trees(mid) == EraseRange(Tree(left[|left| - 1]), a, b)
  {
    hide AllNodes, TopRow, Trees, EraseRange;
    LastLeft(e, n, left, right, hi);
    ghost var x := left[|left| - 1];
    mid := EraseTop(e, n, child, a, b, left[..|left| - 1], [x] + right, hi);
    assert ([x] + right)[1..] == right;
  }

  // ----- erase_segments -----

  /** The children of the toplevel segment are a row. */
  lemma WholeRow(e: Segments, root: Item)
    requires Whole(e, root)
    ensures TopRow(e, root.node, root.kids, root.endAt) && root.node !in AllNodes(root.kids)
    ensures root.node.children == First(Heads(root.kids)) && (root.node.context == root.context == Some(Root)) && root.isStart
  {
    hide AllNodes, Heads, HoldAll, Tops, Below;
    ApartSingle(root);
    UnnamedSingle(root);
    NodesParts(root.kids);
    TopsAreHeads(root.kids);
    assert [] + Unnamed(root.kids) + [] == Unnamed(root.kids);
  }

  lemma RowWhole(e: Segments, root: Item, kids: seq<Item>)
    requires TopRow(e, root.node, kids, root.endAt) && e.root == root.node && IsTop(root.node) && ValidRoot(Tree(root))
    requires var n := root.node; n.context == root.context && n.startAt == root.startAt && n.endAt == root.endAt && n.isStart == root.isStart
    ensures Whole(e, root.(kids := kids))
  {
    hide AllNodes, Heads, HoldAll, Tops, Below;
    var after := root.(kids := kids);
    ApartSingle(after);
    UnnamedSingle(after);
    NodesParts(kids);
    TopsAreHeads(kids);
    assert [] + Unnamed(kids) + [] == Unnamed(kids);
  }

  lemma WholeFields(e: Segments, root: Item)
    requires Whole(e, root)
    ensures var n := root.node; n.context == root.context && n.startAt == root.startAt && n.endAt == root.endAt && n.isStart == root.isStart
  {
  }

  /** `erase_segments`.  Whatever the hint is, the tree is what erasing gives; the list
      and the hints stay right. */
  method EraseSegments(e: Segments, a: int, b: int, hint: Node?, ghost root: Item) returns (ghost after: Item)
    requires a < b && Whole(e, root) && Live(hint, Nodes(root))
    modifies e`invalid, e`hint, e`hint2, Nodes(root)
    ensures Whole(e, after) && after.node == root.node && OldOrNew(Nodes(root), Nodes(after))
    ensures Tree(after) == Tree(root).(children := EraseForest(Tree(root).children, a, b))
  {
    hide Apart, AllNodes, Tops, Below, Heads, HoldAll, Unnamed, Holds, List, Around, Trees, TopRow, InRow, EraseRange, EraseForest, ValidRoot;
    WholeRow(e, root);
    WholeFields(e, root);
    HeadIs(root.kids);
    assert allocated(Nodes(root));
    after := root;
    if e.root.children == null {
      NoneDone([], a, b);
      return;
    }
    var start := if hint == null then e.hint else hint;
    ghost var k;
    start, k := Climb(e, start, e.root, root, []);
    if start == null {
      start, k := e.root.children, 0;
    }
    WholeRow(e, root);
    ghost var left, right := root.kids[..k], root.kids[k..];
    assert root.kids == left + right && right != [] && right[0] == root.kids[k];
    FirstRight(e, root.node, left, right, root.endAt);
    var before := start.prev;
    assert allocated(Nodes(root)) && allocated(AllNodes(left + right));
    right := ToRight(e, e.root, a, b, start, left, right, root.endAt);
    assert allocated(AllNodes(left + right));
    left := ToLeft(e, e.root, a, b, before, left, right, root.endAt);
    RowWhole(e, root, left + right);
    after := root.(kids := left + right);
    BothSides(root.kids, k, left, right, a, b);
  }

  lemma BothSides(row: seq<Item>, k: nat, left: seq<Item>, right: seq<Item>, a: int, b: int)
    requires k <= |row| && Trees(left) == EraseForest(Trees(row[..k]), a, b) && Trees(right) == EraseForest(Trees(row[k..]), a, b)
    ensures Trees(left + right) == EraseForest(Trees(row), a, b)
  {
    hide Trees, EraseForest;
    TreesParts(row, k);
    TreesAppend(left, right);
    assert Trees(row) == Trees(row)[..k] + Trees(row)[k..];
    EraseAppend(Trees(row)[..k], Trees(row)[k..], a, b);
  }
}
