/** Moving the offsets of segments on the heap (`fix_offsets_insert_`,
    `fix_offsets_delete_`). */
module NodeShift {
  import opened SegmentTree
  import opened SegmentInsert
  import opened SegmentDelete
  import opened SegmentLinks
  import opened SegmentItems
  import opened SegmentState
  import opened NodeTree

  // ----- items with other offsets -----

  /** The same nodes with the same contexts in the same places. */
  predicate Same(i: Item, j: Item)
    decreases i, 1
  {
    i.node == j.node && i.context == j.context && SameRow(i.kids, j.kids)
  }

  predicate SameRow(x: seq<Item>, y: seq<Item>)
    decreases x, 0
  {
    |x| == |y| && (x != [] ==> Same(x[0], y[0]) && SameRow(x[1..], y[1..]))
  }

  lemma {:induction false} SameFacts(x: seq<Item>, y: seq<Item>)
    requires SameRow(x, y)
    ensures AllNodes(x) == AllNodes(y) && Unnamed(x) == Unnamed(y) && (Apart(x) <==> Apart(y)) && Heads(x) == Heads(y)
    ensures Tops(x) == Tops(y) && Below(x) == Below(y)
    decreases x
  {
    if x != [] {
      SameFacts(x[0].kids, y[0].kids);
      SameFacts(x[1..], y[1..]);
    }
  }

  lemma SameOne(i: Item, j: Item)
    requires Same(i, j)
    ensures Nodes(i) == Nodes(j) && Unnamed([i]) == Unnamed([j]) && (Apart([i]) <==> Apart([j])) && SameRow([i], [j])
  {
    hide AllNodes, Unnamed, Apart;
    assert SameRow([i], [j]) by { assert [i][1..] == [] && [j][1..] == []; }
    SameFacts([i], [j]);
    AllNodesSingle(i);
    AllNodesSingle(j);
  }

  lemma SameAppend(a: seq<Item>, b: seq<Item>, x: seq<Item>, y: seq<Item>)
    requires SameRow(a, x) && SameRow(b, y)
    ensures SameRow(a + b, x + y)
    decreases a
  {
    if a == [] {
      assert a + b == b && x + y == y;
    } else {
      SameAppend(a[1..], b, x[1..], y);
      assert (a + b)[1..] == a[1..] + b && (x + y)[1..] == x[1..] + y;
    }
  }

  function ShiftItem(i: Item, delta: int): Item
    decreases i, 1
  {
    i.(startAt := i.startAt + delta, endAt := i.endAt + delta, kids := ShiftItems(i.kids, delta))
  }

  function ShiftItems(row: seq<Item>, delta: int): (r: seq<Item>)
    decreases row, 0
  {
    if row == [] then [] else [ShiftItem(row[0], delta)] + ShiftItems(row[1..], delta)
  }

  lemma {:induction false} ShiftedTrees(row: seq<Item>, delta: int)
    ensures Trees(ShiftItems(row, delta)) == ShiftAll(Trees(row), delta) && SameRow(row, ShiftItems(row, delta))
    decreases row
  {
    if row != [] {
      ShiftedTrees(row[0].kids, delta);
      ShiftedTrees(row[1..], delta);
      assert ShiftItems(row, delta)[1..] == ShiftItems(row[1..], delta);
      assert Trees(row)[1..] == Trees(row[1..]);
    }
  }

  /** What deleting does to the offsets of a row. */
  function FixItem(i: Item, offset: int, length: int): Item
    decreases i, 1
  {
    i.(startAt := FixOne(i.startAt, offset, length), endAt := FixOne(i.endAt, offset, length), kids := FixItems(i.kids, offset, length))
  }

  function FixItems(row: seq<Item>, offset: int, length: int): (r: seq<Item>)
    decreases row, 0
  {
    if row == [] then [] else [if row[0].endAt <= offset then row[0] else FixItem(row[0], offset, length)] + FixItems(row[1..], offset, length)
  }

  lemma {:induction false} SameItself(row: seq<Item>)
    ensures SameRow(row, row)
    decreases row
  {
    if row != [] {
      SameItself(row[0].kids);
      SameItself(row[1..]);
    }
  }

  lemma {:induction false} FixedTrees(row: seq<Item>, offset: int, length: int)
    ensures Trees(FixItems(row, offset, length)) == FixAll(Trees(row), offset, length) && SameRow(row, FixItems(row, offset, length))
    decreases row
  {
    if row != [] {
      FixedTrees(row[0].kids, offset, length);
      FixedTrees(row[1..], offset, length);
      SameItself(row[0].kids);
      assert FixItems(row, offset, length)[1..] == FixItems(row[1..], offset, length);
      assert Trees(row)[1..] == Trees(row[1..]);
    }
  }

  // ----- fix_offsets_insert_ -----

  lemma ShiftNext(row: seq<Item>, k: nat, delta: int)
    requires k < |row|
    ensures ShiftItems(row[..k + 1], delta) == ShiftItems(row[..k], delta) + [ShiftItem(row[k], delta)]
    ensures AllNodes(ShiftItems(row[..k], delta)) == AllNodes(row[..k]) && Tops(ShiftItems(row[..k], delta)) == Tops(row[..k])
    ensures Below(ShiftItems(row[..k], delta)) == Below(row[..k])
  {
    hide ShiftItem;
    assert row[..k + 1] == row[..k] + [row[k]];
    ShiftAppend(row[..k], [row[k]], delta);
    ShiftedTrees(row[..k], delta);
    SameFacts(row[..k], ShiftItems(row[..k], delta));
  }

  lemma {:induction false} ShiftAppend(a: seq<Item>, b: seq<Item>, delta: int)
    ensures ShiftItems(a + b, delta) == ShiftItems(a, delta) + ShiftItems(b, delta)
    decreases a
  {
    if a == [] {
      assert a + b == b;
    } else {
      assert (a + b)[1..] == a[1..] + b;
      ShiftAppend(a[1..], b, delta);
    }
  }

  lemma KidsList(i: Item)
    requires Holds(i) && Apart([i])
    ensures HoldAll(i.kids) && Apart(i.kids) && i.node !in AllNodes(i.kids) && Forward(Heads(i.kids), 0) && i.node.children == First(Heads(i.kids))
    ensures List(i.node, Heads(i.kids))
    ensures var n := i.node; n.context == i.context && n.startAt == i.startAt && n.endAt == i.endAt && n.isStart == i.isStart
  {
    ApartSingle(i);
  }

  lemma ShiftedHolds(i: Item, delta: int)
    requires HoldAll(ShiftItems(i.kids, delta)) && List(i.node, Heads(i.kids))
    requires var n := i.node; n.context == i.context && n.startAt == i.startAt + delta && n.endAt == i.endAt + delta && n.isStart == i.isStart
    ensures Holds(ShiftItem(i, delta))
  {
    hide HoldAll, List, Heads;
    ShiftedTrees(i.kids, delta);
    SameFacts(i.kids, ShiftItems(i.kids, delta));
  }

  /** The segment and everything below it moves. */
  method ShiftNode(n: Node, delta: int, ghost i: Item)
    requires i.node == n && Holds(i) && Apart([i])
    modifies Nodes(i)`startAt, Nodes(i)`endAt
    ensures Holds(ShiftItem(i, delta))
    decreases i, 1
  {
    hide Apart, AllNodes, Tops, Below, HoldAll, Holds, List, Heads, ShiftItem;
    KidsList(i);
    NodesParts(i.kids);
    TopsAreHeads(i.kids);
    assert allocated(AllNodes(i.kids));
    n.startAt := n.startAt + delta;
    n.endAt := n.endAt + delta;
    ShiftRow(n.children, delta, i.kids);
    ShiftedHolds(i, delta);
  }

  /** Siblings move. */
  method ShiftRow(first: Node?, delta: int, ghost row: seq<Item>)
    requires HoldAll(row) && Apart(row) && first == First(Heads(row)) && Forward(Heads(row), 0)
    modifies AllNodes(row)`startAt, AllNodes(row)`endAt
    ensures HoldAll(ShiftItems(row, delta))
    decreases row, 0
  {
    hide Apart, AllNodes, Tops, Below, HoldAll, Holds, List, Heads, ShiftItem, ShiftItems;
    var child := first;
    ghost var k: nat := 0;
    RowStart(row, delta);
    assert allocated(AllNodes(row)) && allocated(Among(Heads(row)));
    while child != null
      invariant k <= |row| && child == After(Heads(row), k - 1) && Forward(Heads(row), 0)
      invariant HoldAll(ShiftItems(row[..k], delta)) && HoldAll(row[k..])
      decreases |row| - k
    {
      ChildAt(row, k);
      var next := child.next;
      ShiftChild(child, delta, row, k);
      child, k := next, k + 1;
    }
    RowEnd(row, k);
  }

  lemma RowStart(row: seq<Item>, delta: int)
    ensures ShiftItems(row[..0], delta) == [] && row[0..] == row && HoldAll([]) && |Heads(row)| == |row|
  {
  }

  lemma RowEnd(row: seq<Item>, k: nat)
    requires k == |row|
    ensures row[..k] == row
  {
  }

  lemma ChildAt(row: seq<Item>, k: nat)
    requires k < |row| && Forward(Heads(row), 0)
    ensures |Heads(row)| == |row| && Heads(row)[k] == row[k].node && row[k].node.next == After(Heads(row), k) && Nodes(row[k]) <= AllNodes(row)
  {
    hide Heads;
    KidBelow(row, k);
    assert Heads(row)[k] == row[k].node;
  }

  method ShiftChild(child: Node, delta: int, ghost row: seq<Item>, ghost k: nat)
    requires k < |row| && child == row[k].node && Apart(row) && HoldAll(ShiftItems(row[..k], delta)) && HoldAll(row[k..])
    modifies Nodes(row[k])`startAt, Nodes(row[k])`endAt
    ensures HoldAll(ShiftItems(row[..k + 1], delta)) && HoldAll(row[k + 1..])
    decreases row[k], 2
  {
    hide Apart, AllNodes, Tops, Below, HoldAll, Holds, List, Heads, ShiftItem, ShiftItems;
    ApartAt(row, k);
    ApartSingle(row[k]);
    NextKid(row, k);
    ShiftNext(row, k, delta);
    NodesParts(row[..k]);
    NodesParts(row[k + 1..]);
    assert allocated(AllNodes(row[..k])) && allocated(AllNodes(row[k + 1..]));
    ShiftNode(child, delta, row[k]);
    HoldAllAppend(ShiftItems(row[..k], delta), [ShiftItem(row[k], delta)]);
    HoldAllSingle(ShiftItem(row[k], delta));
  }

  // ----- fix_offsets_delete_ -----

  /** What becomes of a child. */
  function Fixed(i: Item, offset: int, length: int): Item {
    if i.endAt <= offset then i else FixItem(i, offset, length)
  }

  lemma {:induction false} FixedAll(row: seq<Item>, cur: seq<Item>, offset: int, length: int)
    requires |row| == |cur| && forall x :: 0 <= x < |row| ==> cur[x] == Fixed(row[x], offset, length)
    ensures cur == FixItems(row, offset, length)
    decreases row
  {
    if row != [] {
      assert cur[0] == Fixed(row[0], offset, length);
      FixedAll(row[1..], cur[1..], offset, length);
      assert cur == [cur[0]] + cur[1..];
    }
  }

  lemma FixedSame(i: Item, offset: int, length: int)
    ensures Same(i, Fixed(i, offset, length))
  {
    FixedTrees(i.kids, offset, length);
    SameItself(i.kids);
  }

  /** A row in which one item is replaced by one with the same nodes. */
  lemma ReplaceSame(row: seq<Item>, j: nat, x: Item)
    requires j < |row| && Same(row[j], x)
    ensures AllNodes(row[j := x]) == AllNodes(row) && Heads(row[j := x]) == Heads(row) && (Apart(row[j := x]) <==> Apart(row))
    ensures HoldAll(row[j := x]) <==> HoldAll(row[..j]) && Holds(x) && HoldAll(row[j + 1..])
  {
    hide AllNodes, Apart, Heads, HoldAll, Holds;
    var r := row[j := x];
    assert r[..j] == row[..j] && r[j + 1..] == row[j + 1..];
    HoldAllAt(r, j);
    ApartAt(row, j);
    ApartAt(r, j);
    ApartSingle(row[j]);
    ApartSingle(x);
    SameOne(row[j], x);
    SameHeads(row, j, x);
  }

  method FixChild(child: Node, offset: int, length: int, ghost row: seq<Item>, ghost j: nat)
    requires j < |row| && child == row[j].node && Apart(row) && HoldAll(row) && Valid(Tree(row[j])) && offset < row[j].endAt
    modifies Nodes(row[j])`startAt, Nodes(row[j])`endAt
    ensures HoldAll(row[j := FixItem(row[j], offset, length)])
    decreases row[j], 4
  {
    hide Apart, AllNodes, Tops, Below, HoldAll, Holds, List, Heads, FixItem, Valid;
    ApartAt(row, j);
    ApartSingle(row[j]);
    HoldAllAt(row, j);
    NodesParts(row[..j]);
    NodesParts(row[j + 1..]);
    assert allocated(AllNodes(row[..j])) && allocated(AllNodes(row[j + 1..]));
    FixNode(child, offset, length, null, row[j], 0);
    FixedSame(row[j], offset, length);
    ReplaceSame(row, j, FixItem(row[j], offset, length));
  }

  /** While the children are fixed: those from `from` to `to` are. */
  ghost predicate Fixing(i: Item, cur: seq<Item>, from: int, to: int, offset: int, length: int) {
    && |cur| == |i.kids| && 0 <= from <= to <= |cur|
    && (forall x :: 0 <= x < |cur| ==> cur[x] == if from <= x < to then Fixed(i.kids[x], offset, length) else i.kids[x])
    && AllNodes(cur) == AllNodes(i.kids) && Heads(cur) == Heads(i.kids) && Apart(cur)
  }

  lemma FixingStart(i: Item, k: nat, offset: int, length: int)
    requires Holds(i) && Apart([i]) && k <= |i.kids|
    ensures Fixing(i, i.kids, k, k, offset, length) && i.node !in AllNodes(i.kids) && HoldAll(i.kids) && List(i.node, Heads(i.kids))
  {
    hide HoldAll, List, Heads, AllNodes;
    ApartSingle(i);
  }

  lemma FixingAt(i: Item, cur: seq<Item>, from: int, to: int, j: nat, offset: int, length: int)
    requires Fixing(i, cur, from, to, offset, length) && j < |cur| && !(from <= j < to) && HoldAll(cur) && List(i.node, Heads(cur))
    ensures |Heads(cur)| == |cur| && Heads(cur)[j] == cur[j].node && cur[j] == i.kids[j] && Nodes(cur[j]) <= AllNodes(i.kids)
    ensures cur[j].node.next == After(Heads(cur), j) && cur[j].node.prev == Before(Heads(cur), j) && cur[j].node.endAt == cur[j].endAt
  {
    hide AllNodes, Heads, Apart, Holds;
    KidBelow(cur, j);
    HoldAllAt(cur, j);
    HoldsParts(cur[j]);
    assert Heads(cur)[j] == cur[j].node;
  }

  lemma FixingNext(i: Item, cur: seq<Item>, from: int, to: int, from': int, to': int, j: nat, x: Item, offset: int, length: int)
    requires Fixing(i, cur, from, to, offset, length) && j < |cur| && !(from <= j < to) && x == Fixed(i.kids[j], offset, length)
    requires (from' == from && to == j && to' == j + 1) || (to' == to && from == j + 1 && from' == j)
    ensures Fixing(i, cur[j := x], from', to', offset, length)
  {
    hide AllNodes, Heads, Apart, HoldAll, List, Fixed;
    FixedSame(i.kids[j], offset, length);
    ReplaceSame(cur, j, x);
  }

  /** One child more to the right or to the left; one that ends before the offset stays. */
  method FixNext(child: Node, offset: int, length: int, ghost i: Item, ghost cur: seq<Item>, ghost from: int, ghost to: int, ghost j: nat, ghost from': int, ghost to': int) returns (ghost c: seq<Item>)
    requires Fixing(i, cur, from, to, offset, length) && HoldAll(cur) && List(i.node, Heads(i.kids)) && Valid(Tree(i)) && i.node !in AllNodes(i.kids)
    requires j < |cur| && !(from <= j < to) && child == cur[j].node
    requires (from' == from && to == j && to' == j + 1) || (to' == to && from == j + 1 && from' == j)
    modifies AllNodes(i.kids)`startAt, AllNodes(i.kids)`endAt
    ensures Fixing(i, c, from', to', offset, length) && HoldAll(c) && List(i.node, Heads(i.kids))
    decreases i, 0
  {
    hide Apart, AllNodes, Tops, Below, HoldAll, Holds, List, Heads, FixItem, Fixed, Valid, Fixing;
    NodesParts(i.kids);
    TopsAreHeads(i.kids);
    assert allocated(AllNodes(i.kids));
    FixingSizes(i, cur, from, to, offset, length);
    FixingAt(i, cur, from, to, j, offset, length);
    ChildValid(i, j);
    FixedIs(i.kids[j], offset, length);
    FixingNext(i, cur, from, to, from', to', j, Fixed(i.kids[j], offset, length), offset, length);
    if child.endAt > offset {
      FixChild(child, offset, length, cur, j);
    } else {
      assert cur[j := cur[j]] == cur;
    }
    c := cur[j := Fixed(i.kids[j], offset, length)];
  }

  method FixRight(start: Node?, offset: int, length: int, ghost i: Item, ghost k: nat) returns (ghost cur: seq<Item>)
    requires Fixing(i, i.kids, k, k, offset, length) && HoldAll(i.kids) && List(i.node, Heads(i.kids)) && Valid(Tree(i)) && i.node !in AllNodes(i.kids)
    requires start == After(Heads(i.kids), k - 1)
    modifies AllNodes(i.kids)`startAt, AllNodes(i.kids)`endAt
    ensures Fixing(i, cur, k, |i.kids|, offset, length) && HoldAll(cur) && List(i.node, Heads(i.kids))
    decreases i, 2
  {
    hide Apart, AllNodes, Tops, Below, HoldAll, Holds, List, Heads, FixItem, Fixed, Valid, Fixing, After;
    var child := start;
    cur := i.kids;
    ghost var j: nat := k;
    NodesParts(i.kids);
    TopsAreHeads(i.kids);
    FixingSizes(i, cur, k, k, offset, length);
    WhereAfter(i.kids, j);
    while child != null
      invariant j <= |i.kids| && child == (if j == |i.kids| then null else i.kids[j].node) && Fixing(i, cur, k, j, offset, length) && HoldAll(cur) && List(i.node, Heads(i.kids))
      decreases |i.kids| - j
    {
      child, cur := RightStep(child, offset, length, i, cur, k, j);
      j := j + 1;
    }
  }

  method RightStep(child: Node, offset: int, length: int, ghost i: Item, ghost cur: seq<Item>, ghost k: nat, ghost j: nat) returns (next: Node?, ghost c: seq<Item>)
    requires Fixing(i, cur, k, j, offset, length) && HoldAll(cur) && List(i.node, Heads(i.kids)) && Valid(Tree(i)) && i.node !in AllNodes(i.kids)
    requires j < |i.kids| && child == i.kids[j].node
    modifies AllNodes(i.kids)`startAt, AllNodes(i.kids)`endAt
    ensures Fixing(i, c, k, j + 1, offset, length) && HoldAll(c) && List(i.node, Heads(i.kids))
    ensures next == if j + 1 == |i.kids| then null else i.kids[j + 1].node
    decreases i, 1
  {
    hide Apart, AllNodes, Tops, Below, HoldAll, Holds, List, Heads, FixItem, Fixed, Valid, Fixing, After;
    FixingSizes(i, cur, k, j, offset, length);
    FixingAt(i, cur, k, j, j, offset, length);
    WhereAfter(i.kids, j + 1);
    next := child.next;
    c := FixNext(child, offset, length, i, cur, k, j, j, k, j + 1);
  }

  lemma WhereAfter(row: seq<Item>, j: nat)
    requires j <= |row|
    ensures After(Heads(row), j - 1) == if j == |row| then null else row[j].node
  {
    hide Heads;
  }

  lemma FixingSizes(i: Item, cur: seq<Item>, from: int, to: int, offset: int, length: int)
    requires Fixing(i, cur, from, to, offset, length)
    ensures |cur| == |i.kids| == |Heads(i.kids)| && 0 <= from <= to <= |cur| && AllNodes(cur) == AllNodes(i.kids) && Heads(cur) == Heads(i.kids) && Apart(cur)
  {
    hide AllNodes, Heads, Apart;
  }

  lemma FixedIs(i: Item, offset: int, length: int)
    ensures Fixed(i, offset, length) == if i.endAt <= offset then i else FixItem(i, offset, length)
  {
  }

  lemma ChildValid(i: Item, j: nat)
    requires Valid(Tree(i)) && j < |i.kids|
    ensures Valid(Tree(i.kids[j])) && forall x :: 0 <= x < j ==> i.kids[x].endAt <= i.kids[j].endAt
  {
    var cs := Trees(i.kids);
    ForestBounds(cs, i.startAt, i.endAt, i.context);
    assert cs[j] == Tree(i.kids[j]);
    forall x | 0 <= x < j ensures i.kids[x].endAt <= i.kids[j].endAt {
      assert cs[x].endAt <= cs[j].startAt <= cs[j].endAt;
    }
  }

  method FixLeft(start: Node?, offset: int, length: int, ghost i: Item, ghost k: nat, ghost done: seq<Item>) returns (ghost cur: seq<Item>)
    requires Fixing(i, done, k, |i.kids|, offset, length) && HoldAll(done) && List(i.node, Heads(i.kids)) && Valid(Tree(i)) && i.node !in AllNodes(i.kids)
    requires start == Before(Heads(i.kids), k)
    modifies AllNodes(i.kids)`startAt, AllNodes(i.kids)`endAt
    ensures Fixing(i, cur, 0, |i.kids|, offset, length) && HoldAll(cur) && List(i.node, Heads(i.kids))
    decreases i, 1
  {
    hide Apart, AllNodes, Tops, Below, HoldAll, Holds, List, Heads, FixItem, Fixed, Valid, Fixing;
    var child := start;
    cur := done;
    ghost var j: nat := k;
    NodesParts(i.kids);
    TopsAreHeads(i.kids);
    FixingSizes(i, cur, k, |i.kids|, offset, length);
    assert allocated(AllNodes(i.kids));
    while child != null
      invariant j <= |i.kids| && child == Before(Heads(i.kids), j) && Fixing(i, cur, j, |i.kids|, offset, length) && HoldAll(cur) && List(i.node, Heads(i.kids))
      decreases j
    {
      FixingSizes(i, cur, j, |i.kids|, offset, length);
      FixingAt(i, cur, j, |i.kids|, j - 1, offset, length);
      ChildValid(i, j - 1);
      if child.endAt <= offset {
        FixingRest(i, cur, j, offset, length);
        return;
      }
      var prev := child.prev;
      cur := FixNext(child, offset, length, i, cur, j, |i.kids|, j - 1, j - 1, |i.kids|);
      child, j := prev, j - 1;
    }
    FixingSizes(i, cur, j, |i.kids|, offset, length);
  }

  /** The rest ends before the offset. */
  lemma FixingRest(i: Item, cur: seq<Item>, j: nat, offset: int, length: int)
    requires 0 < j <= |i.kids| && Fixing(i, cur, j, |i.kids|, offset, length) && i.kids[j - 1].endAt <= offset && Valid(Tree(i))
    ensures Fixing(i, cur, 0, |i.kids|, offset, length)
  {
    hide AllNodes, Heads, Apart, Valid, Fixed, FixItem, Tree, Trees;
    ChildValid(i, j - 1);
    forall x | 0 <= x < |cur| ensures cur[x] == Fixed(i.kids[x], offset, length) {
      FixedIs(i.kids[x], offset, length);
    }
  }

  /** `fix_offsets_delete_`, where the hint was followed up to a child of the segment. */
  method FixNode(n: Node, offset: int, length: int, hint: Node?, ghost i: Item, ghost k: nat)
    requires i.node == n && Holds(i) && Apart([i]) && Valid(Tree(i)) && offset < i.endAt
    requires hint != null ==> k < |i.kids| && hint == i.kids[k].node
    modifies Nodes(i)`startAt, Nodes(i)`endAt
    ensures Holds(FixItem(i, offset, length))
    decreases i, 3
  {
    hide Apart, AllNodes, Tops, Below, HoldAll, Holds, List, Heads, FixItem, Fixed, Valid, Fixing;
    var h := if hint == null then n.children else hint;
    ghost var from := if hint == null then 0 else k;
    KidsList(i);
    ChildStart(i, from, hint);
    FixingStart(i, from, offset, length);
    NodesParts(i.kids);
    assert allocated(AllNodes(i.kids));
    ghost var cur := FixRight(h, offset, length, i, from);
    BeforeStart(i, cur, from, hint, offset, length);
    var before := if h != null then h.prev else null;
    cur := FixLeft(before, offset, length, i, from, cur);
    FixOwn(n, offset, length, i, cur);
  }

  method FixOwn(n: Node, offset: int, length: int, ghost i: Item, ghost cur: seq<Item>)
    requires i.node == n && n !in AllNodes(i.kids) && Fixing(i, cur, 0, |i.kids|, offset, length) && HoldAll(cur) && List(i.node, Heads(i.kids))
    requires n.context == i.context && n.startAt == i.startAt && n.endAt == i.endAt && n.isStart == i.isStart
    modifies n`startAt, n`endAt
    ensures Holds(FixItem(i, offset, length))
  {
    hide Apart, AllNodes, Tops, Below, HoldAll, Holds, List, Heads, FixItem, Fixed, Fixing;
    FixingSizes(i, cur, 0, |i.kids|, offset, length);
    NodesParts(cur);
    TopsAreHeads(i.kids);
    assert allocated(AllNodes(cur));
    n.startAt := FixOne(n.startAt, offset, length);
    n.endAt := FixOne(n.endAt, offset, length);
    FixedHolds(i, cur, offset, length);
  }

  lemma ChildStart(i: Item, k: nat, hint: Node?)
    requires Holds(i) && if hint == null then k == 0 else k < |i.kids| && hint == i.kids[k].node
    ensures k <= |i.kids| && (if hint == null then i.node.children else hint) == After(Heads(i.kids), k - 1)
  {
    hide Heads, HoldAll;
    if hint != null { assert Heads(i.kids)[k] == i.kids[k].node; }
  }

  lemma BeforeStart(i: Item, cur: seq<Item>, k: nat, hint: Node?, offset: int, length: int)
    requires Fixing(i, cur, k, |i.kids|, offset, length) && List(i.node, Heads(i.kids)) && if hint == null then k == 0 else k < |i.kids| && hint == i.kids[k].node
    ensures var h := if hint == null then i.node.children else hint; (if h != null then h.prev else null) == Before(Heads(i.kids), k)
  {
    hide Heads;
    if hint != null { assert Heads(i.kids)[k] == i.kids[k].node; }
  }

  lemma FixedHolds(i: Item, cur: seq<Item>, offset: int, length: int)
    requires Fixing(i, cur, 0, |i.kids|, offset, length) && HoldAll(cur) && List(i.node, Heads(i.kids))
    requires var n := i.node; n.context == i.context && n.startAt == FixOne(i.startAt, offset, length) && n.endAt == FixOne(i.endAt, offset, length) && n.isStart == i.isStart
    ensures Holds(FixItem(i, offset, length))
  {
    hide HoldAll, List, Heads, Fixed;
    FixedAll(i.kids, cur, offset, length);
  }
}
