/** Erasing a range of offsets on the heap (`segment_erase_range_`,
    `segment_erase_middle_`, `erase_segments`): the list of invalid segments and the hints
    stay right, and the tree becomes the value that erasing gives. */
module NodeErase {
  import opened Wrappers
  import opened Contexts
  import opened SegmentTree
  import opened SegmentErase
  import opened SegmentLinks
  import opened SegmentItems
  import opened SegmentState
  import opened Sequences

  /** The invalid segments before the offset `lo` and after `hi`. */
  ghost predicate Around(pre: seq<Node>, post: seq<Node>, lo: int, hi: int)
    reads Among(pre)`startAt, Among(post)`startAt
  {
    (forall j :: 0 <= j < |pre| ==> pre[j].startAt <= lo) && (forall j :: 0 <= j < |post| ==> hi <= post[j].startAt)
  }

  /** The situation before the `k`-th sibling is erased: `pre` and `post` are the invalid
      segments before and after it, `live` the nodes of the rest of the tree. */
  ghost predicate Sibling(e: Segments, p: Node, row: seq<Item>, k: nat, pre: seq<Node>, post: seq<Node>, live: set<Node>)
    reads e, p, AllNodes(row), pre, post
    requires k < |row|
  {
    && Apart(row) && p !in AllNodes(row)
    && (TopsAreHeads(row); NodesParts(row); KidBelow(row, k); List(p, Heads(row)) && Holds(row[k]))
    && Valid(Tree(row[k]))
    && e.invalid == pre + Unnamed([row[k]]) + post && Around(pre, post, row[k].startAt, row[k].endAt)
    && (forall x :: x in pre ==> x in live) && (forall x :: x in post ==> x in live)
    && p in live && AllNodes(row[..k]) <= live && AllNodes(row[k + 1..]) <= live && live !! Nodes(row[k])
    && Live(e.hint, live + Nodes(row[k])) && Live(e.hint2, live + Nodes(row[k]))
  }

  /** And after it was replaced by `mid`. */
  ghost predicate Replaced(e: Segments, p: Node, row: seq<Item>, k: nat, mid: seq<Item>, pre: seq<Node>, post: seq<Node>, live: set<Node>)
    reads e, p, AllNodes(row[..k] + mid + row[k + 1..]), AllNodes(mid)
    requires k < |row|
  {
    && Apart(mid) && live !! AllNodes(mid)
    && (TopsAreHeads(row[..k] + mid + row[k + 1..]); NodesParts(row[..k] + mid + row[k + 1..]); NodesParts(mid);
        List(p, Heads(row[..k] + mid + row[k + 1..])) && HoldAll(mid))
    && e.invalid == pre + Unnamed(mid) + post
    && Live(e.hint, live + AllNodes(mid)) && Live(e.hint2, live + AllNodes(mid))
  }

  // ----- moving the ends of a segment, or splitting it -----

  lemma OneReplaced(row: seq<Item>, k: nat, i: Item)
    requires k < |row| && i.node == row[k].node
    ensures Heads(row[..k] + [i] + row[k + 1..]) == Heads(row) && Tops([i]) == {i.node} && Below([i]) == AllNodes(i.kids)
    ensures AllNodes([i]) == Nodes(i) && (Apart([i]) <==> i.node !in AllNodes(i.kids) && Apart(i.kids)) && Unnamed([i]) == Itself(i) + Unnamed(i.kids)
  {
    hide Heads;
    AllNodesSingle(i);
    ApartSingle(i);
    UnnamedSingle(i);
    assert [i][1..] == [];
  }

  /** What is known of the sibling that is erased. */
  lemma SiblingFacts(e: Segments, p: Node, row: seq<Item>, k: nat, pre: seq<Node>, post: seq<Node>, live: set<Node>)
    requires k < |row| && Sibling(e, p, row, k, pre, post, live)
    ensures var i := row[k]; var n := i.node;
      && Valid(Tree(i)) && Holds(i) && i.node !in AllNodes(i.kids) && Apart(i.kids) && n != p && p !in Nodes(i)
      && n.context == i.context && n.startAt == i.startAt && n.endAt == i.endAt && n.isStart == i.isStart
      && Tops(row) !! AllNodes(i.kids) && n in Tops(row) && Nodes(i) <= AllNodes(row) && Tops(row) <= AllNodes(row)
      && Tops(row) == Among(Heads(row)) && List(p, Heads(row)) && AllNodes(i.kids) == Tops(i.kids) + Below(i.kids)
  {
    hide Apart, AllNodes, Tops, Below, Heads, HoldAll, List, Unnamed, Live;
    ApartAt(row, k);
    ApartTops(row);
    KidBelow(row, k);
    NodesParts(row);
    NodesParts(row[k].kids);
    TopsAreHeads(row);
  }

  method MoveEnd(e: Segments, n: Node, p: Node, a: int, ghost row: seq<Item>, ghost k: nat, ghost pre: seq<Node>, ghost post: seq<Node>, ghost live: set<Node>)
    returns (ghost mid: seq<Item>)
    requires k < |row| && row[k].node == n && Sibling(e, p, row, k, pre, post, live)
    modifies n`endAt
    ensures Replaced(e, p, row, k, mid, pre, post, live) && mid == [row[k].(endAt := a)] && AllNodes(mid) == Nodes(row[k])
  {
    hide Apart, AllNodes, Tops, Below, Heads, HoldAll, List, Unnamed, Live;
    SiblingFacts(e, p, row, k, pre, post, live);
    ghost var i := row[k].(endAt := a);
    OneReplaced(row, k, i);
    OneReplaced(row, k, row[k]);
    assert allocated(AllNodes(row)) && allocated(AllNodes(i.kids));
    n.endAt := a;
    HoldAllSingle(i);
    mid := [i];
  }

  method MoveStart(e: Segments, n: Node, p: Node, b: int, ghost row: seq<Item>, ghost k: nat, ghost pre: seq<Node>, ghost post: seq<Node>, ghost live: set<Node>)
    returns (ghost mid: seq<Item>)
    requires k < |row| && row[k].node == n && Sibling(e, p, row, k, pre, post, live)
    modifies n`startAt, n`isStart
    ensures Replaced(e, p, row, k, mid, pre, post, live) && mid == [row[k].(startAt := b, isStart := false)] && AllNodes(mid) == Nodes(row[k])
  {
    hide Apart, AllNodes, Tops, Below, Heads, HoldAll, List, Unnamed, Live;
    SiblingFacts(e, p, row, k, pre, post, live);
    ghost var i := row[k].(startAt := b, isStart := false);
    OneReplaced(row, k, i);
    OneReplaced(row, k, row[k]);
    assert allocated(AllNodes(row)) && allocated(AllNodes(i.kids));
    n.startAt := b;
    n.isStart := false;
    HoldAllSingle(i);
    mid := [i];
  }

  // ----- the split (`segment_erase_middle_`) -----

  lemma HeadStart(kids: seq<Item>, i: nat)
    requires HoldAll(kids) && i < |kids|
    ensures Heads(kids)[i] == kids[i].node && kids[i].node.startAt == kids[i].startAt
  {
    hide Heads;
    KidBelow(kids, i);
    assert Holds(kids[i]);
  }

  lemma Halves(cs: seq<Segment>, lo: int, hi: int, p: Option<Context>, a: int, b: int, i: nat)
    requires ValidForest(cs, lo, hi, p) && i < |cs|
    ensures cs[i].startAt < a <==> i < LeftCount(cs, a)
  {
    ForestBounds(cs, lo, hi, p);
  }

  lemma ForestStarts(i: Item, kids: seq<Item>, m: nat, a: int)
    requires HoldAll(kids) && Valid(Tree(i)) && kids == i.kids && m == LeftCount(Trees(kids), a)
    ensures m <= |kids| && |Heads(kids)| == |kids| && forall j :: 0 <= j < |kids| ==> (Heads(kids)[j].startAt < a <==> j < m)
  {
    hide Heads, Valid, LeftCount, HoldAll;
    forall j: nat | j < |kids| ensures Heads(kids)[j].startAt < a <==> j < m {
      HeadStart(kids, j);
      KidsForest(i);
      Halves(Trees(kids), i.startAt, i.endAt, i.context, a, a, j);
      assert Trees(kids)[j] == Tree(kids[j]);
    }
  }

  lemma KidsForest(i: Item)
    requires Valid(Tree(i))
    ensures ValidForest(Trees(i.kids), i.startAt, i.endAt, i.context) && (i.kids != [] ==> i.context.Some?)
  {
  }

  /** A new segment with the same context after the `k`-th sibling. */
  method Beside(e: Segments, n: Node, p: Node, b: int, ghost row: seq<Item>, ghost k: nat, ghost pre: seq<Node>, ghost post: seq<Node>, ghost live: set<Node>)
    returns (other: Node)
    requires k < |row| && row[k].node == n && Sibling(e, p, row, k, pre, post, live)
    requires row[k].startAt < b < row[k].endAt && (row[k].kids != [] ==> row[k].context.Some?)
    modifies e`invalid, p`children, p`lastChild, Tops(row)`prev, Tops(row)`next
    ensures fresh(other) && other.context == row[k].context && other.startAt == b && other.endAt == row[k].endAt && !other.isStart
    ensures List(p, Heads(row)[..k + 1] + [other] + Heads(row)[k + 1..]) && List(other, []) && Holds(row[k])
    ensures e.invalid == pre + (if row[k].context.None? then [n, other] else Unnamed(row[k].kids)) + post
  {
    hide Apart, AllNodes, Tops, Below, Heads, HoldAll, List, Linked, Unnamed, Live, Holds;
    SiblingFacts(e, p, row, k, pre, post, live);
    OneReplaced(row, k, row[k]);
    assert allocated(AllNodes(row)) && allocated(AllNodes(row[k].kids)) && allocated(Among(Heads(row)));
    other := new Node(p, n.context, b, n.endAt, false);
    if other.context.None? {
      assert Unnamed([]) == [] by { NothingUnnamed(); }
      assert pre + [n] + post == (pre + [n]) + post;
      e.AddInvalid(other, pre + [n], post);
      assert pre + [n] + [other] + post == pre + [n, other] + post;
    }
    NextOf(p, row, k);
    Link(p, other, n, n.next, Heads(row), k + 1);
    NoKids(other);
  }

  lemma NothingUnnamed()
    ensures Unnamed([]) == []
  {
  }

  lemma NoKids(n: Node)
    requires n.children == null && n.lastChild == null
    ensures List(n, [])
  {
  }

  lemma NextOf(p: Node, row: seq<Item>, k: nat)
    requires k < |row| && List(p, Heads(row))
    ensures Heads(row)[k] == row[k].node && row[k].node.next == After(Heads(row), k) && |Heads(row)| == |row|
  {
    hide Heads;
    assert Heads(row)[k] == row[k].node;
  }

  /** The two parts hold the children on their sides. */
  lemma PartsHold(i: Item, l: Item, r: Item, m: nat)
    requires m <= |i.kids| && l.kids == i.kids[..m] && r.kids == i.kids[m..]
    requires HoldAll(i.kids) && List(l.node, Heads(i.kids)[..m]) && List(r.node, Heads(i.kids)[m..])
    requires var n := l.node; n.context == l.context && n.startAt == l.startAt && n.endAt == l.endAt && n.isStart == l.isStart
    requires var n := r.node; n.context == r.context && n.startAt == r.startAt && n.endAt == r.endAt && n.isStart == r.isStart
    ensures Holds(l) && Holds(r)
  {
    hide HoldAll, Heads, List;
    assert i.kids == l.kids + r.kids;
    HoldAllAppend(l.kids, r.kids);
    HeadsParts(i.kids, m);
  }

  /** Their nodes and invalid segments. */
  lemma PartsApart(i: Item, l: Item, r: Item, m: nat)
    requires m <= |i.kids| && l.kids == i.kids[..m] && r.kids == i.kids[m..] && l.context == r.context == i.context
    requires l.node == i.node && l.node !in AllNodes(i.kids) && r.node !in Nodes(i) && Apart(i.kids)
    ensures Apart([l, r]) && AllNodes([l, r]) == Nodes(i) + {r.node}
    ensures (i.kids != [] ==> i.context.Some?) ==> Unnamed([l, r]) == if i.context.None? then [l.node, r.node] else Unnamed(i.kids)
  {
    hide AllNodes, Apart, Unnamed;
    assert i.kids == l.kids + r.kids;
    AllNodesAppend(l.kids, r.kids);
    ApartAppend(l.kids, r.kids);
    UnnamedAppend(l.kids, r.kids);
    assert [l, r] == [l] + [r];
    AllNodesAppend([l], [r]);
    ApartAppend([l], [r]);
    UnnamedAppend([l], [r]);
    AllNodesSingle(l);
    AllNodesSingle(r);
    ApartSingle(l);
    ApartSingle(r);
    UnnamedSingle(l);
    UnnamedSingle(r);
    if i.kids == [] { NothingUnnamed(); }
  }

  lemma SplitReplaced(e: Segments, p: Node, row: seq<Item>, k: nat, l: Item, r: Item, pre: seq<Node>, post: seq<Node>, live: set<Node>)
    requires k < |row| && l.node == row[k].node && Heads(row[..k] + [l, r] + row[k + 1..]) == Heads(row)[..k + 1] + [r.node] + Heads(row)[k + 1..]
    requires List(p, Heads(row[..k] + [l, r] + row[k + 1..])) && Holds(l) && Holds(r)
    requires Apart([l, r]) && live !! AllNodes([l, r]) && e.invalid == pre + Unnamed([l, r]) + post
    requires Live(e.hint, live + AllNodes([l, r])) && Live(e.hint2, live + AllNodes([l, r]))
    ensures Replaced(e, p, row, k, [l, r], pre, post, live)
  {
    hide Heads, List, Holds, Apart, AllNodes, Unnamed;
  }

  lemma HeadsSplit(row: seq<Item>, k: nat, l: Item, r: Item)
    requires k < |row| && l.node == row[k].node
    ensures Heads(row[..k] + [l, r] + row[k + 1..]) == Heads(row)[..k + 1] + [r.node] + Heads(row)[k + 1..]
  {
    hide Heads;
    HeadsAppend(row[..k] + [l, r], row[k + 1..]);
    HeadsAppend(row[..k], [l, r]);
    HeadsParts(row, k);
    HeadsParts(row, k + 1);
    TwoHeads(l, r);
    assert Heads(row)[k] == l.node;
    InsertAfter(Heads(row), k, r.node);
  }

  lemma TwoHeads(l: Item, r: Item)
    ensures Heads([l, r]) == [l.node, r.node]
  {
  }

  lemma HoldsKids(i: Item)
    requires Holds(i)
    ensures var n := i.node; n.context == i.context && n.startAt == i.startAt && n.endAt == i.endAt && n.isStart == i.isStart
    ensures HoldAll(i.kids) && List(i.node, Heads(i.kids)) && AllNodes(i.kids) == Tops(i.kids) + Below(i.kids) && Tops(i.kids) == Among(Heads(i.kids))
  {
    NodesParts(i.kids);
    TopsAreHeads(i.kids);
  }

  /** The children go to the part they lie in. */
  method Divide(n: Node, other: Node, a: int, ghost i: Item, ghost l: Item, ghost r: Item, ghost m: nat)
    requires m <= |i.kids| && l.kids == i.kids[..m] && r.kids == i.kids[m..] && l.node == n && r.node == other && other !in AllNodes(i.kids) && n !in AllNodes(i.kids)
    requires HoldAll(i.kids) && List(n, Heads(i.kids)) && List(other, []) && n != other && Tops(i.kids) !! Below(i.kids)
    requires n.context == l.context && n.startAt == l.startAt && n.endAt == l.endAt && n.isStart == l.isStart
    requires other.context == r.context && other.startAt == r.startAt && other.endAt == r.endAt && other.isStart == r.isStart
    requires |Heads(i.kids)| == |i.kids| && forall j :: 0 <= j < |i.kids| ==> (Heads(i.kids)[j].startAt < a <==> j < m)
    modifies n`children, n`lastChild, other`children, other`lastChild,
             Tops(i.kids)`parent, Tops(i.kids)`prev, Tops(i.kids)`next
    ensures Holds(l) && Holds(r)
  {
    hide Apart, AllNodes, Tops, Below, Heads, HoldAll, List, Holds;
    NodesParts(i.kids);
    TopsAreHeads(i.kids);
    assert allocated(AllNodes(i.kids));
    Distribute(n, other, a, Heads(i.kids), m);
    PartsHold(i, l, r, m);
  }

  lemma AmongSplit(row: seq<Item>, k: nat, other: Node)
    requires k < |row|
    ensures Among(Heads(row)[..k + 1] + [other] + Heads(row)[k + 1..]) == Tops(row) + {other}
  {
    hide Heads, Among, Tops;
    TopsAreHeads(row);
    var hs := Heads(row);
    assert hs == hs[..k + 1] + hs[k + 1..];
    AmongAppend(hs[..k + 1], hs[k + 1..]);
    AmongAppend(hs[..k + 1] + [other], hs[k + 1..]);
    AmongAppend(hs[..k + 1], [other]);
    assert Among([other]) == {other} by { AmongOne(other); }
  }

  lemma AmongAppend(a: seq<Node>, b: seq<Node>)
    ensures Among(a + b) == Among(a) + Among(b)
  {
  }

  lemma AmongOne(n: Node)
    ensures Among([n]) == {n}
  {
  }

  /** `segment_erase_middle_` */
  method Split(e: Segments, n: Node, p: Node, a: int, b: int, ghost row: seq<Item>, ghost k: nat, ghost pre: seq<Node>, ghost post: seq<Node>, ghost live: set<Node>)
    returns (ghost mid: seq<Item>)
    requires k < |row| && row[k].node == n && Sibling(e, p, row, k, pre, post, live)
    requires row[k].startAt < a < b < row[k].endAt
    modifies e`invalid, p`children, p`lastChild, Tops(row)`prev, Tops(row)`next, n`endAt, n`children, n`lastChild,
             Tops(row[k].kids)`parent, Tops(row[k].kids)`prev, Tops(row[k].kids)`next
    ensures Replaced(e, p, row, k, mid, pre, post, live) && Trees(mid) == EraseMiddle(Tree(row[k]), Trees(row[k].kids), a, b)
    ensures forall x :: x in AllNodes(mid) ==> x in Nodes(row[k]) || fresh(x)
  {
    hide Apart, AllNodes, Tops, Below, Heads, HoldAll, List, Linked, Unnamed, Holds, Among, LeftCount, Around, EraseMiddle;
    ghost var i, m := row[k], LeftCount(Trees(row[k].kids), a);
    SiblingFacts(e, p, row, k, pre, post, live);
    KidsForest(i);
    assert allocated(AllNodes(row)) && allocated(AllNodes(i.kids)) && allocated(live);
    var other := Beside(e, n, p, b, row, k, pre, post, live);
    ghost var l, r := i.(endAt := a, kids := i.kids[..m]), Item(other, i.context, b, i.endAt, false, i.kids[m..]);
    HoldsKids(i);
    ForestStarts(i, i.kids, m, a);
    ApartTops(i.kids);
    AmongSplit(row, k, other);
    assert allocated(Tops(row) + {other});
    n.endAt := a;
    Divide(n, other, a, i, l, r, m);
    PartsApart(i, l, r, m);
    HeadsSplit(row, k, l, r);
    mid := [l, r];
    SplitReplaced(e, p, row, k, l, r, pre, post, live);
    SplitTree(i, l, r, m, a, b);
  }

  lemma SplitTree(i: Item, l: Item, r: Item, m: nat, a: int, b: int)
    requires m == LeftCount(Trees(i.kids), a) && l == i.(endAt := a, kids := i.kids[..m])
    requires r.context == i.context && r.startAt == b && r.endAt == i.endAt && !r.isStart && r.kids == i.kids[m..]
    ensures Trees([l, r]) == EraseMiddle(Tree(i), Trees(i.kids), a, b)
  {
    hide LeftCount;
    assert Trees(l.kids) == Trees(i.kids)[..m];
    assert Trees(r.kids) == Trees(i.kids)[m..];
    assert Trees([l, r]) == [Tree(l), Tree(r)];
  }

  // ----- the children of a segment -----

  /** The children of `n` while some of them are erased: they lie between `lo` and `hi`,
      `pre` and `post` are the invalid segments before and after them. */
  ghost predicate InRow(e: Segments, n: Node, row: seq<Item>, pre: seq<Node>, post: seq<Node>, live: set<Node>, lo: int, hi: int, ctx: Option<Context>)
    reads e, n, AllNodes(row), pre, post
  {
    && Apart(row) && n !in AllNodes(row) && n in live && live !! AllNodes(row)
    && (TopsAreHeads(row); NodesParts(row); List(n, Heads(row)) && HoldAll(row))
    && ValidForest(Trees(row), lo, hi, ctx)
    && e.invalid == pre + Unnamed(row) + post && Around(pre, post, lo, hi)
    && (forall x :: x in pre ==> x in live) && (forall x :: x in post ==> x in live)
    && Live(e.hint, live + AllNodes(row)) && Live(e.hint2, live + AllNodes(row))
  }

  /** Invalid segments begin inside the range of their row. */
  lemma {:induction false} UnnamedBounds(row: seq<Item>, lo: int, hi: int, ctx: Option<Context>)
    requires HoldAll(row) && ValidForest(Trees(row), lo, hi, ctx)
    ensures forall x :: x in Unnamed(row) ==> lo <= x.startAt <= x.endAt <= hi
    decreases row
  {
    hide HoldAll, Holds, List, AllNodes, Below, Tops;
    if row != [] {
      HoldAllAt(row, 0);
      HoldsKids(row[0]);
      ForestBounds(Trees(row), lo, hi, ctx);
      UnnamedBounds(row[0].kids, row[0].startAt, row[0].endAt, row[0].context);
      UnnamedBounds(row[1..], row[0].endAt, hi, ctx);
    }
  }

  /** The parts of a row around one of its items. */
  lemma RowAt(row: seq<Item>, k: nat)
    requires k < |row|
    ensures AllNodes(row) == AllNodes(row[..k]) + Nodes(row[k]) + AllNodes(row[k + 1..])
    ensures Tops(row) == Tops(row[..k]) + {row[k].node} + Tops(row[k + 1..])
    ensures Below(row) == Below(row[..k]) + AllNodes(row[k].kids) + Below(row[k + 1..])
    ensures Unnamed(row) == Unnamed(row[..k]) + Unnamed([row[k]]) + Unnamed(row[k + 1..])
  {
    hide AllNodes, Tops, Below, Unnamed;
    ApartAt(row, k);
    SplitAt(row, k);
    TopsAppend(row[..k], [row[k]] + row[k + 1..]);
    TopsAppend([row[k]], row[k + 1..]);
    UnnamedAppend(row[..k], [row[k]] + row[k + 1..]);
    UnnamedAppend([row[k]], row[k + 1..]);
    OneReplaced(row, k, row[k]);
    Regroup(Unnamed(row[..k]), Unnamed([row[k]]), Unnamed(row[k + 1..]));
  }

  lemma RowWith(row: seq<Item>, k: nat, mid: seq<Item>)
    requires k < |row|
    ensures var r := row[..k] + mid + row[k + 1..];
      && AllNodes(r) == AllNodes(row[..k]) + AllNodes(mid) + AllNodes(row[k + 1..])
      && Unnamed(r) == Unnamed(row[..k]) + Unnamed(mid) + Unnamed(row[k + 1..])
      && (Apart(r) <==> (Apart(row[..k]) && Apart(mid) && Apart(row[k + 1..]) &&
            AllNodes(row[..k]) !! AllNodes(mid) && AllNodes(row[..k]) !! AllNodes(row[k + 1..]) && AllNodes(mid) !! AllNodes(row[k + 1..])))
      && (HoldAll(r) <==> HoldAll(row[..k]) && HoldAll(mid) && HoldAll(row[k + 1..]))
      && Trees(r) == Trees(row)[..k] + Trees(mid) + Trees(row)[k + 1..]
  {
    hide AllNodes, Unnamed, Apart, HoldAll, Trees;
    AllNodesAppend(row[..k] + mid, row[k + 1..]);
    AllNodesAppend(row[..k], mid);
    UnnamedAppend(row[..k] + mid, row[k + 1..]);
    UnnamedAppend(row[..k], mid);
    ApartAppend(row[..k] + mid, row[k + 1..]);
    ApartAppend(row[..k], mid);
    HoldAllAppend(row[..k] + mid, row[k + 1..]);
    HoldAllAppend(row[..k], mid);
    TreesAppend(row[..k] + mid, row[k + 1..]);
    TreesAppend(row[..k], mid);
    TreesParts(row, k);
    TreesParts(row, k + 1);
  }

  /** One child of the row. */
  lemma KidIsSibling(e: Segments, n: Node, row: seq<Item>, k: nat, pre: seq<Node>, post: seq<Node>, live: set<Node>, lo: int, hi: int, ctx: Option<Context>)
    requires k < |row| && InRow(e, n, row, pre, post, live, lo, hi, ctx)
    ensures Sibling(e, n, row, k, pre + Unnamed(row[..k]), Unnamed(row[k + 1..]) + post, live + AllNodes(row[..k]) + AllNodes(row[k + 1..]))
    ensures HoldAll(row[..k]) && HoldAll(row[k + 1..])
  {
    hide Apart, AllNodes, Tops, Below, Heads, HoldAll, Unnamed, Holds, List, Live, Around, Valid, Trees;
    HoldAllAt(row, k);
    ApartAt(row, k);
    RowAt(row, k);
    UnnamedNodes(row[..k]);
    UnnamedNodes(row[k + 1..]);
    RowBounds(row, k, pre, post, lo, hi, ctx);
    LiveSame(e.hint, live, row, k);
    LiveSame(e.hint2, live, row, k);
    FiveParts(pre, Unnamed(row[..k]), Unnamed([row[k]]), Unnamed(row[k + 1..]), post);
  }

  lemma FiveParts(a: seq<Node>, b: seq<Node>, c: seq<Node>, d: seq<Node>, e: seq<Node>)
    ensures a + (b + c + d) + e == (a + b) + c + (d + e)
  {
    Regroup(a + b, c, d);
    Regroup(a, b, c + d);
    Regroup(b, c, d);
    Regroup(a + b + c, d, e);
  }

  lemma LiveSame(h: Node?, live: set<Node>, row: seq<Item>, k: nat)
    requires k < |row| && Live(h, live + AllNodes(row))
    ensures Live(h, live + AllNodes(row[..k]) + AllNodes(row[k + 1..]) + Nodes(row[k]))
  {
    hide AllNodes, Apart;
    ApartAt(row, k);
  }

  /** The siblings on the two sides of one. */
  lemma Sides(cs: seq<Segment>, lo: int, hi: int, p: Option<Context>, k: nat)
    requires ValidForest(cs, lo, hi, p) && k < |cs|
    ensures ValidForest(cs[..k], lo, cs[k].startAt, p) && ValidForest(cs[k + 1..], cs[k].endAt, hi, p)
    ensures Valid(cs[k]) && lo <= cs[k].startAt <= cs[k].endAt <= hi && Fits(cs[k].context, p)
  {
    hide Valid;
    ForestBounds(cs, lo, hi, p);
    SliceShape(cs, lo, hi, p, k, k);
    ForestRebound(cs[..k], lo, hi, lo, cs[k].startAt, p);
    SliceShape(cs, lo, hi, p, k + 1, k + 1);
    ForestRebound(cs[k + 1..], EndOf(cs[..k + 1], lo), hi, cs[k].endAt, hi, p);
  }

  lemma RowBounds(row: seq<Item>, k: nat, pre: seq<Node>, post: seq<Node>, lo: int, hi: int, ctx: Option<Context>)
    requires k < |row| && HoldAll(row[..k]) && HoldAll(row[k + 1..]) && ValidForest(Trees(row), lo, hi, ctx) && Around(pre, post, lo, hi)
    ensures Around(pre + Unnamed(row[..k]), Unnamed(row[k + 1..]) + post, row[k].startAt, row[k].endAt) && Valid(Tree(row[k]))
  {
    hide HoldAll, Trees, Unnamed, Valid, ValidForest;
    assert Trees(row)[k] == Tree(row[k]);
    TreesParts(row, k);
    TreesParts(row, k + 1);
    Sides(Trees(row), lo, hi, ctx, k);
    UnnamedBounds(row[..k], lo, row[k].startAt, ctx);
    UnnamedBounds(row[k + 1..], row[k].endAt, hi, ctx);
    AroundMore(pre, post, lo, hi, Unnamed(row[..k]), Unnamed(row[k + 1..]), row[k].startAt, row[k].endAt);
  }

  lemma AroundMore(pre: seq<Node>, post: seq<Node>, lo: int, hi: int, x: seq<Node>, y: seq<Node>, a: int, b: int)
    requires Around(pre, post, lo, hi) && lo <= a && b <= hi
    requires (forall n :: n in x ==> n.startAt <= a) && (forall n :: n in y ==> b <= n.startAt)
    ensures Around(pre + x, y + post, a, b)
  {
    forall j | 0 <= j < |pre + x| ensures (pre + x)[j].startAt <= a {
      if j >= |pre| { assert (pre + x)[j] in x; }
    }
    forall j | 0 <= j < |y + post| ensures b <= (y + post)[j].startAt {
      if j < |y| { assert (y + post)[j] in y; }
    }
  }

  /** After the child was replaced. */
  lemma KidIsReplaced(e: Segments, n: Node, row: seq<Item>, k: nat, mid: seq<Item>, pre: seq<Node>, post: seq<Node>, live: set<Node>, lo: int, hi: int, ctx: Option<Context>, a: int, b: int)
    requires k < |row| && ValidForest(Trees(row), lo, hi, ctx) && Around(pre, post, lo, hi) && a < b
    requires Apart(row[..k]) && Apart(row[k + 1..]) && AllNodes(row[..k]) !! AllNodes(row[k + 1..]) && n !in AllNodes(row[..k]) && n !in AllNodes(row[k + 1..])
    requires n in live && live !! AllNodes(row[..k]) && live !! AllNodes(row[k + 1..]) && HoldAll(row[..k]) && HoldAll(row[k + 1..])
    requires (forall x :: x in pre ==> x in live) && (forall x :: x in post ==> x in live)
    requires Replaced(e, n, row, k, mid, pre + Unnamed(row[..k]), Unnamed(row[k + 1..]) + post, live + AllNodes(row[..k]) + AllNodes(row[k + 1..]))
    requires Trees(mid) == EraseRange(Tree(row[k]), a, b)
    ensures InRow(e, n, row[..k] + mid + row[k + 1..], pre, post, live, lo, hi, ctx)
  {
    hide Apart, AllNodes, Tops, Below, Heads, HoldAll, Unnamed, Holds, List, Around, Trees, Valid;
    RowWith(row, k, mid);
    FiveParts(pre, Unnamed(row[..k]), Unnamed(mid), Unnamed(row[k + 1..]), post);
    ForestBounds(Trees(row), lo, hi, ctx);
    assert Trees(row)[k] == Tree(row[k]);
    EraseRangeShape(Tree(row[k]), a, b, ctx);
    ForestReplaced(Trees(row), lo, hi, ctx, k, Trees(mid));
  }

  lemma ForestReplaced(cs: seq<Segment>, lo: int, hi: int, p: Option<Context>, k: nat, r: seq<Segment>)
    requires ValidForest(cs, lo, hi, p) && k < |cs| && ValidForest(r, cs[k].startAt, cs[k].endAt, p)
    ensures ValidForest(cs[..k] + r + cs[k + 1..], lo, hi, p)
  {
    hide Valid;
    Sides(cs, lo, hi, p, k);
    JoinShape(cs[..k], lo, cs[k].startAt, r, cs[k].endAt, lo, p);
    JoinShape(cs[..k] + r, lo, cs[k].endAt, cs[k + 1..], hi, lo, p);
  }

  // ----- the recursion -----

  /** The nodes of `after` are nodes of `before`, or new. */
  twostate predicate OldOrNew(before: set<Node>, new after: set<Node>) {
    forall x :: x in after ==> x in before || fresh(x)
  }

  method EraseKid(e: Segments, n: Node, child: Node, a: int, b: int, ghost row: seq<Item>, ghost k: nat, ghost pre: seq<Node>, ghost post: seq<Node>,
                  ghost live: set<Node>, ghost lo: int, ghost hi: int, ghost ctx: Option<Context>)
    returns (ghost mid: seq<Item>)
    requires a < b && k < |row| && row[k].node == child && InRow(e, n, row, pre, post, live, lo, hi, ctx)
    modifies e`invalid, e`hint, e`hint2, n`children, n`lastChild, Tops(row)`prev, Tops(row)`next, Nodes(row[k])
    ensures InRow(e, n, row[..k] + mid + row[k + 1..], pre, post, live, lo, hi, ctx)
    ensures Trees(mid) == EraseRange(Tree(row[k]), a, b) && OldOrNew(Nodes(row[k]), AllNodes(mid))
    decreases row[k], 4
  {
    hide Apart, AllNodes, Tops, Below, Heads, HoldAll, Unnamed, Holds, List, Around, Trees, Valid, Sibling, Replaced, ValidForest;
    KidIsSibling(e, n, row, k, pre, post, live, lo, hi, ctx);
    ApartAt(row, k);
    ApartTops(row);
    RowAt(row, k);
    NodesParts(row[..k]);
    NodesParts(row[k + 1..]);
    NodesParts(row);
    assert allocated(AllNodes(row)) && allocated(Among(pre)) && allocated(Among(post));
    assert Among(pre) <= live && Among(post) <= live;
    mid := EraseNode(e, child, n, a, b, row, k, pre + Unnamed(row[..k]), Unnamed(row[k + 1..]) + post, live + AllNodes(row[..k]) + AllNodes(row[k + 1..]));
    KidIsReplaced(e, n, row, k, mid, pre, post, live, lo, hi, ctx, a, b);
  }

  /** The loop over the children, or over the leading ones that begin at `b`. */
  method EraseForward(e: Segments, n: Node, a: int, b: int, all: bool, ghost i: Item, ghost pre: seq<Node>, ghost post: seq<Node>,
                      ghost live: set<Node>, ghost lo: int, ghost hi: int, ghost ctx: Option<Context>)
    returns (ghost r: seq<Item>)
    requires a < b && i.node == n && InRow(e, n, i.kids, pre, post, live, lo, hi, ctx)
    modifies e`invalid, e`hint, e`hint2, n`children, n`lastChild, AllNodes(i.kids)
    ensures InRow(e, n, r, pre, post, live, lo, hi, ctx) && OldOrNew(AllNodes(i.kids), AllNodes(r))
    ensures Trees(r) == if all then EraseForest(Trees(i.kids), a, b) else EraseFront(Trees(i.kids), a, b)
    decreases i, 0
  {
    hide Apart, AllNodes, Tops, Below, Heads, HoldAll, Unnamed, Holds, List, Around, Trees, Valid, ValidForest, InRow, EraseRange, EraseForest, EraseFront;
    ghost var row, k: nat, j: nat := i.kids, 0, 0;
    r := row;
    ForwardStart(e, n, row, pre, post, live, lo, hi, ctx);
    var child := n.children;
    while child != null && (all || child.startAt == b)
      invariant j <= |row| && k <= |r| && r[k..] == row[j..] && child == After(Heads(r), k - 1)
      invariant InRow(e, n, r, pre, post, live, lo, hi, ctx) && OldOrNew(AllNodes(row), AllNodes(r))
      invariant Trees(r[..k]) + Erasing(row[j..], a, b, all) == Erasing(row, a, b, all)
      decreases |row| - j
    {
      ChildIs(e, n, r, k, pre, post, live, lo, hi, ctx);
      assert r[k] == row[j] by { assert r[k..][0] == row[j..][0]; }
      var next := child.next;
      ghost var mid := EraseKid(e, n, child, a, b, r, k, pre, post, live, lo, hi, ctx);
      ForwardNext(row, r, k, j, mid, a, b, all);
      RowWith(r, k, mid);
      RowAt(r, k);
      r, k, j := r[..k] + mid + r[k + 1..], k + |mid|, j + 1;
      child := next;
    }
    ForwardDone(e, n, row, r, k, j, child, a, b, all, pre, post, live, lo, hi, ctx);
  }

  /** What is left to do of a row. */
  function Erasing(row: seq<Item>, a: int, b: int, all: bool): seq<Segment> {
    if all then EraseForest(Trees(row), a, b) else EraseFront(Trees(row), a, b)
  }

  lemma ForwardStart(e: Segments, n: Node, row: seq<Item>, pre: seq<Node>, post: seq<Node>, live: set<Node>, lo: int, hi: int, ctx: Option<Context>)
    requires InRow(e, n, row, pre, post, live, lo, hi, ctx)
    ensures n.children == After(Heads(row), -1) && row[0..] == row && Trees(row[..0]) == []
  {
  }

  /** The child at a place in the list. */
  lemma ChildIs(e: Segments, n: Node, row: seq<Item>, k: nat, pre: seq<Node>, post: seq<Node>, live: set<Node>, lo: int, hi: int, ctx: Option<Context>)
    requires InRow(e, n, row, pre, post, live, lo, hi, ctx) && k < |row|
    ensures |Heads(row)| == |row| && Heads(row)[k] == row[k].node && row[k].node.next == After(Heads(row), k) && row[k].node.prev == Before(Heads(row), k)
    ensures row[k].node.startAt == row[k].startAt && row[k].node.endAt == row[k].endAt
    ensures row[k].node in AllNodes(row) && Tops(row) <= AllNodes(row) && Nodes(row[k]) <= AllNodes(row)
  {
    hide Apart, AllNodes, Tops, Below, Heads, Unnamed, Holds, Around, Trees, ValidForest;
    HoldAllAt(row, k);
    HoldsKids(row[k]);
    NextOf(n, row, k);
    KidBelow(row, k);
    NodesParts(row);
    assert Heads(row)[k] == row[k].node;
  }

  lemma ForwardNext(row: seq<Item>, r: seq<Item>, k: nat, j: nat, mid: seq<Item>, a: int, b: int, all: bool)
    requires k < |r| && j < |row| && r[k..] == row[j..] && Trees(mid) == EraseRange(Tree(r[k]), a, b) && (all || r[k].startAt == b)
    requires Trees(r[..k]) + Erasing(row[j..], a, b, all) == Erasing(row, a, b, all)
    ensures var r', k' := r[..k] + mid + r[k + 1..], k + |mid|;
      && k' <= |r'| && r'[k'..] == row[j + 1..] && After(Heads(r), k) == After(Heads(r'), k' - 1)
      && Trees(r'[..k']) + Erasing(row[j + 1..], a, b, all) == Erasing(row, a, b, all)
  {
    hide Heads, Trees, EraseRange, EraseForest, EraseFront;
    var r', k' := r[..k] + mid + r[k + 1..], k + |mid|;
    assert r'[..k'] == r[..k] + mid;
    assert r'[k'..] == r[k + 1..] == r[k..][1..] == row[j..][1..] == row[j + 1..];
    TreesAppend(r[..k], mid);
    if k + 1 < |r| { assert r'[k'] == r[k + 1]; }
    assert r[k] == r[k..][0] == row[j..][0];
    ErasingNext(row[j..], a, b, all);
    assert row[j..][1..] == row[j + 1..];
    Regroup(Trees(r[..k]), Trees(mid), Erasing(row[j + 1..], a, b, all));
  }

  lemma ErasingNext(row: seq<Item>, a: int, b: int, all: bool)
    requires row != [] && (all || row[0].startAt == b)
    ensures Erasing(row, a, b, all) == EraseRange(Tree(row[0]), a, b) + Erasing(row[1..], a, b, all)
  {
    TreesParts(row, 1);
  }

  lemma ForwardDone(e: Segments, n: Node, row: seq<Item>, r: seq<Item>, k: nat, j: nat, child: Node?, a: int, b: int, all: bool,
                    pre: seq<Node>, post: seq<Node>, live: set<Node>, lo: int, hi: int, ctx: Option<Context>)
    requires InRow(e, n, r, pre, post, live, lo, hi, ctx) && j <= |row| && k <= |r| && r[k..] == row[j..] && child == After(Heads(r), k - 1)
    requires child == null || (!all && child.startAt != b)
    requires Trees(r[..k]) + Erasing(row[j..], a, b, all) == Erasing(row, a, b, all)
    ensures Trees(r) == Erasing(row, a, b, all)
  {
    hide Heads, InRow, EraseRange;
    TreesParts(r, k);
    if k < |r| {
      ChildIs(e, n, r, k, pre, post, live, lo, hi, ctx);
      assert r[k] == r[k..][0] == row[j..][0];
      assert Erasing(row[j..], a, b, all) == Trees(row[j..]);
    } else {
      assert r[k..] == [] && Erasing(row[j..], a, b, all) == [];
    }
  }

  /** The loop over the trailing children that end at `a`. */
  method EraseBackward(e: Segments, n: Node, a: int, b: int, ghost i: Item, ghost pre: seq<Node>, ghost post: seq<Node>,
                       ghost live: set<Node>, ghost lo: int, ghost hi: int, ghost ctx: Option<Context>)
    returns (ghost r: seq<Item>)
    requires a < b && i.node == n && InRow(e, n, i.kids, pre, post, live, lo, hi, ctx)
    modifies e`invalid, e`hint, e`hint2, n`children, n`lastChild, AllNodes(i.kids)
    ensures InRow(e, n, r, pre, post, live, lo, hi, ctx) && OldOrNew(AllNodes(i.kids), AllNodes(r))
    ensures Trees(r) == EraseBack(Trees(i.kids), a, b)
    decreases i, 0
  {
    hide Apart, AllNodes, Tops, Below, Heads, HoldAll, Unnamed, Holds, List, Around, Trees, Valid, ValidForest, InRow, EraseRange, EraseBack;
    ghost var row, k: nat := i.kids, |i.kids|;
    r := row;
    BackwardStart(e, n, row, pre, post, live, lo, hi, ctx);
    var child := n.lastChild;
    while child != null && child.endAt == a
      invariant k <= |row| && k <= |r| && r[..k] == row[..k] && child == Before(Heads(r), k)
      invariant InRow(e, n, r, pre, post, live, lo, hi, ctx) && OldOrNew(AllNodes(row), AllNodes(r))
      invariant EraseBack(Trees(row[..k]), a, b) + Trees(r[k..]) == EraseBack(Trees(row), a, b)
      decreases k
    {
      ChildIs(e, n, r, k - 1, pre, post, live, lo, hi, ctx);
      assert r[k - 1] == row[k - 1] by { assert r[..k][k - 1] == row[..k][k - 1]; }
      var prev := child.prev;
      ghost var mid := EraseKid(e, n, child, a, b, r, k - 1, pre, post, live, lo, hi, ctx);
      BackwardNext(row, r, k, mid, a, b);
      RowWith(r, k - 1, mid);
      RowAt(r, k - 1);
      r, k := r[..k - 1] + mid + r[k..], k - 1;
      child := prev;
    }
    BackwardDone(e, n, row, r, k, child, a, b, pre, post, live, lo, hi, ctx);
  }

  lemma BackwardStart(e: Segments, n: Node, row: seq<Item>, pre: seq<Node>, post: seq<Node>, live: set<Node>, lo: int, hi: int, ctx: Option<Context>)
    requires InRow(e, n, row, pre, post, live, lo, hi, ctx)
    ensures n.lastChild == Before(Heads(row), |row|) && row[..|row|] == row && Trees(row[|row|..]) == []
  {
    hide Apart, AllNodes, Tops, Below, Heads, HoldAll, Unnamed, Around, ValidForest, Live;
    assert row[|row|..] == [];
  }

  lemma BackwardNext(row: seq<Item>, r: seq<Item>, k: nat, mid: seq<Item>, a: int, b: int)
    requires 0 < k <= |r| && k <= |row| && r[..k] == row[..k] && Trees(mid) == EraseRange(Tree(r[k - 1]), a, b) && r[k - 1].endAt == a
    requires EraseBack(Trees(row[..k]), a, b) + Trees(r[k..]) == EraseBack(Trees(row), a, b)
    ensures var r' := r[..k - 1] + mid + r[k..];
      && r'[..k - 1] == row[..k - 1] && Before(Heads(r), k - 1) == Before(Heads(r'), k - 1)
      && EraseBack(Trees(row[..k - 1]), a, b) + Trees(r'[k - 1..]) == EraseBack(Trees(row), a, b)
  {
    hide Heads, Trees, EraseRange, EraseBack;
    ReplaceOne(r, k - 1, mid);
    CommonPrefix(r, row, k);
    TreesAppend(mid, r[k..]);
    SameBefore(r, r[..k - 1] + mid + r[k..], k - 1);
    BackNext(row[..k], a, b);
    Regroup(EraseBack(Trees(row[..k - 1]), a, b), Trees(mid), Trees(r[k..]));
  }

  lemma SameBefore(r: seq<Item>, s: seq<Item>, k: nat)
    requires k <= |r| && k <= |s| && r[..k] == s[..k]
    ensures Before(Heads(r), k) == Before(Heads(s), k)
  {
    hide Heads;
    if k > 0 { CommonPrefix(r, s, k); }
  }

  lemma BackNext(row: seq<Item>, a: int, b: int)
    requires row != [] && row[|row| - 1].endAt == a
    ensures EraseBack(Trees(row), a, b) == EraseBack(Trees(row[..|row| - 1]), a, b) + EraseRange(Tree(row[|row| - 1]), a, b)
  {
    TreesParts(row, |row| - 1);
  }

  lemma BackwardDone(e: Segments, n: Node, row: seq<Item>, r: seq<Item>, k: nat, child: Node?, a: int, b: int,
                     pre: seq<Node>, post: seq<Node>, live: set<Node>, lo: int, hi: int, ctx: Option<Context>)
    requires InRow(e, n, r, pre, post, live, lo, hi, ctx) && k <= |row| && k <= |r| && r[..k] == row[..k] && child == Before(Heads(r), k)
    requires child == null || child.endAt != a
    requires EraseBack(Trees(row[..k]), a, b) + Trees(r[k..]) == EraseBack(Trees(row), a, b)
    ensures Trees(r) == EraseBack(Trees(row), a, b)
  {
    hide Heads, InRow, EraseRange, EraseBack, Trees;
    TreesParts(r, k);
    if k > 0 {
      ChildIs(e, n, r, k - 1, pre, post, live, lo, hi, ctx);
      CommonPrefix(r, row, k);
    }
    BackStops(row, k, a, b);
    assert Trees(r) == Trees(row[..k]) + Trees(r[k..]);
  }

  lemma BackStops(row: seq<Item>, k: nat, a: int, b: int)
    requires k <= |row| && (k > 0 ==> row[k - 1].endAt != a)
    ensures EraseBack(Trees(row[..k]), a, b) == Trees(row[..k])
  {
    hide Trees;
    if k > 0 {
      assert row[..k][k - 1] == row[k - 1];
      assert Trees(row[..k])[k - 1] == Tree(row[k - 1]);
    } else {
      assert row[..k] == [] && Trees([]) == [];
    }
  }

  // ----- one segment -----

  /** Inside a segment that reaches over an end of the range, or both. */
  predicate Partly(i: Item, a: int, b: int) {
    i.startAt != i.endAt && i.startAt <= b && a <= i.endAt && !(a <= i.startAt && i.endAt <= b)
  }

  lemma SiblingKids(e: Segments, p: Node, row: seq<Item>, k: nat, pre: seq<Node>, post: seq<Node>, live: set<Node>)
    requires k < |row| && Sibling(e, p, row, k, pre, post, live)
    ensures var i := row[k]; InRow(e, i.node, i.kids, pre + Itself(i), post, live + {i.node}, i.startAt, i.endAt, i.context)
  {
    hide Apart, AllNodes, Tops, Below, Heads, HoldAll, Unnamed, Holds, List, Trees, ValidForest, Around;
    var i := row[k];
    SiblingFacts(e, p, row, k, pre, post, live);
    HoldsKids(i);
    UnnamedSingle(i);
    Regroup(pre, Itself(i), Unnamed(i.kids));
    AroundItself(i, pre, post);
  }

  lemma AroundItself(i: Item, pre: seq<Node>, post: seq<Node>)
    requires Around(pre, post, i.startAt, i.endAt) && i.node.startAt == i.startAt
    ensures Around(pre + Itself(i), post, i.startAt, i.endAt)
  {
  }

  /** The children are cleaned up, whichever of the three loops does it. */
  method EraseKids(e: Segments, n: Node, p: Node, a: int, b: int, ghost row: seq<Item>, ghost k: nat, ghost pre: seq<Node>, ghost post: seq<Node>, ghost live: set<Node>)
    returns (ghost kids: seq<Item>)
    requires a < b && k < |row| && row[k].node == n && Sibling(e, p, row, k, pre, post, live) && Partly(row[k], a, b)
    modifies e`invalid, e`hint, e`hint2, n`children, n`lastChild, AllNodes(row[k].kids)
    ensures Sibling(e, p, row[k := row[k].(kids := kids)], k, pre, post, live)
    ensures Trees(kids) == EraseForest(Trees(row[k].kids), a, b) && OldOrNew(AllNodes(row[k].kids), AllNodes(kids))
    decreases row[k], 1
  {
    hide Apart, AllNodes, Tops, Below, Heads, HoldAll, Unnamed, Holds, List, Trees, Valid, ValidForest, InRow, EraseRange, EraseForest, EraseFront, EraseBack;
    ghost var i := row[k];
    SiblingFacts(e, p, row, k, pre, post, live);
    SiblingKids(e, p, row, k, pre, post, live);
    Shortcuts(i, a, b);
    assert allocated(AllNodes(row)) && allocated(live) && allocated(Among(pre)) && allocated(Among(post));
    assert Among(pre) <= live && Among(post) <= live;
    if n.startAt == b {
      kids := EraseForward(e, n, a, b, false, i, pre + Itself(i), post, live + {n}, i.startAt, i.endAt, i.context);
    } else if n.endAt == a {
      kids := EraseBackward(e, n, a, b, i, pre + Itself(i), post, live + {n}, i.startAt, i.endAt, i.context);
    } else {
      kids := EraseForward(e, n, a, b, true, i, pre + Itself(i), post, live + {n}, i.startAt, i.endAt, i.context);
    }
    if i.kids == [] { NothingErased(a, b); }
    KidsAreSibling(e, p, row, k, kids, pre, post, live);
  }

  lemma NothingErased(a: int, b: int)
    ensures EraseForest(Trees([]), a, b) == []
  {
  }

  lemma Shortcuts(i: Item, a: int, b: int)
    requires a < b && Valid(Tree(i))
    ensures i.startAt == b ==> EraseFront(Trees(i.kids), a, b) == EraseForest(Trees(i.kids), a, b)
    ensures i.endAt == a ==> EraseBack(Trees(i.kids), a, b) == EraseForest(Trees(i.kids), a, b)
  {
    if i.startAt == b { EraseFrontIsForest(Trees(i.kids), a, b, i.endAt, i.context); }
    if i.endAt == a { EraseBackIsForest(Trees(i.kids), a, b, i.startAt, i.context); }
  }

  lemma HoldsOf(i: Item)
    requires List(i.node, Heads(i.kids)) && HoldAll(i.kids)
    requires var n := i.node; n.context == i.context && n.startAt == i.startAt && n.endAt == i.endAt && n.isStart == i.isStart
    ensures Holds(i)
  {
  }

  lemma KidsValid(i: Item, kids: seq<Item>)
    requires Valid(Tree(i)) && ValidForest(Trees(kids), i.startAt, i.endAt, i.context) && (i.kids == [] ==> kids == [])
    ensures Valid(Tree(i.(kids := kids)))
  {
  }

  lemma KidsAreSibling(e: Segments, p: Node, row: seq<Item>, k: nat, kids: seq<Item>, pre: seq<Node>, post: seq<Node>, live: set<Node>)
    requires k < |row| && Apart(row) && p !in AllNodes(row)
    requires var i := row[k]; InRow(e, i.node, kids, pre + Itself(i), post, live + {i.node}, i.startAt, i.endAt, i.context)
    requires var i := row[k]; var n := i.node; n.context == i.context && n.startAt == i.startAt && n.endAt == i.endAt && n.isStart == i.isStart
    requires List(p, Heads(row)) && Valid(Tree(row[k])) && (row[k].kids == [] ==> kids == [])
    requires Around(pre, post, row[k].startAt, row[k].endAt)
    requires (forall x :: x in pre ==> x in live) && (forall x :: x in post ==> x in live)
    requires p in live && AllNodes(row[..k]) <= live && AllNodes(row[k + 1..]) <= live && row[k].node !in live
    ensures Sibling(e, p, row[k := row[k].(kids := kids)], k, pre, post, live)
  {
    hide AllNodes, Tops, Below, Heads, HoldAll, Unnamed, List, Around, Trees, ValidForest, Holds, Apart, Valid;
    var i := row[k].(kids := kids);
    var r := row[k := i];
    HoldsOf(i);
    KidsValid(row[k], kids);
    ApartSingle(i);
    assert live + Nodes(i) == live + {i.node} + AllNodes(kids);
    ApartAt(row, k);
    assert r[..k] == row[..k] && r[k + 1..] == row[k + 1..];
    ApartAt(r, k);
    SameHeads(row, k, i);
    NodesParts(kids);
    TopsAreHeads(kids);
    UnnamedSingle(i);
    Regroup(pre, Itself(i), Unnamed(kids));
  }

  lemma Unchanged(e: Segments, p: Node, row: seq<Item>, k: nat, pre: seq<Node>, post: seq<Node>, live: set<Node>)
    requires k < |row| && Sibling(e, p, row, k, pre, post, live)
    ensures Replaced(e, p, row, k, [row[k]], pre, post, live) && Trees([row[k]]) == [Tree(row[k])] && AllNodes([row[k]]) == Nodes(row[k])
  {
    hide Apart, AllNodes, Tops, Below, Heads, HoldAll, Unnamed, Holds, List, Around;
    SiblingFacts(e, p, row, k, pre, post, live);
    OneReplaced(row, k, row[k]);
    HoldAllSingle(row[k]);
    TreesParts([row[k]], 0);
  }

  /** A segment inside the range goes. */
  method Gone(e: Segments, n: Node, p: Node, ghost row: seq<Item>, ghost k: nat, ghost pre: seq<Node>, ghost post: seq<Node>, ghost live: set<Node>)
    requires k < |row| && row[k].node == n && Sibling(e, p, row, k, pre, post, live)
    modifies e`invalid, e`hint, e`hint2, p`children, p`lastChild, Tops(row)`prev, Tops(row)`next, Nodes(row[k])`children, Nodes(row[k])`lastChild
    ensures Replaced(e, p, row, k, [], pre, post, live)
  {
    hide AllNodes, Tops, Below, Heads, HoldAll, Holds, List, Around, Live;
    SiblingFacts(e, p, row, k, pre, post, live);
    assert row[..k] + [] + row[k + 1..] == row[..k] + row[k + 1..];
    e.Remove(n, p, row, k, pre, post, live);
    NoNodes();
    assert pre + [] + post == pre + post && live + {} == live;
  }

  lemma NoNodes()
    ensures AllNodes([]) == {} && Unnamed([]) == [] && Trees([]) == [] && Heads([]) == [] && HoldAll([]) && Apart([])
  {
  }

  /** With the cleaned up children the same siblings are around. */
  lemma ReplacedSame(e: Segments, p: Node, row: seq<Item>, k: nat, i: Item, mid: seq<Item>, pre: seq<Node>, post: seq<Node>, live: set<Node>)
    requires k < |row| && Replaced(e, p, row[k := i], k, mid, pre, post, live)
    ensures Replaced(e, p, row, k, mid, pre, post, live)
  {
    assert row[k := i][..k] == row[..k] && row[k := i][k + 1..] == row[k + 1..];
  }

  /** `segment_erase_range_` */
  method EraseNode(e: Segments, n: Node, p: Node, a: int, b: int, ghost row: seq<Item>, ghost k: nat, ghost pre: seq<Node>, ghost post: seq<Node>, ghost live: set<Node>)
    returns (ghost mid: seq<Item>)
    requires a < b && k < |row| && row[k].node == n && Sibling(e, p, row, k, pre, post, live)
    modifies e`invalid, e`hint, e`hint2, p`children, p`lastChild, Tops(row)`prev, Tops(row)`next, Nodes(row[k])
    ensures Replaced(e, p, row, k, mid, pre, post, live)
    ensures Trees(mid) == EraseRange(Tree(row[k]), a, b) && OldOrNew(Nodes(row[k]), AllNodes(mid))
    decreases row[k], 3
  {
    hide Apart, AllNodes, Tops, Below, Heads, HoldAll, Unnamed, Holds, List, Trees, Valid, Sibling, Replaced, EraseForest, EraseFront, EraseBack;
    SiblingFacts(e, p, row, k, pre, post, live);
    Unchanged(e, p, row, k, pre, post, live);
    NoNodes();
    mid := [row[k]];
    if n.startAt == n.endAt {
      if a <= n.startAt && n.startAt <= b {
        Gone(e, n, p, row, k, pre, post, live);
        mid := [];
      }
      return;
    }
    if n.startAt > b || n.endAt < a {
      return;
    }
    if n.startAt >= a && n.endAt <= b {
      Gone(e, n, p, row, k, pre, post, live);
      mid := [];
      return;
    }
    mid := ErasePartly(e, n, p, a, b, row, k, pre, post, live);
  }

  lemma SameTops(row: seq<Item>, k: nat, i: Item)
    requires k < |row| && i.node == row[k].node
    ensures Tops(row[k := i]) == Tops(row)
  {
    hide Tops, Heads;
    TopsAreHeads(row);
    TopsAreHeads(row[k := i]);
    SameHeads(row, k, i);
  }

  lemma KidsErased(i: Item, j: Item, a: int, b: int)
    requires a < b && Valid(Tree(i)) && Partly(i, a, b) && j == i.(kids := j.kids) && Trees(j.kids) == EraseForest(Trees(i.kids), a, b)
    ensures EraseRange(Tree(i), a, b) ==
      if i.startAt < a && i.endAt > b then EraseMiddle(Tree(j), Trees(j.kids), a, b)
      else if i.endAt > b then Trees([j.(startAt := b, isStart := false)])
      else Trees([j.(endAt := a)])
  {
    hide EraseRange, EraseForest, Valid;
    KidsOfErase(Tree(i), a, b);
  }

  /** The children first; then the ends are moved, or the segment is split. */
  method ErasePartly(e: Segments, n: Node, p: Node, a: int, b: int, ghost row: seq<Item>, ghost k: nat, ghost pre: seq<Node>, ghost post: seq<Node>, ghost live: set<Node>)
    returns (ghost mid: seq<Item>)
    requires a < b && k < |row| && row[k].node == n && Sibling(e, p, row, k, pre, post, live) && Partly(row[k], a, b)
    modifies e`invalid, e`hint, e`hint2, p`children, p`lastChild, Tops(row)`prev, Tops(row)`next, Nodes(row[k])
    ensures Replaced(e, p, row, k, mid, pre, post, live)
    ensures Trees(mid) == EraseRange(Tree(row[k]), a, b) && OldOrNew(Nodes(row[k]), AllNodes(mid))
    decreases row[k], 2
  {
    hide Apart, AllNodes, Tops, Below, Heads, HoldAll, Unnamed, Holds, List, Trees, Valid, Sibling, Replaced, EraseForest, EraseFront, EraseBack, EraseMiddle;
    SiblingFacts(e, p, row, k, pre, post, live);
    ghost var kids := EraseKids(e, n, p, a, b, row, k, pre, post, live);
    ghost var i := row[k].(kids := kids);
    ghost var r := row[k := i];
    SiblingFacts(e, p, r, k, pre, post, live);
    SameTops(row, k, i);
    KidsErased(row[k], i, a, b);
    if n.startAt < a && n.endAt > b {
      mid := Split(e, n, p, a, b, r, k, pre, post, live);
    } else if n.endAt > b {
      mid := MoveStart(e, n, p, b, r, k, pre, post, live);
    } else {
      mid := MoveEnd(e, n, p, a, r, k, pre, post, live);
    }
    ReplacedSame(e, p, row, k, i, mid, pre, post, live);
  }
}
