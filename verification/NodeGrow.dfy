/** Extending a segment on the heap: everything to its right moves, and its ancestors are
    extended (the last part of `insert_range`). */
module NodeGrow {
  import opened SegmentTree
  import opened SegmentInsert
  import opened SegmentLinks
  import opened SegmentItems
  import opened SegmentState
  import opened Sequences
  import opened NodeTree
  import opened NodeShift

  /** The segment at the path extended by `delta`. */
  function Grow(s: Segment, path: Path, delta: int): Segment
    requires IsPath(s, path)
    decreases path
  {
    if path == [] then s.(endAt := s.endAt + delta)
    else
      var k := path[0];
      s.(endAt := s.endAt + delta,
         children := s.children[..k] + [Grow(s.children[k], path[1..], delta)] + ShiftAll(s.children[k + 1..], delta))
  }

  function GrowItem(i: Item, path: Path, delta: int): Item
    requires IsPath(Tree(i), path)
    decreases path
  {
    var j := Inner(i, path, delta);
    j.(endAt := j.endAt + delta)
  }

  /** The same with the end of the segment itself still to be moved. */
  function Inner(i: Item, path: Path, delta: int): Item
    requires IsPath(Tree(i), path)
    decreases path, 0
  {
    if path == [] then i
    else
      var k := path[0];
      var g := Inner(i.kids[k], path[1..], delta);
      i.(kids := i.kids[..k] + [g.(endAt := g.endAt + delta)] + ShiftItems(i.kids[k + 1..], delta))
  }

  lemma {:induction false} GrownTree(i: Item, path: Path, delta: int)
    requires IsPath(Tree(i), path)
    ensures Tree(GrowItem(i, path, delta)) == Grow(Tree(i), path, delta)
    decreases path
  {
    hide Trees, ShiftAll;
    if path != [] {
      var k := path[0];
      GrowUnder(i, path, delta);
      assert Trees(i.kids)[k] == Tree(i.kids[k]);
      GrownTree(i.kids[k], path[1..], delta);
      GrownKids(i.kids, k, GrowItem(i.kids[k], path[1..], delta), delta);
    }
  }

  lemma GrowUnder(i: Item, path: Path, delta: int)
    requires path != [] && IsPath(Tree(i), path)
    ensures var k := path[0];
      GrowItem(i, path, delta) == i.(endAt := i.endAt + delta, kids := i.kids[..k] + [GrowItem(i.kids[k], path[1..], delta)] + ShiftItems(i.kids[k + 1..], delta))
  {
  }

  lemma GrownKids(row: seq<Item>, k: nat, g: Item, delta: int)
    requires k < |row|
    ensures Trees(row[..k] + [g] + ShiftItems(row[k + 1..], delta)) == Trees(row)[..k] + [Tree(g)] + ShiftAll(Trees(row)[k + 1..], delta)
  {
    hide Trees, Tree, ShiftItems;
    TreesAppend(row[..k] + [g], ShiftItems(row[k + 1..], delta));
    TreesAppend(row[..k], [g]);
    TreesParts(row, k);
    TreesParts(row, k + 1);
    ShiftedTrees(row[k + 1..], delta);
    assert Trees([g]) == [Tree(g)];
  }

  lemma {:induction false} GrownSame(i: Item, path: Path, delta: int)
    requires IsPath(Tree(i), path)
    ensures Same(i, Inner(i, path, delta)) && Same(i, GrowItem(i, path, delta))
    decreases path
  {
    SameItself(i.kids);
    if path != [] {
      var k := path[0];
      GrownSame(i.kids[k], path[1..], delta);
      RowSame(i.kids, k, GrowItem(i.kids[k], path[1..], delta), delta);
    }
  }

  lemma RowSame(row: seq<Item>, k: nat, g: Item, delta: int)
    requires k < |row| && Same(row[k], g)
    ensures SameRow(row, row[..k] + [g] + ShiftItems(row[k + 1..], delta))
  {
    hide Same;
    SplitAt(row, k);
    SameItself(row[..k]);
    ShiftedTrees(row[k + 1..], delta);
    SameRowOf(row[k], g);
    SameAppend([row[k]], row[k + 1..], [g], ShiftItems(row[k + 1..], delta));
    SameAppend(row[..k], [row[k]] + row[k + 1..], row[..k], [g] + ShiftItems(row[k + 1..], delta));
    Regroup(row[..k], [g], ShiftItems(row[k + 1..], delta));
  }

  lemma SameRowOf(i: Item, j: Item)
    requires Same(i, j)
    ensures SameRow([i], [j])
  {
    assert [i][1..] == [] && [j][1..] == [];
  }

  // ----- one level -----

  /** What holds around a child of a part. */
  ghost predicate Around1(p: Item, k: nat)
    requires k < |p.kids|
    reads p.node, AllNodes(p.kids[..k]), AllNodes(p.kids[k + 1..]), AllNodes(p.kids)`parent, AllNodes(p.kids)`prev, AllNodes(p.kids)`next
  {
    && p.node.context == p.context && p.node.startAt == p.startAt && p.node.endAt == p.endAt && p.node.isStart == p.isStart
    && (TopsAreHeads(p.kids); NodesParts(p.kids); NodesParts(p.kids[..k]); NodesParts(p.kids[k + 1..]);
        List(p.node, Heads(p.kids)) && HoldAll(p.kids[..k]) && HoldAll(p.kids[k + 1..]))
  }

  lemma {:induction false} ExceptUp(i: Item, q: Path, k: nat)
    requires IsPath(Tree(i), q) && k < |ItemAt(i, q).kids| && IsPath(Tree(i), q + [k]) && HoldsExcept(i, q + [k])
    ensures HoldsExcept(i, q) && Around1(ItemAt(i, q), k)
    decreases q
  {
    hide List, HoldAll, Heads, AllNodes;
    if q == [] {
      assert [] + [k] == [k] && [k][1..] == [];
    } else {
      assert (q + [k])[1..] == q[1..] + [k];
      ExceptUp(i.kids[q[0]], q[1..], k);
    }
  }

  /** The later siblings of a segment move, and its own end. */
  method ShiftAfter(segment: Node, delta: int, ghost p: Item, ghost k: nat, ghost g: Item)
    requires k < |p.kids| && Apart([p]) && Around1(p, k) && Holds(g) && Same(p.kids[k], g) && segment == g.node
    modifies AllNodes(p.kids)`startAt, AllNodes(p.kids)`endAt
    ensures Holds(p.(kids := p.kids[..k] + [g.(endAt := g.endAt + delta)] + ShiftItems(p.kids[k + 1..], delta)))
  {
    hide Apart, AllNodes, Tops, Below, HoldAll, Holds, List, Heads, ShiftItems, Same, SameRow;
    ghost var l, r := p.kids[..k], p.kids[k + 1..];
    Siblings(p, k, g);
    ShiftedRow(r, delta);
    SameNodeOf(p.kids[k], g);
    assert allocated(AllNodes(p.kids)) && allocated(Nodes(g)) && allocated(AllNodes(l)) && allocated(AllNodes(ShiftItems(r, delta)));
    ShiftRow(segment.next, delta, r);
    ExtendOne(segment, delta, g);
    ghost var h := g.(endAt := g.endAt + delta);
    GrownRow(p, k, h, delta);
  }

  lemma ShiftedRow(row: seq<Item>, delta: int)
    ensures AllNodes(ShiftItems(row, delta)) == AllNodes(row) && AllNodes(ShiftItems(row, delta)) == Tops(ShiftItems(row, delta)) + Below(ShiftItems(row, delta))
  {
    hide AllNodes, Tops, Below, ShiftItems;
    ShiftedTrees(row, delta);
    SameFacts(row, ShiftItems(row, delta));
    NodesParts(ShiftItems(row, delta));
  }

  method ExtendOne(n: Node, delta: int, ghost g: Item)
    requires Holds(g) && g.node == n && n !in AllNodes(g.kids)
    modifies n`endAt
    ensures Holds(g.(endAt := g.endAt + delta))
  {
    hide HoldAll, List, Heads, AllNodes, Tops, Below;
    NodesParts(g.kids);
    assert allocated(AllNodes(g.kids));
    n.endAt := n.endAt + delta;
  }

  /** The links and nodes around a child. */
  lemma Siblings(p: Item, k: nat, g: Item)
    requires k < |p.kids| && Apart([p]) && Around1(p, k) && Same(p.kids[k], g)
    ensures var l, r := p.kids[..k], p.kids[k + 1..];
      && Apart(r) && HoldAll(l) && HoldAll(r) && g.node.next == First(Heads(r)) && Forward(Heads(r), 0)
      && Nodes(g) !! AllNodes(l) && Nodes(g) !! AllNodes(r) && AllNodes(l) !! AllNodes(r)
      && AllNodes(p.kids) == AllNodes(l) + Nodes(g) + AllNodes(r) && p.node !in AllNodes(p.kids) && g.node !in AllNodes(g.kids)
      && AllNodes(l) == Tops(l) + Below(l) && AllNodes(r) == Tops(r) + Below(r) && AllNodes(p.kids) == Tops(p.kids) + Below(p.kids)
      && Among(Heads(p.kids)) == Tops(p.kids) && List(p.node, Heads(p.kids))
  {
    hide Apart, AllNodes, Tops, Below, HoldAll, Heads, Same;
    var l, r := p.kids[..k], p.kids[k + 1..];
    ApartSingle(p);
    ApartAt(p.kids, k);
    SameOne(p.kids[k], g);
    SameNodeOf(p.kids[k], g);
    ApartSingle(g);
    ApartSingle(p.kids[k]);
    NodesParts(l);
    NodesParts(r);
    NodesParts(p.kids);
    TopsAreHeads(p.kids);
    LinksAfter(p, k);
  }

  lemma SameNodeOf(i: Item, j: Item)
    requires Same(i, j)
    ensures i.node == j.node && i.context == j.context
  {
  }

  lemma LinksAfter(p: Item, k: nat)
    requires k < |p.kids| && List(p.node, Heads(p.kids))
    ensures p.kids[k].node.next == First(Heads(p.kids[k + 1..])) && Forward(Heads(p.kids[k + 1..]), 0)
  {
    hide Heads;
    var hs, rs := Heads(p.kids), Heads(p.kids[k + 1..]);
    HeadsParts(p.kids, k + 1);
    assert hs[k] == p.kids[k].node;
    forall j: nat | j < |rs| ensures rs[j].next == After(rs, j) {
      assert rs[j] == hs[k + 1 + j];
    }
  }

  lemma GrownRow(p: Item, k: nat, h: Item, delta: int)
    requires k < |p.kids| && h.node == p.kids[k].node && HoldAll(p.kids[..k]) && Holds(h) && HoldAll(ShiftItems(p.kids[k + 1..], delta)) && List(p.node, Heads(p.kids))
    requires var n := p.node; n.context == p.context && n.startAt == p.startAt && n.endAt == p.endAt && n.isStart == p.isStart
    ensures Holds(p.(kids := p.kids[..k] + [h] + ShiftItems(p.kids[k + 1..], delta)))
  {
    hide HoldAll, List, Heads, ShiftItems;
    var l, s := p.kids[..k], ShiftItems(p.kids[k + 1..], delta);
    HoldAllAppend(l + [h], s);
    HoldAllAppend(l, [h]);
    HoldAllSingle(h);
    HeadsAppend(l + [h], s);
    HeadsAppend(l, [h]);
    HeadsParts(p.kids, k);
    HeadsParts(p.kids, k + 1);
    ShiftedTrees(p.kids[k + 1..], delta);
    SameFacts(p.kids[k + 1..], s);
    OneOf(p.kids, k, h);
  }

  lemma OneOf(row: seq<Item>, k: nat, h: Item)
    requires k < |row| && h.node == row[k].node
    ensures Heads([h]) == [row[k].node] && Heads(row) == Heads(row)[..k] + [row[k].node] + Heads(row)[k + 1..]
  {
    hide Heads;
    assert Heads(row)[k] == row[k].node;
    SplitAt(Heads(row), k);
    Regroup(Heads(row)[..k], [row[k].node], Heads(row)[k + 1..]);
  }

  // ----- all levels -----

  /** Everything below the segment at `p`, on the way to `q`, has moved. */
  ghost predicate GrownTo(root: Item, q: Path, p: Path, rest: Path, delta: int)
    reads Nodes(root)
    requires IsPath(Tree(root), q)
  {
    && IsPath(Tree(root), p) && q == p + rest && IsPath(Tree(ItemAt(root, p)), rest)
    && (NodesAt(root, p); GrownSame(ItemAt(root, p), rest, delta); SameOne(ItemAt(root, p), Inner(ItemAt(root, p), rest, delta));
        HoldsExcept(root, p) && Holds(Inner(ItemAt(root, p), rest, delta)))
  }

  lemma GrownStart(e: Segments, root: Item, q: Path, delta: int)
    requires Whole(e, root) && IsPath(Tree(root), q)
    ensures GrownTo(root, q, q, [], delta) && IsTop(root.node)
  {
    hide Holds, HoldsExcept, Apart, AllNodes, Unnamed, ValidRoot;
    assert q == q + [];
    WholeAt(e, root, q);
  }

  /** The parent of the segment that has moved. */
  lemma UpPath(root: Item, q: Path, p: Path, rest: Path, p0: Path, k: nat, delta: int)
    requires IsPath(Tree(root), q) && GrownTo(root, q, p, rest, delta) && p != [] && p0 == p[..|p| - 1] && k == p[|p| - 1]
    ensures IsPath(Tree(root), p0) && k < |ItemAt(root, p0).kids| && ItemAt(root, p0).kids[k] == ItemAt(root, p)
    ensures q == p0 + ([k] + rest) && IsPath(Tree(ItemAt(root, p0)), [k] + rest)
  {
    hide Holds, HoldsExcept, AllNodes, ItemAt;
    LastStep(root, p);
    assert p == p0 + [k];
    Regroup(p0, [k], rest);
    PathUnder(ItemAt(root, p0), k, rest);
  }

  lemma UpOne(root: Item, q: Path, p: Path, rest: Path, p0: Path, k: nat, delta: int)
    requires IsPath(Tree(root), q) && GrownTo(root, q, p, rest, delta) && Apart([root]) && p == p0 + [k] && IsPath(Tree(root), p0)
    requires k < |ItemAt(root, p0).kids| && ItemAt(root, p0).kids[k] == ItemAt(root, p)
    ensures HoldsExcept(root, p0) && Around1(ItemAt(root, p0), k) && ItemAt(root, p).node.parent == ItemAt(root, p0).node
    ensures Apart([ItemAt(root, p0)]) && Nodes(root) == Outside(root, p0) + Nodes(ItemAt(root, p0)) && Outside(root, p0) !! Nodes(ItemAt(root, p0))
  {
    hide Holds, HoldsExcept, Apart, AllNodes, ItemAt;
    ExceptUp(root, p0, k);
    NodesAt(root, p0);
    ParentLink(ItemAt(root, p0), k);
  }

  lemma ParentLink(p: Item, k: nat)
    requires k < |p.kids| && Around1(p, k)
    ensures p.kids[k].node.parent == p.node
  {
    hide Heads;
    assert Heads(p.kids)[k] == p.kids[k].node;
  }

  lemma InnerUnder(i: Item, k: nat, rest: Path, delta: int)
    requires k < |i.kids| && IsPath(Tree(i.kids[k]), rest) && IsPath(Tree(i), [k] + rest)
    ensures var g := Inner(i.kids[k], rest, delta);
      Inner(i, [k] + rest, delta) == i.(kids := i.kids[..k] + [g.(endAt := g.endAt + delta)] + ShiftItems(i.kids[k + 1..], delta))
  {
    assert ([k] + rest)[1..] == rest;
  }

  /** One level up. */
  method GrowStep(segment: Node, delta: int, ghost root: Item, ghost q: Path, ghost p: Path, ghost rest: Path) returns (parent: Node)
    requires IsPath(Tree(root), q) && GrownTo(root, q, p, rest, delta) && p != [] && Apart([root]) && segment == ItemAt(root, p).node
    requires segment.parent != null
    modifies Nodes(root)`startAt, Nodes(root)`endAt
    ensures GrownTo(root, q, p[..|p| - 1], [p[|p| - 1]] + rest, delta) && parent == ItemAt(root, p[..|p| - 1]).node
  {
    hide Holds, HoldsExcept, Apart, AllNodes, ItemAt, Inner, Outside, Same, Tree, Trees, ShiftItems, List, Heads;
    ghost var p0, k := p[..|p| - 1], p[|p| - 1];
    UpPath(root, q, p, rest, p0, k, delta);
    assert p == p0 + [k];
    UpOne(root, q, p, rest, p0, k, delta);
    ghost var i := ItemAt(root, p0);
    ghost var g := Inner(ItemAt(root, p), rest, delta);
    GrownSame(ItemAt(root, p), rest, delta);
    SameNodeOf(ItemAt(root, p), g);
    InnerUnder(i, k, rest, delta);
    assert allocated(Outside(root, p0)) && allocated(Nodes(i));
    ShiftAfter(segment, delta, i, k, g);
    parent := segment.parent;
  }

  /** The loop at the end of `insert_range`. */
  method GrowUp(e: Segments, n: Node, delta: int, ghost root: Item, ghost q: Path)
    requires Whole(e, root) && IsPath(Tree(root), q) && ItemAt(root, q).node == n
    modifies Nodes(root)`startAt, Nodes(root)`endAt
    ensures Holds(GrowItem(root, q, delta))
  {
    hide Holds, HoldsExcept, Apart, AllNodes, ItemAt, Inner, Outside, Same, Tree, Trees, GrownTo, GrowItem, Unnamed, ValidRoot;
    var segment := n;
    ghost var p, rest: Path := q, [];
    GrownStart(e, root, q, delta);
    assert allocated(Nodes(root));
    while segment.parent != null
      invariant GrownTo(root, q, p, rest, delta) && IsPath(Tree(root), p) && segment == ItemAt(root, p).node && IsTop(root.node)
      decreases |p|
    {
      NotTop(root, p);
      segment := GrowStep(segment, delta, root, q, p, rest);
      p, rest := p[..|p| - 1], [p[|p| - 1]] + rest;
      StepPath(root, q, p, rest, delta);
    }
    // the toplevel segment has no siblings
    AtTop(root, q, p, rest, delta);
    ExtendOne(segment, delta, Inner(root, q, delta));
    GrownDone(root, q, delta);
  }

  lemma NotTop(root: Item, p: Path)
    requires IsPath(Tree(root), p) && IsTop(root.node) && ItemAt(root, p).node.parent != null
    ensures p != []
  {
  }

  lemma StepPath(root: Item, q: Path, p: Path, rest: Path, delta: int)
    requires IsPath(Tree(root), q) && GrownTo(root, q, p, rest, delta)
    ensures IsPath(Tree(root), p)
  {
  }

  lemma AtTop(root: Item, q: Path, p: Path, rest: Path, delta: int)
    requires IsPath(Tree(root), q) && GrownTo(root, q, p, rest, delta) && Apart([root]) && ItemAt(root, p).node.parent == null && IsTop(root.node)
    ensures Holds(Inner(root, q, delta)) && Inner(root, q, delta).node == root.node && ItemAt(root, p).node == root.node
    ensures root.node !in AllNodes(Inner(root, q, delta).kids)
  {
    hide Holds, HoldsExcept, Apart, AllNodes, Inner, Same;
    if p != [] {
      var p0, k := p[..|p| - 1], p[|p| - 1];
      UpPath(root, q, p, rest, p0, k, delta);
      assert p == p0 + [k];
      UpOne(root, q, p, rest, p0, k, delta);
    }
    assert q == rest;
    GrownSame(root, q, delta);
    SameOne(root, Inner(root, q, delta));
    SameNodeOf(root, Inner(root, q, delta));
    ApartSingle(Inner(root, q, delta));
  }

  lemma GrownDone(root: Item, q: Path, delta: int)
    requires IsPath(Tree(root), q)
    ensures var j := Inner(root, q, delta); GrowItem(root, q, delta) == j.(endAt := j.endAt + delta)
  {
  }
}
