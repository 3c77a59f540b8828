/** Splitting a simple segment on the heap where text was inserted
    (`simple_segment_split_`). */
module NodeSplit {
  import opened Wrappers
  import opened SegmentTree
  import opened SegmentCreate
  import opened SegmentLinks
  import opened SegmentItems
  import opened SegmentState
  import opened NodeTree
  import opened NodeErase
  import opened NodeCreate
  import opened NodeInsert

  // ----- putting twice -----

  lemma {:induction false} PutTwice(i: Item, q: Path, a: Item, b: Item)
    requires IsPath(Tree(i), q)
    ensures IsPath(Tree(Put(i, q, a)), q) && ItemAt(Put(i, q, a), q) == a && Put(Put(i, q, a), q, b) == Put(i, q, b)
    decreases q
  {
    if q != [] {
      var k := q[0];
      PutTwice(i.kids[k], q[1..], a, b);
      var y := Put(i.kids[k], q[1..], a);
      assert Put(i, q, a).kids[k] == y;
      assert Trees(Put(i, q, a).kids)[k] == Tree(y);
    }
  }

  lemma {:induction false} PutDeep(i: Item, q: Path, j: nat, x: Item)
    requires IsPath(Tree(i), q) && j < |ItemAt(i, q).kids|
    ensures IsPath(Tree(i), q + [j]) && ItemAt(i, q + [j]) == ItemAt(i, q).kids[j]
    ensures var p := ItemAt(i, q); Put(i, q + [j], x) == Put(i, q, p.(kids := p.kids[j := x]))
    decreases q
  {
    if q == [] {
      assert [] + [j] == [j] && [j][1..] == [];
    } else {
      assert (q + [j])[1..] == q[1..] + [j];
      PutDeep(i.kids[q[0]], q[1..], j, x);
    }
  }

  // ----- the parts -----

  function Shortened(p: Item, j: nat, offset: int): Item
    requires j < |p.kids|
  {
    p.(kids := p.kids[j := p.kids[j].(endAt := offset)])
  }

  function Gap(x: Node, offset: int): Item {
    Item(x, None, offset, offset, false, [])
  }

  function Tail(c: Item, r: Node, offset: int): Item {
    Item(r, c.context, offset, c.endAt, false, [])
  }

  /** The `j`-th child in three parts. */
  function Halved(p: Item, j: nat, offset: int, x: Node, r: Node): Item
    requires j < |p.kids|
  {
    var c := p.kids[j];
    p.(kids := p.kids[..j] + [c.(endAt := offset)] + [Gap(x, offset)] + [Tail(c, r, offset)] + p.kids[j + 1..])
  }

  lemma HalvedSteps(p: Item, j: nat, offset: int, x: Node, r: Node)
    requires j < |p.kids|
    ensures var p1 := Shortened(p, j, offset); var p2 := WithKid(p1, j + 1, Gap(x, offset));
      |p1.kids| == |p.kids| && |p2.kids| == |p.kids| + 1 && WithKid(p2, j + 2, Tail(p.kids[j], r, offset)) == Halved(p, j, offset, x, r)
  {
    var c := p.kids[j];
    var k1 := p.kids[j := c.(endAt := offset)];
    assert k1[..j + 1] == p.kids[..j] + [c.(endAt := offset)] && k1[j + 1..] == p.kids[j + 1..];
    var k2 := p.kids[..j] + [c.(endAt := offset)] + [Gap(x, offset)] + p.kids[j + 1..];
    assert k2[..j + 2] == p.kids[..j] + [c.(endAt := offset)] + [Gap(x, offset)] && k2[j + 2..] == p.kids[j + 1..];
  }

  // ----- the positions -----

  /** The children around a shortened one. */
  ghost predicate Cut(cs: seq<Segment>, j: nat, offset: int) {
    && j < |cs| && cs[j].startAt < offset == cs[j].endAt
    && (forall i :: 0 <= i < j ==> cs[i].startAt <= cs[i].endAt < offset)
    && (forall i :: j < i < |cs| ==> offset < cs[i].startAt && cs[i].startAt <= cs[i].endAt)
  }

  lemma CutGap(cs: seq<Segment>, j: nat, offset: int, k: nat)
    requires Cut(cs, j, offset)
    ensures HasRoom(cs, offset, offset) && (IsPosition(cs, k, offset, offset) ==> k == j + 1)
  {
    assert cs[j].startAt < offset;
    if j + 1 < |cs| { assert offset < cs[j + 1].startAt <= cs[j + 1].endAt; }
  }

  lemma CutTail(cs: seq<Segment>, j: nat, offset: int, end: int, gap: Segment, k: nat)
    requires Cut(cs, j, offset) && offset < end && gap.startAt == gap.endAt == offset && forall i :: j < i < |cs| ==> end <= cs[i].startAt
    ensures var ds := SegmentCreate.Link(cs, j + 1, gap); HasRoom(ds, offset, end) && (IsPosition(ds, k, offset, end) ==> k == j + 2)
  {
    var ds := SegmentCreate.Link(cs, j + 1, gap);
    assert ds[j + 1] == gap;
    if j + 2 < |ds| { assert ds[j + 2] == cs[j + 1]; }
  }

  lemma ShortenedCut(p: Item, j: nat, offset: int)
    requires Valid(Tree(p)) && j < |p.kids| && p.kids[j].startAt < offset < p.kids[j].endAt
    ensures Cut(Trees(Shortened(p, j, offset).kids), j, offset)
    ensures forall i :: j < i < |p.kids| ==> p.kids[j].endAt <= Trees(Shortened(p, j, offset).kids)[i].startAt
  {
    hide Trees, Valid, ValidForest;
    var cs := Trees(p.kids);
    KidsForest(p);
    ForestBounds(cs, p.startAt, p.endAt, p.context);
    var r := Shortened(p, j, offset);
    forall i | 0 <= i < |p.kids| ensures Trees(r.kids)[i] == if i == j then Tree(p.kids[j].(endAt := offset)) else cs[i] {
    }
    assert cs[j] == Tree(p.kids[j]);
    forall i | 0 <= i < j ensures cs[i].startAt <= cs[i].endAt < offset {
      assert cs[i].endAt <= cs[j].startAt;
    }
    forall i | j < i < |p.kids| ensures p.kids[j].endAt <= cs[i].startAt <= cs[i].endAt {
      assert cs[j].endAt <= cs[i].startAt;
    }
  }

  // ----- on the heap -----

  method Shorten(e: Segments, n: Node, offset: int, ghost root: Item, ghost q: Path, ghost j: nat)
    requires Whole(e, root) && IsPath(Tree(root), q) && j < |ItemAt(root, q).kids|
    requires var c := ItemAt(root, q).kids[j]; c.node == n && Tree(c).IsSimple() && c.startAt < offset < c.endAt
    modifies n`endAt
    ensures Whole(e, Put(root, q, Shortened(ItemAt(root, q), j, offset)))
  {
    hide HoldsExcept, HoldAll, Unnamed, UnnamedBefore, UnnamedAfter, AllNodes, Apart, Trees, Valid, ItemAt, Put, Outside, ValidRoot, List, Heads;
    ghost var c := ItemAt(root, q).kids[j];
    ghost var qj := q + [j];
    ghost var x := c.(endAt := offset);
    PutDeep(root, q, j, x);
    WholeAt(e, root, qj);
    WholeValid(e, root, qj);
    ShorterParts(c, offset);
    Childless(c);
    PutWithin(root, qj, x);
    assert allocated(Nodes(root)) && allocated(Outside(root, qj));
    n.endAt := offset;
    LeafHolds(x);
    ShorterRoot(root, qj, x);
    WholePut(e, root, qj, x);
  }

  lemma ShorterParts(c: Item, offset: int)
    requires Valid(Tree(c)) && Tree(c).IsSimple() && c.startAt < offset < c.endAt
    ensures var x := c.(endAt := offset); c.kids == [] && Valid(Tree(x)) && Unnamed([x]) == Unnamed([c]) && Nodes(x) == Nodes(c) && (Apart([c]) <==> Apart([x]))
  {
    var x := c.(endAt := offset);
    UnnamedSingle(c);
    UnnamedSingle(x);
    ApartSingle(c);
    ApartSingle(x);
  }

  lemma LeafHolds(x: Item)
    requires x.kids == [] && var n := x.node; n.context == x.context && n.startAt == x.startAt && n.endAt == x.endAt && n.isStart == x.isStart && n.children == null && n.lastChild == null
    ensures Holds(x)
  {
  }

  lemma ShorterRoot(root: Item, q: Path, x: Item)
    requires q != [] && IsPath(Tree(root), q) && ValidRoot(Tree(root)) && Valid(Tree(x))
    requires var p := ItemAt(root, q); p.startAt <= x.startAt && x.endAt <= p.endAt && x.context == p.context
    ensures ValidRoot(Tree(Put(root, q, x)))
  {
    PutWithin(root, q, x);
  }

  /** What the parent of a simple segment can hold. */
  lemma ParentHolds(p: Item, j: nat, offset: int)
    requires Valid(Tree(p)) && j < |p.kids| && p.kids[j].startAt < offset < p.kids[j].endAt
    ensures CanHold(Shortened(p, j, offset), None, offset, offset) && CanHold(p, p.kids[j].context, offset, p.kids[j].endAt)
    ensures p.startAt <= p.kids[j].startAt && p.kids[j].endAt <= p.endAt
  {
    var cs := Trees(p.kids);
    ForestBounds(cs, p.startAt, p.endAt, p.context);
    assert cs[j] == Tree(p.kids[j]);
  }

  lemma SecondHolds(p: Item, j: nat, offset: int, x: Node, k: nat)
    requires Valid(Tree(p)) && j < |p.kids| && p.kids[j].startAt < offset < p.kids[j].endAt
    ensures var p1 := Shortened(p, j, offset); var p2 := WithKid(p1, j + 1, Gap(x, offset));
      && CanHold(p2, p.kids[j].context, offset, p.kids[j].endAt) && HasRoom(Trees(p2.kids), offset, p.kids[j].endAt)
      && (IsPosition(Trees(p2.kids), k, offset, p.kids[j].endAt) ==> k == j + 2)
  {
    hide Valid, Trees, HasRoom, IsPosition, Cut;
    var p1 := Shortened(p, j, offset);
    ParentHolds(p, j, offset);
    ShortenedCut(p, j, offset);
    LinkedParts(p1, j + 1, Gap(x, offset));
    GapTree(x, offset);
    CutTail(Trees(p1.kids), j, offset, p.kids[j].endAt, InvalidSegment(offset, offset), k);
  }

  lemma GapTree(x: Node, offset: int)
    ensures Tree(Gap(x, offset)) == InvalidSegment(offset, offset)
  {
  }

  /** `simple_segment_split_`: an empty invalid segment in the middle of a simple one. */
  method SplitSimple(e: Segments, n: Node, offset: int, ghost root: Item, ghost q: Path, ghost j: nat) returns (invalid: Node, ghost tail: Node)
    requires Whole(e, root) && IsPath(Tree(root), q) && j < |ItemAt(root, q).kids| && NoneTouch(e, offset)
    requires var c := ItemAt(root, q).kids[j]; c.node == n && Tree(c).IsSimple() && c.startAt < offset < c.endAt
    modifies e`invalid, Nodes(root)
    ensures fresh(invalid) && fresh(tail) && Whole(e, Put(root, q, Halved(ItemAt(root, q), j, offset, invalid, tail)))
  {
    hide Holds, HoldsExcept, HoldAll, Unnamed, UnnamedBefore, UnnamedAfter, AllNodes, Apart, Trees, Tree, Valid, ItemAt, Put, Outside, ValidRoot, List, Heads,
         Whole, HasRoom, IsPosition, WithKid, Halved, Shortened, CanHold;
    ghost var p := ItemAt(root, q);
    ghost var p1 := Shortened(p, j, offset);
    KidOf(e, root, q, j);
    ParentHolds(p, j, offset);
    ShortenedCut(p, j, offset);
    NoStart(e, root, offset);
    SimpleHasContext(p.kids[j]);
    PartNodes(root, q, j, offset);
    var end, parent, context := n.endAt, n.parent, n.context;
    Shorten(e, n, offset, root, q, j);
    ghost var r1 := Put(root, q, p1);
    PutTwice(root, q, p1, p1);
    ShortKid(e, r1, q, j, p, offset);
    CutGap(Trees(p1.kids), j, offset, 0);
    ghost var k;
    assert allocated(Nodes(root)) && allocated(Nodes(r1));
    invalid, k := Create(e, parent, None, offset, offset, false, n, r1, q);
    CutGap(Trees(p1.kids), j, offset, k);
    ghost var p2 := WithKid(p1, j + 1, Gap(invalid, offset));
    ghost var r2 := Put(r1, q, p2);
    PutTwice(r1, q, p2, p2);
    PutTwice(root, q, p1, p2);
    GapKid(e, r2, q, p1, j, invalid, offset);
    LinkedParts(p1, j + 1, Gap(invalid, offset));
    SecondHolds(p, j, offset, invalid, 0);
    tail, k := Create(e, parent, context, offset, end, false, invalid, r2, q);
    SecondHolds(p, j, offset, invalid, k);
    HalvedSteps(p, j, offset, invalid, tail);
    PutTwice(root, q, p2, Halved(p, j, offset, invalid, tail));
  }

  lemma SimpleHasContext(c: Item)
    requires Tree(c).IsSimple()
    ensures c.context.Some?
  {
  }

  lemma NoStart(e: Segments, root: Item, offset: int)
    requires Whole(e, root) && NoneTouch(e, offset)
    ensures forall x :: x in e.invalid ==> x.startAt != offset
  {
    hide Whole;
    ListSorted(e, root);
    forall x | x in e.invalid ensures x.startAt != offset {
      var a :| 0 <= a < |e.invalid| && e.invalid[a] == x;
      assert e.invalid[a].startAt <= e.invalid[a].endAt;
    }
  }

  lemma PartNodes(root: Item, q: Path, j: nat, offset: int)
    requires IsPath(Tree(root), q) && j < |ItemAt(root, q).kids|
    ensures var p := ItemAt(root, q); Nodes(Shortened(p, j, offset)) == Nodes(p) && Nodes(p) <= Nodes(root) && |Shortened(p, j, offset).kids| == |p.kids|
  {
    hide AllNodes, Apart;
    var p := ItemAt(root, q);
    NodesAt(root, q);
    var r := Shortened(p, j, offset);
    assert r.kids[..j] == p.kids[..j] && r.kids[j + 1..] == p.kids[j + 1..];
    ApartAt(p.kids, j);
    ApartAt(r.kids, j);
  }

  lemma KidOf(e: Segments, root: Item, q: Path, j: nat)
    requires Whole(e, root) && IsPath(Tree(root), q) && j < |ItemAt(root, q).kids|
    ensures var p := ItemAt(root, q); var n := p.kids[j].node;
      && Valid(Tree(p)) && n.parent == p.node && n.endAt == p.kids[j].endAt && n.context == p.kids[j].context && n in Nodes(root)
  {
    hide Holds, HoldsExcept, Apart, AllNodes, Unnamed, ValidRoot, HoldAll;
    WholeAt(e, root, q);
    WholeValid(e, root, q);
    KidLinks(ItemAt(root, q), j);
    HoldsKid(ItemAt(root, q), j);
    HoldsParts(ItemAt(root, q).kids[j]);
    KidBelow(ItemAt(root, q).kids, j);
  }

  lemma ShortKid(e: Segments, root: Item, q: Path, j: nat, p: Item, offset: int)
    requires j < |p.kids| && Whole(e, root) && IsPath(Tree(root), q) && ItemAt(root, q) == Shortened(p, j, offset)
    ensures var n := p.kids[j].node; n in Nodes(root) && n.parent == p.node && ItemAt(root, q).node == p.node
  {
    hide Whole;
    KidOf(e, root, q, j);
  }

  lemma GapKid(e: Segments, root: Item, q: Path, p1: Item, j: nat, x: Node, offset: int)
    requires j < |p1.kids| && Whole(e, root) && IsPath(Tree(root), q) && ItemAt(root, q) == WithKid(p1, j + 1, Gap(x, offset))
    ensures x in Nodes(root) && x.parent == p1.node && ItemAt(root, q).node == p1.node
  {
    hide Whole;
    KidOf(e, root, q, j + 1);
  }
}
