/** Creating a segment on the heap (`create_segment`, `find_segment_position`,
    `simple_segment_split_`, `segment_make_invalid_`). */
module NodeCreate {
  import opened Wrappers
  import opened Contexts
  import opened SegmentTree
  import opened SegmentCreate
  import opened SegmentLinks
  import opened SegmentItems
  import opened SegmentState
  import opened Sequences
  import opened NodeTree
  import opened NodeErase

  // ----- the place among the siblings -----

  /** `find_segment_position`: the gap for [a, b) among the children of `p`. */
  method FindPosition(p: Node, hint: Node?, a: int, b: int, ghost i: Item, ghost h: nat) returns (prev: Node?, next: Node?, ghost k: nat)
    requires Holds(i) && i.node == p && ValidForest(Trees(i.kids), i.startAt, i.endAt, i.context) && a <= b && HasRoom(Trees(i.kids), a, b)
    requires hint != null ==> h < |i.kids| && hint == i.kids[h].node
    ensures k <= |i.kids| && IsPosition(Trees(i.kids), k, a, b) && prev == Before(Heads(i.kids), k) && next == After(Heads(i.kids), k - 1)
  {
    hide Heads, Trees, Holds, HasRoom;
    RowFacts(i);
    RowEnds(i);
    if i.kids == [] { GapIs(i, 0, a, b); } else { RowKid(i, 0); RoomAt(Trees(i.kids), 0, a, b); }
    if hint != null { HeadOf(i, h); }
    prev, next, k := null, null, 0;
    var first := p.children;
    if first == null {
      return;
    }
    if first.next == null {
      if a >= first.endAt {
        prev, k := first, 1;
      } else {
        next := first;
      }
      GapIs(i, k, a, b);
      return;
    }
    var start := if hint == null then first else hint;
    k := if hint == null then 0 else h;
    if start.endAt <= a {
      prev, next, k := SearchForward(start, a, b, i, k);
    } else {
      prev, next, k := SearchBackward(start, a, b, i, k);
    }
  }

  lemma HeadOf(i: Item, h: nat)
    requires h < |i.kids|
    ensures Heads(i.kids)[h] == i.kids[h].node
  {
    hide Heads;
  }

  /** The children and their offsets. */
  ghost predicate Row(i: Item)
    reads i.node, AllNodes(i.kids)
  {
    && |Heads(i.kids)| == |i.kids| == |Trees(i.kids)|
    && i.node.children == First(Heads(i.kids))
    && (TopsAreHeads(i.kids); NodesParts(i.kids);
        forall j :: 0 <= j < |i.kids| ==> var n := Heads(i.kids)[j];
          && n.prev == Before(Heads(i.kids), j) && n.next == After(Heads(i.kids), j)
          && n.startAt == Trees(i.kids)[j].startAt && n.endAt == Trees(i.kids)[j].endAt)
    && (forall j :: 0 <= j < |i.kids| ==> Trees(i.kids)[j].startAt <= Trees(i.kids)[j].endAt && Heads(i.kids)[j] == i.kids[j].node)
    && (forall j, l :: 0 <= j < l < |i.kids| ==> Trees(i.kids)[j].endAt <= Trees(i.kids)[l].startAt)
  }

  lemma RowFacts(i: Item)
    requires Holds(i) && ValidForest(Trees(i.kids), i.startAt, i.endAt, i.context)
    ensures Row(i)
  {
    hide Holds, Heads, Trees, AllNodes, Tops, Below;
    var cs := Trees(i.kids);
    ForestBounds(cs, i.startAt, i.endAt, i.context);
    NodesParts(i.kids);
    TopsAreHeads(i.kids);
    FirstFact(i);
    forall j: nat | j < |i.kids| ensures var n := Heads(i.kids)[j];
      && n.prev == Before(Heads(i.kids), j) && n.next == After(Heads(i.kids), j) && n == i.kids[j].node
      && n.startAt == cs[j].startAt && n.endAt == cs[j].endAt
    {
      KidFact(i, j);
    }
  }

  lemma FirstFact(i: Item)
    requires Holds(i)
    ensures i.node.children == First(Heads(i.kids))
  {
  }

  lemma KidFact(i: Item, j: nat)
    requires Holds(i) && j < |i.kids|
    ensures var n := Heads(i.kids)[j];
      && n.prev == Before(Heads(i.kids), j) && n.next == After(Heads(i.kids), j) && n == i.kids[j].node
      && n.startAt == Trees(i.kids)[j].startAt && n.endAt == Trees(i.kids)[j].endAt
  {
    hide Holds, Heads, Trees;
    KidLinks(i, j);
    HoldsKid(i, j);
    HoldsParts(i.kids[j]);
  }

  lemma RowKid(i: Item, j: nat)
    requires Row(i) && j < |i.kids|
    ensures var n := Heads(i.kids)[j];
      && |Heads(i.kids)| == |i.kids| == |Trees(i.kids)|
      && n.prev == Before(Heads(i.kids), j) && n.next == After(Heads(i.kids), j)
      && n.startAt == Trees(i.kids)[j].startAt && n.endAt == Trees(i.kids)[j].endAt && n.startAt <= n.endAt
  {
    hide Heads, Trees;
  }

  /** What is between two siblings. */
  lemma GapIs(i: Item, k: nat, a: int, b: int)
    requires Row(i) && k <= |i.kids| && a <= b
    requires k > 0 ==> Trees(i.kids)[k - 1].endAt <= a
    requires k < |i.kids| ==> b <= Trees(i.kids)[k].startAt
    ensures IsPosition(Trees(i.kids), k, a, b)
  {
    hide Heads, Trees;
    var cs := Trees(i.kids);
    forall j | 0 <= j < k ensures cs[j].endAt <= a {
      if j < k - 1 { assert cs[j].endAt <= cs[k - 1].startAt; }
    }
    forall j | k <= j < |cs| ensures b <= cs[j].startAt {
      if k < j { assert cs[k].endAt <= cs[j].startAt; }
    }
  }

  lemma RoomAt(cs: seq<Segment>, j: nat, a: int, b: int)
    requires HasRoom(cs, a, b) && j < |cs|
    ensures cs[j].endAt <= a || b <= cs[j].startAt
    ensures a == b && cs[j].startAt == a ==> cs[j].endAt == a
  {
  }

  lemma RowEnds(i: Item)
    requires Row(i)
    ensures |Heads(i.kids)| == |i.kids| == |Trees(i.kids)|
  {
  }

  method SearchForward(start: Node, a: int, b: int, ghost i: Item, ghost from: nat) returns (prev: Node?, next: Node?, ghost k: nat)
    requires Row(i) && from < |i.kids| && |Heads(i.kids)| == |i.kids| && start == Heads(i.kids)[from] && start.endAt <= a <= b && HasRoom(Trees(i.kids), a, b)
    ensures k <= |i.kids| && IsPosition(Trees(i.kids), k, a, b) && prev == Before(Heads(i.kids), k) && next == After(Heads(i.kids), k - 1)
  {
    hide Heads, Trees, Row, HasRoom;
    prev, next, k := null, null, from;
    var segment: Node? := start;
    RowEnds(i);
    RowKid(i, from);
    while segment != null
      invariant Row(i) && from <= k <= |i.kids| && segment == After(Heads(i.kids), k - 1) && next == null
      invariant k > from ==> prev == Before(Heads(i.kids), k) && Trees(i.kids)[k - 1].endAt <= a
      decreases |i.kids| - k
    {
      RowKid(i, k);
      RoomAt(Trees(i.kids), k, a, b);
      if segment.endAt == a {
        prev, next, k := LastAt(segment, a, b, i, k);
        return;
      }
      if segment.startAt == b {
        next, prev := segment, segment.prev;
        GapIs(i, k, a, b);
        return;
      }
      if segment.startAt > b {
        next := segment;
        GapIs(i, k, a, b);
        return;
      }
      prev := segment;
      segment, k := segment.next, k + 1;
    }
    GapIs(i, k, a, b);
  }

  /** Past the empty siblings at the offset. */
  method LastAt(start: Node, a: int, b: int, ghost i: Item, ghost from: nat) returns (prev: Node?, next: Node?, ghost k: nat)
    requires Row(i) && from < |i.kids| && |Heads(i.kids)| == |i.kids| && start == Heads(i.kids)[from] && start.endAt == a <= b && HasRoom(Trees(i.kids), a, b)
    ensures k <= |i.kids| && IsPosition(Trees(i.kids), k, a, b) && prev == Before(Heads(i.kids), k) && next == After(Heads(i.kids), k - 1)
  {
    hide Heads, Trees, Row, HasRoom;
    var last := start;
    k := from + 1;
    RowEnds(i);
    RowKid(i, from);
    while last.next != null && last.next.startAt == a
      invariant from < k <= |i.kids| && last == Heads(i.kids)[k - 1] && last.endAt == a && Row(i)
      decreases |i.kids| - k
    {
      RowKid(i, k - 1);
      RowKid(i, k);
      RoomAt(Trees(i.kids), k, a, b);
      last, k := last.next, k + 1;
    }
    RowKid(i, k - 1);
    if k < |i.kids| {
      RowKid(i, k);
      RoomAt(Trees(i.kids), k, a, b);
      RowOrder(i, k - 1, k);
    }
    GapIs(i, k, a, b);
    prev, next := last, last.next;
  }

  lemma RowOrder(i: Item, j: nat, l: nat)
    requires Row(i) && j < l < |i.kids|
    ensures Trees(i.kids)[j].endAt <= Trees(i.kids)[l].startAt
  {
    hide Heads, Trees;
  }

  method SearchBackward(start: Node, a: int, b: int, ghost i: Item, ghost from: nat) returns (prev: Node?, next: Node?, ghost k: nat)
    requires Row(i) && from < |i.kids| && |Heads(i.kids)| == |i.kids| && start == Heads(i.kids)[from] && a < start.endAt && a <= b && HasRoom(Trees(i.kids), a, b)
    ensures k <= |i.kids| && IsPosition(Trees(i.kids), k, a, b) && prev == Before(Heads(i.kids), k) && next == After(Heads(i.kids), k - 1)
  {
    hide Heads, Trees, Row, HasRoom;
    prev, next, k := null, null, from + 1;
    var segment: Node? := start;
    RowEnds(i);
    while segment != null
      invariant Row(i) && k <= from + 1 && segment == Before(Heads(i.kids), k) && prev == null
      invariant k <= from ==> next == After(Heads(i.kids), k - 1) && b <= Trees(i.kids)[k].startAt
      invariant k == from + 1 ==> segment == start
      decreases k
    {
      RowKid(i, k - 1);
      RoomAt(Trees(i.kids), k - 1, a, b);
      if segment.endAt <= a {
        GapIs(i, k, a, b);
        prev := segment;
        return;
      }
      next := segment;
      segment, k := segment.prev, k - 1;
    }
    GapIs(i, k, a, b);
  }

  // ----- the part that is replaced keeps its place -----

  lemma {:induction false} PutValid(i: Item, q: Path, x: Item)
    requires IsPath(Tree(i), q) && Valid(Tree(i)) && Valid(Tree(x))
    requires var p := ItemAt(i, q); x.startAt == p.startAt && x.endAt == p.endAt && x.context == p.context && x.isStart == p.isStart
    ensures Valid(Tree(Put(i, q, x))) && var r := Put(i, q, x); r.startAt == i.startAt && r.endAt == i.endAt && r.context == i.context && r.isStart == i.isStart
    decreases q
  {
    hide Valid, ValidForest, Trees;
    if q != [] {
      var k := q[0];
      TreesPut(i.kids, k, i.kids[k]);
      ChildBounds(Tree(i), k);
      PutValid(i.kids[k], q[1..], x);
      PutKid(i, k, Put(i.kids[k], q[1..], x));
    }
  }

  lemma TreesPut(row: seq<Item>, k: nat, y: Item)
    requires k < |row|
    ensures Trees(row)[k] == Tree(row[k]) && Trees(row[k := y]) == Trees(row)[..k] + [Tree(y)] + Trees(row)[k + 1..]
  {
    hide Trees, Tree;
  }

  lemma PutKid(i: Item, k: nat, y: Item)
    requires k < |i.kids| && Valid(Tree(i)) && Valid(Tree(y))
    requires y.startAt == i.kids[k].startAt && y.endAt == i.kids[k].endAt && y.context == i.kids[k].context
    ensures Valid(Tree(i.(kids := i.kids[k := y])))
  {
    hide Trees;
    var cs := Trees(i.kids);
    KidsForest(i);
    TreesPut(i.kids, k, y);
    Sides(cs, i.startAt, i.endAt, i.context, k);
    SingleShape(Tree(y), y.startAt, y.endAt, i.context);
    ForestReplaced(cs, i.startAt, i.endAt, i.context, k, [Tree(y)]);
  }

  lemma PutRoot(root: Item, q: Path, x: Item)
    requires IsPath(Tree(root), q) && ValidRoot(Tree(root)) && Valid(Tree(x))
    requires var p := ItemAt(root, q); x.startAt == p.startAt && x.endAt == p.endAt && x.context == p.context && x.isStart == p.isStart
    ensures ValidRoot(Tree(Put(root, q, x)))
  {
    PutValid(root, q, x);
  }

  lemma {:induction false} ValidAt(i: Item, q: Path)
    requires IsPath(Tree(i), q) && Valid(Tree(i))
    ensures Valid(Tree(ItemAt(i, q)))
    decreases q
  {
    if q != [] {
      ChildBounds(Tree(i), q[0]);
      ValidAt(i.kids[q[0]], q[1..]);
    }
  }

  ghost predicate EndBy(ns: seq<Node>, hi: int)
    reads ns
  {
    forall x :: x in ns ==> x.startAt <= x.endAt <= hi
  }

  ghost predicate StartFrom(ns: seq<Node>, lo: int)
    reads ns
  {
    forall x :: x in ns ==> lo <= x.startAt <= x.endAt
  }

  lemma SidesOf(a: seq<Node>, b: seq<Node>, lo: int, hi: int)
    ensures EndBy(a, hi) && EndBy(b, hi) ==> EndBy(a + b, hi)
    ensures StartFrom(a, lo) && StartFrom(b, lo) ==> StartFrom(a + b, lo)
  {
    forall x | x in a + b ensures x in a || x in b {
    }
  }

  /** Invalid segments before a part begin before it, and those after it begin after it. */
  lemma {:induction false} UnnamedAround(i: Item, q: Path)
    requires IsPath(Tree(i), q) && HoldsExcept(i, q) && Valid(Tree(i))
    ensures EndBy(UnnamedBefore(i, q), ItemAt(i, q).startAt) && StartFrom(UnnamedAfter(i, q), ItemAt(i, q).endAt)
    decreases q
  {
    if q == [] {
      NoneAround(i);
    } else {
      var k := q[0];
      UnnamedBeside(i, q);
      KidBounds(i, k);
      hide HoldsExcept, UnnamedBefore, UnnamedAfter, ItemAt, HoldAll, Unnamed, ValidForest, Trees, Valid;
      UnnamedAround(i.kids[k], q[1..]);
      PartWithin(i.kids[k], q[1..]);
      var p := ItemAt(i, q);
      SidesOf([] + Unnamed(i.kids[..k]), UnnamedBefore(i.kids[k], q[1..]), p.endAt, p.startAt);
      SidesOf(UnnamedAfter(i.kids[k], q[1..]), Unnamed(i.kids[k + 1..]), p.endAt, p.startAt);
    }
  }

  lemma NoneAround(i: Item)
    ensures UnnamedBefore(i, []) == [] && UnnamedAfter(i, []) == [] && ItemAt(i, []) == i
  {
  }

  /** One level of it. */
  lemma UnnamedBeside(i: Item, q: Path)
    requires q != [] && IsPath(Tree(i), q) && HoldsExcept(i, q)
    ensures q[0] < |i.kids| && IsPath(Tree(i.kids[q[0]]), q[1..]) && HoldsExcept(i.kids[q[0]], q[1..])
    ensures HoldAll(i.kids[..q[0]]) && HoldAll(i.kids[q[0] + 1..]) && (i.kids != [] && i.context.Some? ==> Itself(i) == [])
    ensures ItemAt(i, q) == ItemAt(i.kids[q[0]], q[1..])
    ensures UnnamedBefore(i, q) == Itself(i) + Unnamed(i.kids[..q[0]]) + UnnamedBefore(i.kids[q[0]], q[1..])
    ensures UnnamedAfter(i, q) == UnnamedAfter(i.kids[q[0]], q[1..]) + Unnamed(i.kids[q[0] + 1..])
  {
    hide AllNodes, List, Heads, Unnamed, HoldAll;
  }

  lemma KidBounds(i: Item, k: nat)
    requires Valid(Tree(i)) && k < |i.kids| && HoldAll(i.kids[..k]) && HoldAll(i.kids[k + 1..])
    ensures Valid(Tree(i.kids[k])) && i.context.Some?
    ensures EndBy([] + Unnamed(i.kids[..k]), i.kids[k].startAt) && StartFrom(Unnamed(i.kids[k + 1..]), i.kids[k].endAt)
  {
    hide HoldAll, ValidForest, Trees, Unnamed, Heads, AllNodes, EndBy, StartFrom, Valid;
    KidsForest(i);
    KidSides(i, k);
    KidEnds(i.kids[..k], i.startAt, i.kids[k].startAt, i.context);
    KidEnds(i.kids[k + 1..], i.kids[k].endAt, i.endAt, i.context);
  }

  lemma KidEnds(row: seq<Item>, lo: int, hi: int, p: Option<Context>)
    requires HoldAll(row) && ValidForest(Trees(row), lo, hi, p)
    ensures EndBy([] + Unnamed(row), hi) && StartFrom(Unnamed(row), lo)
  {
    hide HoldAll, ValidForest, Trees, Unnamed, Heads, AllNodes;
    UnnamedBounds(row, lo, hi, p);
    assert [] + Unnamed(row) == Unnamed(row);
  }

  lemma KidSides(i: Item, k: nat)
    requires Valid(Tree(i)) && k < |i.kids|
    ensures ValidForest(Trees(i.kids[..k]), i.startAt, i.kids[k].startAt, i.context) && ValidForest(Trees(i.kids[k + 1..]), i.kids[k].endAt, i.endAt, i.context)
    ensures Valid(Tree(i.kids[k]))
  {
    var cs := Trees(i.kids);
    KidsForest(i);
    hide ValidForest;
    Sides(cs, i.startAt, i.endAt, i.context, k);
    assert cs[k] == Tree(i.kids[k]);
    hide Trees;
    TreesParts(i.kids, k);
    TreesParts(i.kids, k + 1);
  }

  lemma {:induction false} PartWithin(i: Item, q: Path)
    requires IsPath(Tree(i), q) && Valid(Tree(i))
    ensures i.startAt <= ItemAt(i, q).startAt <= ItemAt(i, q).endAt <= i.endAt
    decreases q
  {
    if q != [] {
      ChildBounds(Tree(i), q[0]);
      PartWithin(i.kids[q[0]], q[1..]);
    }
  }

  // ----- create_segment -----

  function WithKid(p: Item, k: nat, x: Item): Item
    requires k <= |p.kids|
  {
    p.(kids := p.kids[..k] + [x] + p.kids[k..])
  }

  lemma LinkedParts(p: Item, k: nat, x: Item)
    requires k <= |p.kids| && x.kids == []
    ensures var r := WithKid(p, k, x);
      && r.node == p.node && Nodes(r) == Nodes(p) + {x.node}
      && r.context == p.context && r.startAt == p.startAt && r.endAt == p.endAt && r.isStart == p.isStart
      && (Apart([p]) && x.node !in Nodes(p) ==> Apart([r]))
      && Unnamed([r]) == (Itself(p) + Unnamed(p.kids[..k])) + Itself(x) + Unnamed(p.kids[k..])
      && Unnamed([p]) == (Itself(p) + Unnamed(p.kids[..k])) + Unnamed(p.kids[k..])
      && Tree(r) == Tree(p).(children := SegmentCreate.Link(Trees(p.kids), k, Tree(x)))
      && Heads(r.kids) == Heads(p.kids)[..k] + [x.node] + Heads(p.kids)[k..]
      && (HoldAll(p.kids) && Holds(x) ==> HoldAll(r.kids))
  {
    hide AllNodes, Apart, Unnamed, HoldAll, Holds, Heads, Trees;
    var l, r, q := p.kids[..k], p.kids[k..], WithKid(p, k, x);
    assert p.kids == l + r;
    AllNodesAppend(l, r);
    AllNodesAppend(l + [x], r);
    AllNodesAppend(l, [x]);
    AllNodesSingle(x);
    ApartAppend(l, r);
    ApartAppend(l + [x], r);
    ApartAppend(l, [x]);
    ApartSingle(x);
    ApartSingle(p);
    ApartSingle(q);
    UnnamedAppend(l, r);
    UnnamedAppend(l + [x], r);
    UnnamedAppend(l, [x]);
    UnnamedSingle(x);
    UnnamedSingle(p);
    UnnamedSingle(q);
    HoldAllAppend(l, r);
    HoldAllAppend(l + [x], r);
    HoldAllAppend(l, [x]);
    HoldAllSingle(x);
    HeadsAppend(l + [x], r);
    HeadsAppend(l, [x]);
    HeadsParts(p.kids, k);
    TreesAppend(l + [x], r);
    TreesAppend(l, [x]);
    TreesParts(p.kids, k);
    Alone(x);
    Regroup(Itself(p), Unnamed(l), Unnamed(r));
    Regroup(Itself(p), Unnamed(l) + Itself(x), Unnamed(r));
    Regroup(Itself(p), Unnamed(l), Itself(x));
  }

  lemma Alone(x: Item)
    ensures Heads([x]) == [x.node] && Trees([x]) == [Tree(x)] && AllNodes([]) == {} && Unnamed([]) == [] && Apart([])
    ensures Itself(x) + [] == Itself(x)
  {
  }

  /** The invalid segments before and after a gap among the children of a part. */
  function ListBefore(root: Item, q: Path, k: nat): seq<Node>
    requires IsPath(Tree(root), q) && k <= |ItemAt(root, q).kids|
  {
    UnnamedBefore(root, q) + (Itself(ItemAt(root, q)) + Unnamed(ItemAt(root, q).kids[..k]))
  }

  function ListAfter(root: Item, q: Path, k: nat): seq<Node>
    requires IsPath(Tree(root), q) && k <= |ItemAt(root, q).kids|
  {
    Unnamed(ItemAt(root, q).kids[k..]) + UnnamedAfter(root, q)
  }

  /** Where an invalid segment belongs that begins at `a`, where none does. */
  lemma ListGap(e: Segments, root: Item, q: Path, k: nat, a: int, b: int)
    requires Whole(e, root) && IsPath(Tree(root), q) && a <= b
    requires var i := ItemAt(root, q); k <= |i.kids| && i.startAt <= a <= b <= i.endAt && i.context.Some? && IsPosition(Trees(i.kids), k, a, b)
    requires forall x :: x in e.invalid ==> x.startAt != a
    ensures e.invalid == ListBefore(root, q, k) + ListAfter(root, q, k)
    ensures forall x :: x in ListBefore(root, q, k) ==> x.startAt < a
    ensures forall x :: x in ListAfter(root, q, k) ==> a < x.startAt
  {
    hide Holds, HoldsExcept, HoldAll, Unnamed, UnnamedBefore, UnnamedAfter, AllNodes, Apart, Trees, Valid;
    var i := ItemAt(root, q);
    WholeAt(e, root, q);
    UnnamedAround(root, q);
    ValidAt(root, q);
    GapBounds(i, k, a, b);
    LinkedParts(i, k, Item(i.node, None, a, b, false, []));
    Regroup(Itself(i), Unnamed(i.kids[..k]), Unnamed(i.kids[k..]));
    Regroup(UnnamedBefore(root, q), Itself(i) + Unnamed(i.kids[..k]), Unnamed(i.kids[k..]));
    Regroup(UnnamedBefore(root, q) + (Itself(i) + Unnamed(i.kids[..k])), Unnamed(i.kids[k..]), UnnamedAfter(root, q));
    forall x | x in ListBefore(root, q, k) ensures x.startAt < a {
      assert x in e.invalid;
    }
    forall x | x in ListAfter(root, q, k) ensures a < x.startAt {
      assert x in e.invalid;
    }
  }

  lemma GapForest(cs: seq<Segment>, lo: int, hi: int, p: Option<Context>, k: nat, a: int, b: int)
    requires ValidForest(cs, lo, hi, p) && k <= |cs| && lo <= a <= b <= hi && IsPosition(cs, k, a, b)
    ensures ValidForest(cs[..k], lo, a, p) && ValidForest(cs[k..], b, hi, p)
  {
    hide Valid;
    SliceShape(cs, lo, hi, p, k, k);
    ForestRebound(cs[..k], lo, hi, lo, a, p);
    ForestRebound(cs[k..], EndOf(cs[..k], lo), hi, b, hi, p);
  }

  lemma GapBounds(i: Item, k: nat, a: int, b: int)
    requires Holds(i) && Valid(Tree(i)) && k <= |i.kids| && i.startAt <= a <= b <= i.endAt && IsPosition(Trees(i.kids), k, a, b)
    ensures forall x :: x in Unnamed(i.kids[..k]) ==> x.startAt <= a
    ensures forall x :: x in Unnamed(i.kids[k..]) ==> b <= x.startAt
  {
    hide Holds, HoldAll, Valid, ValidForest, Trees, Unnamed, IsPosition, List, Heads, AllNodes, Tops, Below;
    HoldsParts(i);
    KidsForest(i);
    assert i.kids == i.kids[..k] + i.kids[k..];
    HoldAllAppend(i.kids[..k], i.kids[k..]);
    TreesParts(i.kids, k);
    GapForest(Trees(i.kids), i.startAt, i.endAt, i.context, k, a, b);
    UnnamedBounds(i.kids[..k], i.startAt, a, i.context);
    UnnamedBounds(i.kids[k..], b, i.endAt, i.context);
  }

  /** What `create_segment` needs of the segment under which the new one is put. */
  ghost predicate CanHold(i: Item, context: Option<Context>, a: int, b: int) {
    Tree(i).IsContainer() && Fits(context, i.context) && i.startAt <= a <= b <= i.endAt
  }

  lemma LinkedValid(i: Item, k: nat, x: Item)
    requires Valid(Tree(i)) && CanHold(i, x.context, x.startAt, x.endAt) && x.kids == [] && k <= |i.kids| && IsPosition(Trees(i.kids), k, x.startAt, x.endAt)
    ensures Valid(Tree(WithKid(i, k, x)))
  {
    hide Trees;
    LinkedParts(i, k, x);
    KidsForest(i);
    assert Trees([]) == [] && Valid(Tree(x));
    LinkShape(Trees(i.kids), i.startAt, i.endAt, i.context, k, Tree(x));
  }

  lemma LinkedList(e: Segments, root: Item, q: Path, k: nat, x: Item)
    requires IsPath(Tree(root), q) && k <= |ItemAt(root, q).kids| && x.kids == []
    requires if x.context.None? then e.invalid == ListBefore(root, q, k) + [x.node] + ListAfter(root, q, k)
             else e.invalid == UnnamedBefore(root, q) + Unnamed([ItemAt(root, q)]) + UnnamedAfter(root, q)
    ensures e.invalid == UnnamedBefore(root, q) + Unnamed([WithKid(ItemAt(root, q), k, x)]) + UnnamedAfter(root, q)
  {
    hide Unnamed, UnnamedBefore, UnnamedAfter, ItemAt;
    var i := ItemAt(root, q);
    var l, r := Itself(i) + Unnamed(i.kids[..k]), Unnamed(i.kids[k..]);
    LinkedParts(i, k, x);
    if x.context.None? {
      Regroup(UnnamedBefore(root, q), l, [x.node]);
      Regroup(UnnamedBefore(root, q) + l + [x.node], r, UnnamedAfter(root, q));
      Regroup(UnnamedBefore(root, q), l + [x.node], r);
    } else {
      assert l + [] == l;
    }
  }

  /** The new node among its siblings. */
  method Insert(n: Node, p: Node, prev: Node?, next: Node?, ghost i: Item, ghost k: nat, ghost x: Item)
    requires Holds(i) && Apart([i]) && i.node == p && k <= |i.kids| && prev == Before(Heads(i.kids), k) && next == After(Heads(i.kids), k - 1)
    requires x.node == n && Holds(x) && x.kids == [] && n !in Nodes(i) && n.parent == p
    modifies p`children, p`lastChild, n`prev, n`next, AllNodes(i.kids)`prev, AllNodes(i.kids)`next
    ensures Holds(WithKid(i, k, x))
  {
    hide Holds, HoldAll, List, Heads, AllNodes, Apart, Tops, Below, Trees;
    HoldsParts(i);
    ApartSingle(i);
    NodesParts(i.kids);
    TopsAreHeads(i.kids);
    ApartTops(i.kids);
    LinkedParts(i, k, x);
    NoneBelow(x);
    assert n !in Among(Heads(i.kids));
    assert allocated(AllNodes(i.kids));
    SegmentLinks.Link(p, n, prev, next, Heads(i.kids), k);
    LinkedHolds(i, k, x);
  }

  lemma NoneBelow(x: Item)
    requires x.kids == []
    ensures AllNodes(x.kids) == {} && Nodes(x) == {x.node}
  {
  }

  lemma LinkedHolds(i: Item, k: nat, x: Item)
    requires k <= |i.kids| && x.kids == [] && HoldAll(i.kids) && Holds(x) && List(i.node, Heads(i.kids)[..k] + [x.node] + Heads(i.kids)[k..])
    requires var n := i.node; n.context == i.context && n.startAt == i.startAt && n.endAt == i.endAt && n.isStart == i.isStart
    ensures Holds(WithKid(i, k, x))
  {
    hide HoldAll, List, Heads;
    LinkedParts(i, k, x);
  }

  /** The neighbours of the new segment, looked for from the hint, or from the child of
      `p` that the hint of the engine lies under. */
  method Neighbours(e: Segments, p: Node, a: int, b: int, hint: Node?, ghost root: Item, ghost q: Path) returns (prev: Node?, next: Node?, ghost k: nat)
    requires Whole(e, root) && IsPath(Tree(root), q) && ItemAt(root, q).node == p && a <= b && HasRoom(Trees(ItemAt(root, q).kids), a, b)
    requires hint != null ==> hint in Nodes(root) && hint.parent == p
    ensures var i := ItemAt(root, q);
      k <= |i.kids| && IsPosition(Trees(i.kids), k, a, b) && prev == Before(Heads(i.kids), k) && next == After(Heads(i.kids), k - 1)
  {
    hide Holds, HoldsExcept, HoldAll, Unnamed, UnnamedBefore, UnnamedAfter, AllNodes, Apart, Trees, Valid, ItemAt, Outside, HasRoom, IsPosition, ValidRoot;
    ghost var i := ItemAt(root, q);
    assert allocated(Nodes(root));
    WholeAt(e, root, q);
    WholeValid(e, root, q);
    var h := hint;
    ghost var hk: nat := 0;
    if h == null {
      h, hk := Climb(e, e.hint, p, root, q);
    } else {
      ghost var path := FindPath(root, hint);
      hk := TopStep(e, root, path, q);
    }
    KidsForest(i);
    prev, next, k := FindPosition(p, h, a, b, i, hk);
  }

  /** `segment_new` */
  method New(e: Segments, p: Node, context: Option<Context>, a: int, b: int, isStart: bool, ghost root: Item, ghost q: Path, ghost k: nat)
    returns (n: Node, ghost x: Item)
    requires Whole(e, root) && IsPath(Tree(root), q) && a <= b
    requires var i := ItemAt(root, q);
      k <= |i.kids| && i.startAt <= a <= b <= i.endAt && i.context.Some? && IsPosition(Trees(i.kids), k, a, b)
    requires context.None? ==> forall x :: x in e.invalid ==> x.startAt != a
    modifies e`invalid
    ensures fresh(n) && n.parent == p && x == Item(n, context, a, b, isStart, []) && Holds(x)
    ensures e.invalid == UnnamedBefore(root, q) + Unnamed([WithKid(ItemAt(root, q), k, x)]) + UnnamedAfter(root, q)
  {
    hide Holds, HoldsExcept, HoldAll, Unnamed, UnnamedBefore, UnnamedAfter, AllNodes, Apart, Trees, Valid, ItemAt, Outside, ListBefore, ListAfter, WithKid, IsPosition, ValidRoot;
    assert allocated(Nodes(root));
    WholeAt(e, root, q);
    n := new Node(p, context, a, b, isStart);
    x := Item(n, context, a, b, isStart, []);
    if context.None? {
      ListGap(e, root, q, k, a, b);
      e.AddInvalid(n, ListBefore(root, q, k), ListAfter(root, q, k));
    }
    LinkedList(e, root, q, k, x);
    NewHolds(x);
  }

  lemma HoldingContext(i: Item, context: Option<Context>, a: int, b: int)
    requires CanHold(i, context, a, b)
    ensures i.context.Some? && i.startAt <= a <= b <= i.endAt
  {
  }

  /** `create_segment`: the new segment is put in its place among the children of `p`, and
      an invalid one in its place in the list. */
  method Create(e: Segments, p: Node, context: Option<Context>, a: int, b: int, isStart: bool, hint: Node?, ghost root: Item, ghost q: Path)
    returns (n: Node, ghost k: nat)
    requires Whole(e, root) && IsPath(Tree(root), q) && ItemAt(root, q).node == p && CanHold(ItemAt(root, q), context, a, b)
    requires HasRoom(Trees(ItemAt(root, q).kids), a, b)
    requires hint != null ==> hint in Nodes(root) && hint.parent == p
    requires context.None? ==> forall x :: x in e.invalid ==> x.startAt != a
    modifies e`invalid, Nodes(ItemAt(root, q))
    ensures fresh(n) && n.parent == p && k <= |ItemAt(root, q).kids| && IsPosition(Trees(ItemAt(root, q).kids), k, a, b)
    ensures Whole(e, Put(root, q, WithKid(ItemAt(root, q), k, Item(n, context, a, b, isStart, []))))
  {
    hide Holds, HoldsExcept, HoldAll, Unnamed, UnnamedBefore, UnnamedAfter, AllNodes, Apart, Trees, Valid, ItemAt, Put, Outside, WithKid, HasRoom, IsPosition, ValidRoot,
         List, Heads, CanHold, Tree, Below, Tops, IsPath;
    ghost var i := ItemAt(root, q);
    HoldingContext(i, context, a, b);
    assert allocated(Nodes(root)) && allocated(Outside(root, q)) && allocated(Nodes(i));
    WholeAt(e, root, q);
    WholeValid(e, root, q);
    var prev, next;
    prev, next, k := Neighbours(e, p, a, b, hint, root, q);
    ghost var x;
    n, x := New(e, p, context, a, b, isStart, root, q, k);
    Insert(n, p, prev, next, i, k, x);
    CreatedWhole(e, root, q, k, x);
  }

  lemma CreatedWhole(e: Segments, root: Item, q: Path, k: nat, x: Item)
    requires IsPath(Tree(root), q) && k <= |ItemAt(root, q).kids| && ValidRoot(Tree(root)) && Valid(Tree(ItemAt(root, q)))
    requires CanHold(ItemAt(root, q), x.context, x.startAt, x.endAt) && IsPosition(Trees(ItemAt(root, q).kids), k, x.startAt, x.endAt)
    requires x.kids == [] && x.node !in Nodes(root) && Apart([root]) && e.root == root.node && IsTop(root.node)
    requires HoldsExcept(root, q) && Holds(WithKid(ItemAt(root, q), k, x)) && Live(e.hint, Nodes(root)) && Live(e.hint2, Nodes(root))
    requires e.invalid == UnnamedBefore(root, q) + Unnamed([WithKid(ItemAt(root, q), k, x)]) + UnnamedAfter(root, q)
    ensures Whole(e, Put(root, q, WithKid(ItemAt(root, q), k, x)))
  {
    hide Holds, HoldsExcept, HoldAll, Unnamed, UnnamedBefore, UnnamedAfter, AllNodes, Apart, Trees, Valid, ItemAt, Put, Outside, WithKid, HasRoom, IsPosition, ValidRoot;
    var i := ItemAt(root, q);
    NodesAt(root, q);
    LinkedParts(i, k, x);
    LinkedValid(i, k, x);
    PutRoot(root, q, WithKid(i, k, x));
    WholePut(e, root, q, WithKid(i, k, x));
  }

  lemma NewHolds(x: Item)
    requires x.kids == [] && var n := x.node; n.children == null && n.lastChild == null && n.context == x.context && n.startAt == x.startAt && n.endAt == x.endAt && n.isStart == x.isStart
    ensures Holds(x)
  {
  }

  lemma WholeValid(e: Segments, root: Item, q: Path)
    requires Whole(e, root) && IsPath(Tree(root), q)
    ensures ValidRoot(Tree(root)) && Valid(Tree(ItemAt(root, q)))
  {
    ValidAt(root, q);
  }
}
