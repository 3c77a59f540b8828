/** Inserting text on the heap (`insert_range`, `get_invalid_at`, `find_insertion_place`). */
module NodeInsert {
  import opened Wrappers
  import opened Contexts
  import opened SegmentTree
  import opened SegmentInsert
  import opened SegmentLinks
  import opened SegmentItems
  import opened SegmentState
  import opened NodeTree
  import opened NodeErase
  import opened NodeCreate

  // ----- get_invalid_at -----

  /** The list is in the order of the offsets. */
  lemma {:induction false} UnnamedSorted(row: seq<Item>, lo: int, hi: int, ctx: Option<Context>, a: nat, b: nat)
    requires HoldAll(row) && ValidForest(Trees(row), lo, hi, ctx) && a < b < |Unnamed(row)|
    ensures Unnamed(row)[a].endAt <= Unnamed(row)[b].startAt
    decreases row
  {
    hide HoldAll, Holds, List, AllNodes, Below, Tops, Valid, ValidForest, Trees, Unnamed;
    UnnamedHead(row);
    HoldAllAt(row, 0);
    HoldsKids(row[0]);
    FirstForest(row, lo, hi, ctx);
    var i := row[0];
    var x, y := Itself(i) + Unnamed(i.kids), Unnamed(row[1..]);
    if b < |x| {
      UnnamedSorted(i.kids, i.startAt, i.endAt, i.context, a, b);
    } else if a < |x| {
      UnnamedBounds(i.kids, i.startAt, i.endAt, i.context);
      UnnamedBounds(row[1..], i.endAt, hi, ctx);
      assert Unnamed(row)[a] == x[a] && Unnamed(row)[b] == y[b - |x|];
      assert x[a] in x && y[b - |x|] in y;
    } else {
      UnnamedSorted(row[1..], i.endAt, hi, ctx, a - |x|, b - |x|);
    }
  }

  lemma UnnamedHead(row: seq<Item>)
    ensures Unnamed([]) == []
    ensures row != [] ==> Unnamed(row) == Itself(row[0]) + Unnamed(row[0].kids) + Unnamed(row[1..]) && (row[0].context.None? ==> Itself(row[0]) == [row[0].node])
  {
  }

  lemma FirstForest(row: seq<Item>, lo: int, hi: int, ctx: Option<Context>)
    requires row != [] && ValidForest(Trees(row), lo, hi, ctx)
    ensures var i := row[0]; ValidForest(Trees(row[1..]), i.endAt, hi, ctx) && ValidForest(Trees(i.kids), i.startAt, i.endAt, i.context)
    ensures row[0].kids == [] || row[0].context.Some?
    ensures row[0].startAt <= row[0].endAt
  {
    TreesParts(row, 1);
  }

  /** `get_invalid_at`: the first invalid segment that touches the offset. */
  method InvalidAt(e: Segments, offset: int, ghost root: Item) returns (n: Node?)
    requires Whole(e, root)
    ensures n != null ==> n in e.invalid && n.startAt <= offset <= n.endAt
    ensures n == null ==> forall x :: x in e.invalid ==> !(x.startAt <= offset <= x.endAt)
  {
    hide Holds, Apart, Unnamed, AllNodes, ValidRoot;
    ghost var rest := e.invalid;
    var k := 0;
    assert allocated(Nodes(root));
    while k < |e.invalid|
      invariant Whole(e, root) && k <= |e.invalid|
      invariant forall j :: 0 <= j < k ==> e.invalid[j].endAt < offset
    {
      var segment := e.invalid[k];
      if segment.startAt > offset {
        NoneAfter(e, root, k, offset);
        return null;
      }
      if segment.endAt >= offset {
        return segment;
      }
      k := k + 1;
    }
    n := null;
  }

  lemma NoneAfter(e: Segments, root: Item, k: nat, offset: int)
    requires Whole(e, root) && k < |e.invalid| && offset < e.invalid[k].startAt && forall j :: 0 <= j < k ==> e.invalid[j].endAt < offset
    ensures forall x :: x in e.invalid ==> !(x.startAt <= offset <= x.endAt)
  {
    hide Whole;
    ListSorted(e, root);
    forall x | x in e.invalid ensures !(x.startAt <= offset <= x.endAt) {
      var j :| 0 <= j < |e.invalid| && e.invalid[j] == x;
      assert k < j ==> e.invalid[k].endAt <= e.invalid[j].startAt;
    }
  }

  lemma ListSorted(e: Segments, root: Item)
    requires Whole(e, root)
    ensures forall a, b :: 0 <= a < b < |e.invalid| ==> e.invalid[a].endAt <= e.invalid[b].startAt
    ensures forall a :: 0 <= a < |e.invalid| ==> e.invalid[a].startAt <= e.invalid[a].endAt
  {
    hide Holds, HoldAll, Apart, Unnamed, AllNodes;
    RootForest(root);
    UnnamedSingle(root);
    HoldsKids(root);
    assert e.invalid == Unnamed(root.kids);
    forall a, b | 0 <= a < b < |e.invalid| ensures e.invalid[a].endAt <= e.invalid[b].startAt {
      UnnamedSorted(root.kids, root.startAt, root.endAt, root.context, a, b);
    }
    UnnamedBounds(root.kids, root.startAt, root.endAt, root.context);
  }

  lemma RootForest(root: Item)
    requires ValidRoot(Tree(root))
    ensures ValidForest(Trees(root.kids), root.startAt, root.endAt, root.context) && Itself(root) == []
  {
  }

  // ----- find_insertion_place -----

  /** No child touches the offset: `k` of them end before it, the others begin after it. */
  predicate Between(cs: seq<Segment>, k: nat, offset: int) {
    && k <= |cs|
    && (forall x :: 0 <= x < k ==> cs[x].endAt < offset)
    && (forall x :: k <= x < |cs| ==> offset < cs[x].startAt)
  }

  lemma BetweenIsPlace(s: Segment, k: nat, offset: int)
    requires s.Touches(offset) && Between(s.children, k, offset)
    ensures IsPlace(s, [], k, offset) && Innermost(s, [], offset)
  {
  }

  lemma BetweenAt(i: Item, k: nat, offset: int)
    requires Row(i) && k <= |i.kids|
    requires k > 0 ==> Trees(i.kids)[k - 1].endAt < offset
    requires k < |i.kids| ==> offset < Trees(i.kids)[k].startAt
    ensures Between(Trees(i.kids), k, offset)
  {
    hide Heads, Trees;
    RowEnds(i);
    forall x | 0 <= x < k ensures Trees(i.kids)[x].endAt < offset {
      RowKid(i, x);
      if x < k - 1 {
        RowOrder(i, x, k - 1);
        RowKid(i, k - 1);
      }
    }
    forall x | k <= x < |i.kids| ensures offset < Trees(i.kids)[x].startAt {
      if k < x {
        RowOrder(i, k, x);
        RowKid(i, k);
      }
    }
  }

  /** The place is one of a child. */
  lemma PlaceUnder(i: Item, j: nat, path: Path, k: nat, offset: int)
    requires j < |i.kids| && i.startAt <= offset <= i.endAt && IsPlace(Tree(i.kids[j]), path, k, offset) && Innermost(Tree(i.kids[j]), path, offset)
    requires IsPath(Tree(i.kids[j]), path)
    ensures IsPlace(Tree(i), [j] + path, k, offset) && Innermost(Tree(i), [j] + path, offset)
    ensures IsPath(Tree(i), [j] + path) && ItemAt(i, [j] + path) == ItemAt(i.kids[j], path)
  {
    assert ([j] + path)[1..] == path;
    assert Trees(i.kids)[j] == Tree(i.kids[j]);
  }

  /** What the search finds: the segment and its two children around the gap. */
  ghost predicate Found(i: Item, path: Path, k: nat, offset: int, parent: Node, prev: Node?, next: Node?) {
    && IsPlace(Tree(i), path, k, offset) && Innermost(Tree(i), path, offset) && IsPath(Tree(i), path)
    && var p := ItemAt(i, path);
      p.node == parent && k <= |p.kids| && prev == Before(Heads(p.kids), k) && next == After(Heads(p.kids), k - 1)
  }

  lemma FoundHere(i: Item, k: nat, offset: int, prev: Node?, next: Node?)
    requires i.startAt <= offset <= i.endAt && k <= |i.kids| && prev == Before(Heads(i.kids), k) && next == After(Heads(i.kids), k - 1)
    requires Between(Trees(i.kids), k, offset) || (k == 0 && (i.kids == [] || i.startAt == offset) && Valid(Tree(i)))
    ensures Found(i, [], k, offset, i.node, prev, next)
  {
    hide Heads;
    if Between(Trees(i.kids), k, offset) {
      BetweenIsPlace(Tree(i), k, offset);
    } else {
      ForestBounds(Trees(i.kids), i.startAt, i.endAt, i.context);
    }
  }

  lemma FoundUnder(i: Item, j: nat, path: Path, k: nat, offset: int, parent: Node, prev: Node?, next: Node?)
    requires j < |i.kids| && i.startAt <= offset <= i.endAt && Found(i.kids[j], path, k, offset, parent, prev, next)
    ensures Found(i, [j] + path, k, offset, parent, prev, next)
  {
    hide Heads, Tree, Trees;
    PlaceUnder(i, j, path, k, offset);
  }

  lemma ChildFacts(i: Item, j: nat)
    requires Holds(i) && Valid(Tree(i)) && j < |i.kids|
    ensures Holds(i.kids[j]) && Valid(Tree(i.kids[j]))
    ensures var n := i.kids[j].node; n.startAt == i.kids[j].startAt == Trees(i.kids)[j].startAt && n.endAt == i.kids[j].endAt == Trees(i.kids)[j].endAt
  {
    hide Holds, HoldAll;
    HoldsKid(i, j);
    HoldsParts(i.kids[j]);
    ChildBounds(Tree(i), j);
  }

  /** `find_insertion_place`, where the hint was followed up to a child of the segment. */
  method FindPlace(n: Node, offset: int, hint: Node?, ghost i: Item, ghost h: nat) returns (parent: Node, prev: Node?, next: Node?, ghost path: Path, ghost k: nat)
    requires Holds(i) && i.node == n && Valid(Tree(i)) && i.startAt <= offset <= i.endAt
    requires hint != null ==> h < |i.kids| && hint == i.kids[h].node
    ensures Found(i, path, k, offset, parent, prev, next)
    decreases i, 1
  {
    hide Holds, Heads, Trees, Valid, Row, IsPlace, Innermost, Found, Between;
    KidsForest(i);
    RowFacts(i);
    RowEnds(i);
    HoldsParts(i);
    NodeRow(i);
    parent, prev, next, path, k := n, null, null, [], 0;
    if n.context.None? || n.children == null {
      FoundHere(i, 0, offset, prev, next);
      return;
    }
    if n.startAt == offset {
      next := n.children;
      FoundHere(i, 0, offset, prev, next);
      return;
    }
    var start := if hint == null then n.children else hint;
    ghost var from := if hint == null then 0 else h;
    HeadOf(i, from);
    ChildFacts(i, from);
    if start.endAt < offset {
      parent, prev, next, path, k := PlaceForward(n, offset, start, i, from);
    } else {
      parent, prev, next, path, k := PlaceBackward(n, offset, start, i, from);
    }
  }

  lemma NodeRow(i: Item)
    requires Row(i) && Valid(Tree(i))
    ensures i.node.children == (if i.kids == [] then null else i.kids[0].node) && (i.context.None? ==> i.kids == [])
    ensures Before(Heads(i.kids), 0) == null && After(Heads(i.kids), -1) == i.node.children
  {
  }

  method PlaceForward(n: Node, offset: int, start: Node, ghost i: Item, ghost from: nat) returns (parent: Node, prev: Node?, next: Node?, ghost path: Path, ghost k: nat)
    requires Holds(i) && i.node == n && Valid(Tree(i)) && i.startAt <= offset <= i.endAt && Row(i)
    requires from < |i.kids| && start == i.kids[from].node && i.kids[from].endAt < offset
    ensures Found(i, path, k, offset, parent, prev, next)
    decreases i, 0
  {
    hide Holds, Heads, Trees, Valid, Row, IsPlace, Innermost, Found, Between;
    parent, prev, next, path, k := n, null, null, [], from;
    var child: Node? := start;
    RowEnds(i);
    NodesParts(i.kids);
    assert allocated(AllNodes(i.kids));
    ChildFacts(i, from);
    while child != null
      invariant Holds(i) && Row(i) && from <= k <= |i.kids| && child == (if k < |i.kids| then i.kids[k].node else null) && next == null
      invariant k > from ==> prev == Before(Heads(i.kids), k) && Trees(i.kids)[k - 1].endAt < offset
      decreases |i.kids| - k
    {
      ChildFacts(i, k);
      RowKid(i, k);
      HeadOf(i, k);
      NextOfKid(i, k);
      if child.startAt <= offset && child.endAt >= offset {
        ghost var at := k;
        parent, prev, next, path, k := FindPlace(child, offset, null, i.kids[at], 0);
        FoundUnder(i, at, path, k, offset, parent, prev, next);
        path := [at] + path;
        return;
      }
      if child.startAt > offset {
        next := child;
        break;
      }
      prev := child;
      child, k := child.next, k + 1;
    }
    BetweenAt(i, k, offset);
    GapLinks(i, k);
    FoundHere(i, k, offset, prev, next);
  }

  lemma NextOfKid(i: Item, k: nat)
    requires Row(i) && k < |i.kids|
    ensures var n := i.kids[k].node;
      && n.next == (if k + 1 < |i.kids| then i.kids[k + 1].node else null) && n.prev == (if k > 0 then i.kids[k - 1].node else null)
      && Before(Heads(i.kids), k + 1) == n && After(Heads(i.kids), k - 1) == n
  {
    hide Heads, Trees;
  }

  lemma GapLinks(i: Item, k: nat)
    requires Row(i) && k <= |i.kids|
    ensures After(Heads(i.kids), k - 1) == (if k < |i.kids| then i.kids[k].node else null)
    ensures Before(Heads(i.kids), k) == (if k > 0 then i.kids[k - 1].node else null)
  {
    hide Heads, Trees;
  }

  method PlaceBackward(n: Node, offset: int, start: Node, ghost i: Item, ghost from: nat) returns (parent: Node, prev: Node?, next: Node?, ghost path: Path, ghost k: nat)
    requires Holds(i) && i.node == n && Valid(Tree(i)) && i.startAt <= offset <= i.endAt && Row(i)
    requires from < |i.kids| && start == i.kids[from].node && i.kids[from].endAt >= offset
    ensures Found(i, path, k, offset, parent, prev, next)
    decreases i, 0
  {
    hide Holds, Heads, Trees, Valid, Row, IsPlace, Innermost, Found, Between;
    parent, prev, next, path, k := n, null, null, [], from + 1;
    var child: Node? := start;
    RowEnds(i);
    NodesParts(i.kids);
    assert allocated(AllNodes(i.kids));
    while child != null
      invariant Holds(i) && Row(i) && k <= from + 1 && child == (if k > 0 then i.kids[k - 1].node else null) && prev == null
      invariant k <= from ==> next == After(Heads(i.kids), k - 1) && offset < Trees(i.kids)[k].startAt
      decreases k
    {
      ChildFacts(i, k - 1);
      RowKid(i, k - 1);
      NextOfKid(i, k - 1);
      if child.startAt <= offset && child.endAt >= offset {
        ghost var at := k - 1;
        parent, prev, next, path, k := FindPlace(child, offset, null, i.kids[at], 0);
        FoundUnder(i, at, path, k, offset, parent, prev, next);
        path := [at] + path;
        return;
      }
      if child.endAt < offset {
        prev := child;
        next := child.next;
        break;
      }
      next := child;
      child, k := child.prev, k - 1;
    }
    BetweenAt(i, k, offset);
    GapLinks(i, k);
    FoundHere(i, k, offset, prev, next);
  }

  // ----- a part that becomes invalid -----

  function Voided(i: Item): Item {
    i.(context := None, isStart := false)
  }

  /** A part that is not the whole may become smaller, or invalid. */
  lemma {:induction false} PutWithin(i: Item, q: Path, x: Item)
    requires q != [] && IsPath(Tree(i), q) && Valid(Tree(i)) && Valid(Tree(x))
    requires var p := ItemAt(i, q); p.startAt <= x.startAt && x.endAt <= p.endAt && (x.context == p.context || x.context.None?)
    ensures Valid(Tree(Put(i, q, x))) && var r := Put(i, q, x); r.startAt == i.startAt && r.endAt == i.endAt && r.context == i.context && r.isStart == i.isStart
    decreases q
  {
    hide Valid, ValidForest, Trees;
    var k := q[0];
    TreesPut(i.kids, k, i.kids[k]);
    ChildBounds(Tree(i), k);
    if |q| == 1 {
      assert q[1..] == [];
      PutSmaller(i, k, x);
    } else {
      PutWithin(i.kids[k], q[1..], x);
      PutKid(i, k, Put(i.kids[k], q[1..], x));
    }
  }

  lemma PutSmaller(i: Item, k: nat, y: Item)
    requires k < |i.kids| && Valid(Tree(i)) && Valid(Tree(y))
    requires i.kids[k].startAt <= y.startAt && y.endAt <= i.kids[k].endAt && (y.context == i.kids[k].context || y.context.None?)
    ensures Valid(Tree(i.(kids := i.kids[k := y])))
  {
    hide Trees;
    var cs := Trees(i.kids);
    KidsForest(i);
    TreesPut(i.kids, k, y);
    Sides(cs, i.startAt, i.endAt, i.context, k);
    SingleShape(Tree(y), cs[k].startAt, cs[k].endAt, i.context);
    ForestReplaced(cs, i.startAt, i.endAt, i.context, k, [Tree(y)]);
  }

  /** No invalid segment touches the offset. */
  ghost predicate NoneTouch(e: Segments, offset: int)
    reads e, e.invalid
  {
    forall x :: x in e.invalid ==> !(x.startAt <= offset <= x.endAt)
  }

  lemma VoidedParts(i: Item)
    requires Tree(i).IsSimple() && Valid(Tree(i))
    ensures i.kids == [] && Unnamed([i]) == [] && Unnamed([Voided(i)]) == [i.node] && Nodes(Voided(i)) == Nodes(i) && (Apart([i]) ==> Apart([Voided(i)]))
    ensures Valid(Tree(Voided(i)))
  {
    UnnamedSingle(i);
    UnnamedSingle(Voided(i));
    ApartSingle(i);
    ApartSingle(Voided(i));
  }

  /** `segment_make_invalid_` */
  method MakeInvalid(e: Segments, n: Node, offset: int, ghost root: Item, ghost q: Path)
    requires Whole(e, root) && q != [] && IsPath(Tree(root), q) && ItemAt(root, q).node == n && Tree(ItemAt(root, q)).IsSimple()
    requires ItemAt(root, q).startAt <= offset <= ItemAt(root, q).endAt && NoneTouch(e, offset)
    modifies e`invalid, n`context, n`isStart
    ensures Whole(e, Put(root, q, Voided(ItemAt(root, q))))
  {
    hide HoldsExcept, HoldAll, Unnamed, UnnamedBefore, UnnamedAfter, AllNodes, Apart, Trees, Valid, ItemAt, Put, Outside, ValidRoot, Voided, List, Heads;
    ghost var i := ItemAt(root, q);
    WholeAt(e, root, q);
    WholeValid(e, root, q);
    UnnamedAround(root, q);
    VoidedParts(i);
    ghost var pre, post := UnnamedBefore(root, q), UnnamedAfter(root, q);
    assert pre + [] + post == pre + post;
    ListOrder(e, root, q, n, pre, post, offset);
    Childless(i);
    assert allocated(Nodes(root)) && allocated(Outside(root, q)) && allocated(Among(pre)) && allocated(Among(post));
    n.context := None;
    n.isStart := false;
    e.AddInvalid(n, pre, post);
    VoidedHolds(i);
    VoidedRoot(root, q);
    WholePut(e, root, q, Voided(i));
  }

  lemma VoidedRoot(root: Item, q: Path)
    requires q != [] && IsPath(Tree(root), q) && ValidRoot(Tree(root)) && Valid(Tree(ItemAt(root, q))) && Tree(ItemAt(root, q)).IsSimple()
    ensures ValidRoot(Tree(Put(root, q, Voided(ItemAt(root, q)))))
  {
    VoidedParts(ItemAt(root, q));
    PutWithin(root, q, Voided(ItemAt(root, q)));
  }

  lemma Childless(i: Item)
    requires Holds(i) && i.kids == []
    ensures i.node.children == null && i.node.lastChild == null
    ensures var n := i.node; n.context == i.context && n.startAt == i.startAt && n.endAt == i.endAt && n.isStart == i.isStart
  {
  }

  lemma VoidedHolds(i: Item)
    requires i.kids == [] && var n := i.node; n.context == None && !n.isStart && n.startAt == i.startAt && n.endAt == i.endAt && n.children == null && n.lastChild == null
    ensures Holds(Voided(i)) && Voided(i).node == i.node
  {
  }

  /** The segment's place in the list. */
  lemma ListOrder(e: Segments, root: Item, q: Path, n: Node, pre: seq<Node>, post: seq<Node>, offset: int)
    requires IsPath(Tree(root), q) && n.startAt == ItemAt(root, q).startAt && n.endAt == ItemAt(root, q).endAt && n.startAt <= offset <= n.endAt
    requires e.invalid == pre + post && NoneTouch(e, offset)
    requires forall x :: x in pre ==> x.startAt <= x.endAt <= n.startAt
    requires forall x :: x in post ==> n.endAt <= x.startAt <= x.endAt
    ensures forall j :: 0 <= j < |pre| ==> Precedes(pre[j], n)
    ensures forall j :: 0 <= j < |post| ==> !Precedes(post[j], n)
  {
    forall j | 0 <= j < |pre| ensures Precedes(pre[j], n) {
      assert pre[j] in e.invalid && pre[j] in pre;
    }
    forall j | 0 <= j < |post| ensures !Precedes(post[j], n) {
      assert post[j] in e.invalid && post[j] in post;
    }
  }
}
