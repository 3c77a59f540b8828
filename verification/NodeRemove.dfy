/** Removing one segment of the tree on the heap (`segment_remove`). */
module NodeRemove {
  import opened SegmentTree
  import opened SegmentRemove
  import opened SegmentLinks
  import opened SegmentItems
  import opened SegmentState
  import opened Sequences
  import opened NodeTree
  import opened NodeErase
  import opened NodeCreate

  function DropKid(p: Item, k: nat): Item
    requires k < |p.kids|
  {
    p.(kids := p.kids[..k] + p.kids[k + 1..])
  }

  /** Without the part at the path. */
  function RemoveItem(i: Item, p: Path): Item
    requires p != [] && IsPath(Tree(i), p)
  {
    LastStep(i, p);
    Put(i, p[..|p| - 1], DropKid(ItemAt(i, p[..|p| - 1]), p[|p| - 1]))
  }

  lemma RemoveUnder(i: Item, p: Path)
    requires |p| > 1 && IsPath(Tree(i), p)
    ensures RemoveItem(i, p) == i.(kids := i.kids[p[0] := RemoveItem(i.kids[p[0]], p[1..])])
  {
    hide DropKid, ItemAt, Put, Tree, Trees;
    RestIsPath(i, p);
    var k, rest := p[0], p[1..];
    LastStep(i, p);
    LastStep(i.kids[k], rest);
    PathTail(p);
    PathUnder(i, k, rest[..|rest| - 1]);
  }

  lemma RestIsPath(i: Item, p: Path)
    requires p != [] && IsPath(Tree(i), p)
    ensures p[0] < |i.kids| && IsPath(Tree(i.kids[p[0]]), p[1..])
  {
  }

  lemma PathTail(p: Path)
    requires |p| > 1
    ensures p[..|p| - 1] == [p[0]] + p[1..][..|p| - 2] && p[|p| - 1] == p[1..][|p| - 2]
  {
  }

  lemma DropTree(p: Item, k: nat)
    requires k < |p.kids|
    ensures Tree(DropKid(p, k)) == RemoveAt(Tree(p), [k])
  {
    hide Trees;
    TreesAppend(p.kids[..k], p.kids[k + 1..]);
    TreesParts(p.kids, k);
    TreesParts(p.kids, k + 1);
    assert [k][1..] == [];
  }

  lemma {:induction false} RemoveTree(i: Item, p: Path)
    requires p != [] && IsPath(Tree(i), p)
    ensures Tree(RemoveItem(i, p)) == RemoveAt(Tree(i), p)
    decreases p
  {
    hide Trees, RemoveItem, DropKid;
    var k := p[0];
    if |p| == 1 {
      LastStep(i, p);
      assert p == [k] && p[..0] == [];
      DropTree(i, k);
      RemoveHere(i, k);
    } else {
      RemoveTree(i.kids[k], p[1..]);
      RemoveUnder(i, p);
      TreesPut(i.kids, k, RemoveItem(i.kids[k], p[1..]));
    }
  }

  lemma RemoveHere(i: Item, k: nat)
    requires k < |i.kids|
    ensures IsPath(Tree(i), [k]) && RemoveItem(i, [k]) == DropKid(i, k)
  {
    assert [k][..0] == [] && [k][1..] == [];
  }

  lemma DropParts(p: Item, k: nat)
    requires k < |p.kids|
    ensures var r, x := DropKid(p, k), p.kids[k];
      && r.node == p.node && Nodes(p) == Nodes(r) + Nodes(x)
      && (Apart([p]) ==> Apart([r]) && Nodes(r) !! Nodes(x))
      && Unnamed([p]) == (Itself(p) + Unnamed(p.kids[..k])) + Unnamed([x]) + Unnamed(p.kids[k + 1..])
      && Unnamed([r]) == (Itself(p) + Unnamed(p.kids[..k])) + Unnamed(p.kids[k + 1..])
      && Nodes(r) == {p.node} + AllNodes(p.kids[..k]) + AllNodes(p.kids[k + 1..])
      && (HoldAll(r.kids) <==> HoldAll(p.kids[..k]) && HoldAll(p.kids[k + 1..]))
  {
    hide AllNodes, Apart, Unnamed, HoldAll;
    var r, x, a, b := DropKid(p, k), p.kids[k], p.kids[..k], p.kids[k + 1..];
    RowAt(p.kids, k);
    ApartAt(p.kids, k);
    AllNodesAppend(a, b);
    ApartAppend(a, b);
    UnnamedAppend(a, b);
    HoldAllAppend(a, b);
    ApartSingle(p);
    ApartSingle(r);
    UnnamedSingle(p);
    UnnamedSingle(r);
    Regroup(Itself(p), Unnamed(a), Unnamed(b));
    Regroup(Itself(p), Unnamed(a) + Unnamed([x]), Unnamed(b));
    Regroup(Itself(p), Unnamed(a), Unnamed([x]));
  }

  /** The child and its links go. */
  method Take(e: Segments, n: Node, p: Node, ghost i: Item, ghost k: nat, ghost pre: seq<Node>, ghost post: seq<Node>, ghost live: set<Node>)
    requires Holds(i) && Apart([i]) && i.node == p && k < |i.kids| && i.kids[k].node == n
    requires e.invalid == pre + Unnamed([i.kids[k]]) + post && forall x :: x in pre ==> x !in Nodes(i.kids[k])
    requires Nodes(DropKid(i, k)) <= live && live !! Nodes(i.kids[k])
    requires Live(e.hint, live + Nodes(i.kids[k])) && Live(e.hint2, live + Nodes(i.kids[k]))
    modifies e`invalid, e`hint, e`hint2, p`children, p`lastChild, AllNodes(i.kids)
    ensures Holds(DropKid(i, k)) && e.invalid == pre + post && Live(e.hint, live) && Live(e.hint2, live)
  {
    hide Holds, HoldAll, List, Heads, AllNodes, Apart, Tops, Below, Unnamed;
    HoldsParts(i);
    ApartSingle(i);
    DropParts(i, k);
    HoldAllAt(i.kids, k);
    ApartAt(i.kids, k);
    ApartTops(i.kids);
    RowAt(i.kids, k);
    NodesParts(i.kids);
    NodesParts(i.kids[..k]);
    NodesParts(i.kids[k + 1..]);
    KidBelow(i.kids, k);
    assert allocated(AllNodes(i.kids));
    e.Remove(n, p, i.kids, k, pre, post, live);
    DropHolds(i, k);
  }

  lemma DropHolds(i: Item, k: nat)
    requires k < |i.kids| && HoldAll(i.kids[..k]) && HoldAll(i.kids[k + 1..]) && List(i.node, Heads(i.kids[..k] + i.kids[k + 1..]))
    requires var n := i.node; n.context == i.context && n.startAt == i.startAt && n.endAt == i.endAt && n.isStart == i.isStart
    ensures Holds(DropKid(i, k))
  {
    hide HoldAll, List, Heads;
    DropParts(i, k);
  }

  /** `segment_remove`: the list and the hints stay right, and the tree becomes the value
      without the segment. */
  method RemoveSegment(e: Segments, n: Node, ghost root: Item, ghost path: Path)
    requires Whole(e, root) && path != [] && IsPath(Tree(root), path) && ItemAt(root, path).node == n
    modifies e`invalid, e`hint, e`hint2, Nodes(root)
    ensures Whole(e, RemoveItem(root, path)) && Tree(RemoveItem(root, path)) == RemoveAt(Tree(root), path)
  {
    hide Holds, HoldsExcept, HoldAll, Unnamed, UnnamedBefore, UnnamedAfter, AllNodes, Apart, ItemAt, Put, Outside, ValidRoot, RemoveAt, DropKid;
    ghost var q, k := path[..|path| - 1], path[|path| - 1];
    LastStep(root, path);
    RemoveTree(root, path);
    ghost var i := ItemAt(root, q);
    assert allocated(Nodes(root)) && allocated(Outside(root, q)) && allocated(Nodes(i));
    WholeAt(e, root, q);
    LinksAt(root, path);
    DropParts(i, k);
    ghost var pre, post := UnnamedBefore(root, q) + (Itself(i) + Unnamed(i.kids[..k])), Unnamed(i.kids[k + 1..]) + UnnamedAfter(root, q);
    Around4(UnnamedBefore(root, q), Itself(i) + Unnamed(i.kids[..k]), Unnamed([i.kids[k]]), Unnamed(i.kids[k + 1..]), UnnamedAfter(root, q));
    BeforeOutside(root, q);
    BeforeKid(i, k);
    Take(e, n, n.parent, i, k, pre, post, Outside(root, q) + Nodes(DropKid(i, k)));
    RemovedRoot(root, path);
    WholePut(e, root, q, DropKid(i, k));
  }

  lemma Around4(a: seq<Node>, b: seq<Node>, c: seq<Node>, d: seq<Node>, e: seq<Node>)
    ensures a + (b + c + d) + e == (a + b) + c + (d + e) && a + (b + d) + e == (a + b) + (d + e)
  {
    Regroup(a + b, c, d);
    Regroup(a, b, c + d);
    Regroup(b, c, d);
    Regroup(a + b + c, d, e);
    Regroup(a, b, d);
    Regroup(a + b, d, e);
  }

  /** The invalid segments before a part are outside it. */
  lemma {:induction false} BeforeOutside(i: Item, q: Path)
    requires IsPath(Tree(i), q)
    ensures forall x :: x in UnnamedBefore(i, q) ==> x in Outside(i, q)
    decreases q
  {
    if q != [] {
      BeforeOutside(i.kids[q[0]], q[1..]);
      UnnamedNodes(i.kids[..q[0]]);
    }
  }

  lemma BeforeKid(i: Item, k: nat)
    requires k < |i.kids| && Apart([i])
    ensures forall x :: x in Itself(i) + Unnamed(i.kids[..k]) ==> x !in Nodes(i.kids[k]) && x in Nodes(i)
  {
    hide AllNodes, Apart, Unnamed;
    ApartSingle(i);
    ApartAt(i.kids, k);
    UnnamedNodes(i.kids[..k]);
    KidBelow(i.kids, k);
  }

  lemma RemovedRoot(root: Item, path: Path)
    requires ValidRoot(Tree(root)) && path != [] && IsPath(Tree(root), path)
    ensures ValidRoot(Tree(RemoveItem(root, path)))
  {
    RemoveTree(root, path);
    RemoveShape(Tree(root), path);
  }
}
