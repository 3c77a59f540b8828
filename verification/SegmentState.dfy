/** The list of invalid segments and the two search hints, kept up to date when segments
    are created and destroyed (`add_invalid`, `remove_invalid`, `segment_destroy`,
    `segment_remove`). */
module SegmentState {
  import opened SegmentLinks
  import opened SegmentItems

  /** Where a hint is after the nodes `gone` were destroyed. */
  function Dropped(h: Node?, gone: set<Node>): Node? {
    if h in gone then null else h
  }

  predicate Live(h: Node?, live: set<Node>) {
    h == null || h in live
  }

  /** `segment_cmp`, for the segments that the list is sorted by. */
  predicate Precedes(x: Node, y: Node)
    reads x, y
  {
    x.startAt < y.startAt || (x.startAt == y.startAt && x.endAt < y.endAt)
  }

  class Segments {
    var root: Node?
    var invalid: seq<Node>
    var hint: Node?
    var hint2: Node?

    constructor ()
      ensures root == null && invalid == [] && hint == null && hint2 == null
    {
      root, invalid, hint, hint2 := null, [], null, null;
    }

    /** `add_invalid`: the segment is inserted where it belongs. */
    method AddInvalid(n: Node, ghost pre: seq<Node>, ghost post: seq<Node>)
      requires invalid == pre + post && n.context.None?
      requires forall j :: 0 <= j < |pre| ==> Precedes(pre[j], n)
      requires forall j :: 0 <= j < |post| ==> !Precedes(post[j], n)
      modifies this`invalid
      ensures invalid == pre + [n] + post
    {
      var i := 0;
      while i < |invalid| && Precedes(invalid[i], n)
        invariant i <= |pre|
      {
        i := i + 1;
      }
      invalid := invalid[..i] + [n] + invalid[i..];
    }

    /** `remove_invalid` */
    method RemoveInvalid(n: Node, ghost pre: seq<Node>, ghost post: seq<Node>)
      requires invalid == pre + [n] + post && n !in pre
      modifies this`invalid
      ensures invalid == pre + post
    {
      var i := 0;
      assert invalid[|pre|] == n && forall j :: 0 <= j < |pre| ==> pre[j] != n;
      while invalid[i] != n
        invariant i <= |pre|
        decreases |pre| - i
      {
        i := i + 1;
      }
      invalid := invalid[..i] + invalid[i + 1..];
    }

    /** `segment_destroy`: everything below a segment, and then the segment itself,
        leaves the list, and a hint among them is unset. */
    method Destroy(n: Node, ghost i: Item, ghost pre: seq<Node>, ghost post: seq<Node>)
      requires i.node == n && Holds(i) && Apart([i])
      requires invalid == pre + Unnamed([i]) + post && forall x :: x in pre ==> x !in Nodes(i)
      modifies this`invalid, this`hint, this`hint2, Nodes(i)`children, Nodes(i)`lastChild
      ensures invalid == pre + post
      ensures hint == Dropped(old(hint), Nodes(i)) && hint2 == Dropped(old(hint2), Nodes(i))
      decreases i, 1
    {
      hide Apart, AllNodes, HoldAll, Unnamed, List;
      ApartSingle(i);
      UnnamedSingle(i);
      assert invalid == (pre + Itself(i)) + Unnamed(i.kids) + post;
      DestroyChildren(n, i, pre + Itself(i), post);
      if hint == n {
        hint := null;
      }
      if hint2 == n {
        hint2 := null;
      }
      if n.context.None? {
        RemoveInvalid(n, pre, post);
      }
    }

    method DestroyChildren(n: Node, ghost i: Item, ghost pre: seq<Node>, ghost post: seq<Node>)
      requires i.node == n && Holds(i) && Apart([i])
      requires invalid == pre + Unnamed(i.kids) + post && forall x :: x in pre ==> x !in AllNodes(i.kids)
      modifies this`invalid, this`hint, this`hint2, Nodes(i)`children, Nodes(i)`lastChild
      ensures invalid == pre + post
      ensures hint == Dropped(old(hint), AllNodes(i.kids)) && hint2 == Dropped(old(hint2), AllNodes(i.kids))
      decreases i, 0
    {
      hide Apart, AllNodes, Below, Tops, Heads, HoldAll, Unnamed, Holds, Dropped, List, Forward;
      ghost var kids, nodes := i.kids, Heads(i.kids);
      ApartSingle(i);
      KidsForward(i);
      NodesParts(kids);
      assert allocated(AllNodes(kids));
      var child := n.children;
      n.children := null;
      n.lastChild := null;
      ghost var k := 0;
      NoneDropped(hint, kids);
      NoneDropped(hint2, kids);
      while child != null
        invariant k <= |kids| && child == After(nodes, k - 1) && Forward(nodes, k)
        invariant invalid == pre + Unnamed(kids[k..]) + post
        invariant HoldAll(kids[k..])
        invariant hint == Dropped(old(hint), AllNodes(kids[..k])) && hint2 == Dropped(old(hint2), AllNodes(kids[..k]))
        decreases |kids| - k
      {
        var next := child.next;
        NextKid(kids, k);
        KidWithin(kids, k);
        NextNode(nodes, k);
        DropMore(old(hint), kids, k);
        DropMore(old(hint2), kids, k);
        assert allocated(Among(nodes));
        DestroyNext(child, kids, k, pre, post);
        child := next;
        k := k + 1;
      }
      KidsDone(kids, k, pre, post);
    }

    method DestroyNext(child: Node, ghost kids: seq<Item>, ghost k: nat, ghost pre: seq<Node>, ghost post: seq<Node>)
      requires k < |kids| && child == kids[k].node && Apart(kids) && HoldAll(kids[k..])
      requires invalid == pre + Unnamed(kids[k..]) + post && forall x :: x in pre ==> x !in AllNodes(kids)
      modifies this`invalid, this`hint, this`hint2, Nodes(kids[k])`children, Nodes(kids[k])`lastChild
      ensures invalid == pre + Unnamed(kids[k + 1..]) + post && HoldAll(kids[k + 1..])
      ensures hint == Dropped(old(hint), Nodes(kids[k])) && hint2 == Dropped(old(hint2), Nodes(kids[k]))
      decreases kids[k], 2
    {
      hide Apart, AllNodes, Below, Tops, HoldAll, Unnamed, Holds;
      ApartAt(kids, k);
      ApartSingle(kids[k]);
      NextKid(kids, k);
      assert invalid == pre + Unnamed([kids[k]]) + (Unnamed(kids[k + 1..]) + post);
      NodesParts(kids[k + 1..]);
      assert allocated(AllNodes(kids[k + 1..]));
      Destroy(child, kids[k], pre, Unnamed(kids[k + 1..]) + post);
    }

    // ----- removing -----

    /** A hint at a removed segment goes to a neighbour, or to the parent. */
    method Redirect(h: Node?, n: Node) returns (r: Node?)
      ensures r == if h != n then h else if n.next != null then n.next else if n.prev != null then n.prev else n.parent
    {
      r := h;
      if h == n {
        if n.next != null {
          r := n.next;
        } else if n.prev != null {
          r := n.prev;
        } else {
          r := n.parent;
        }
      }
    }

    /** The segment is taken out of its parent's list, and the hints are taken off it. */
    method Unhook(n: Node, p: Node, ghost row: seq<Item>, ghost k: nat, ghost live: set<Node>)
      requires k < |row| && row[k].node == n && List(p, Heads(row)) && Apart(row) && Holds(row[k])
      requires p in live && AllNodes(row[..k]) <= live && AllNodes(row[k + 1..]) <= live && live !! Nodes(row[k])
      requires Live(hint, live + Nodes(row[k])) && Live(hint2, live + Nodes(row[k]))
      modifies this`hint, this`hint2, p`children, p`lastChild, Tops(row)`prev, Tops(row)`next
      ensures List(p, Heads(row[..k] + row[k + 1..])) && Holds(row[k])
      ensures Live(hint, live + AllNodes(row[k].kids)) && Live(hint2, live + AllNodes(row[k].kids))
    {
      hide Apart, AllNodes, Below, Tops, Heads, HoldAll, Unnamed, Holds, List;
      ApartAt(row, k);
      ApartTops(row);
      ApartSingle(row[k]);
      KidBelow(row, k);
      TopsAreHeads(row);
      Neighbours(p, row, k, live);
      assert allocated(Nodes(row[k]));
      Unlink(n, p, Heads(row), k);
      HeadsWithout(row, k);
      assert allocated(Among(Heads(row[..k] + row[k + 1..])));
      hint := Redirect(hint, n);
      hint2 := Redirect(hint2, n);
    }

    /** `segment_remove`: the segment is taken out of its parent's list and destroyed.
        The hints stay in what is left of the tree, `live`. */
    method Remove(n: Node, p: Node, ghost row: seq<Item>, ghost k: nat, ghost pre: seq<Node>, ghost post: seq<Node>, ghost live: set<Node>)
      requires k < |row| && row[k].node == n && List(p, Heads(row)) && Apart(row) && Holds(row[k])
      requires invalid == pre + Unnamed([row[k]]) + post && forall x :: x in pre ==> x !in Nodes(row[k])
      requires p in live && AllNodes(row[..k]) <= live && AllNodes(row[k + 1..]) <= live && live !! Nodes(row[k])
      requires Live(hint, live + Nodes(row[k])) && Live(hint2, live + Nodes(row[k]))
      modifies this`invalid, this`hint, this`hint2, p`children, p`lastChild, Tops(row)`prev, Tops(row)`next,
               Nodes(row[k])`children, Nodes(row[k])`lastChild
      ensures List(p, Heads(row[..k] + row[k + 1..]))
      ensures invalid == pre + post && Live(hint, live) && Live(hint2, live)
    {
      hide Apart, AllNodes, Below, Heads, HoldAll, Unnamed, Holds, List, Tops, Dropped;
      Unhook(n, p, row, k, live);
      assert allocated(Among(Heads(row[..k] + row[k + 1..])));
      ApartAt(row, k);
      ApartSingle(row[k]);
      DroppedLive(hint, live, row[k]);
      DroppedLive(hint2, live, row[k]);
      Destroy(n, row[k], pre, post);
    }
  }

  lemma DroppedLive(h: Node?, live: set<Node>, i: Item)
    requires Live(h, live + AllNodes(i.kids))
    ensures Live(Dropped(h, Nodes(i)), live)
  {
  }

  lemma KidsForward(i: Item)
    requires Holds(i)
    ensures Forward(Heads(i.kids), 0) && i.node.children == After(Heads(i.kids), -1)
    ensures HoldAll(i.kids[0..]) && i.kids[0..] == i.kids && AllNodes(i.kids[..0]) == {}
  {
    assert i.kids[0..] == i.kids;
  }

  lemma NoneDropped(h: Node?, kids: seq<Item>)
    ensures Dropped(h, AllNodes(kids[..0])) == h
  {
  }

  lemma DropMore(h: Node?, kids: seq<Item>, k: nat)
    requires k < |kids|
    ensures Dropped(Dropped(h, AllNodes(kids[..k])), Nodes(kids[k])) == Dropped(h, AllNodes(kids[..k + 1]))
  {
    NextKid(kids, k);
  }

  lemma NextNode(nodes: seq<Node>, k: nat)
    requires Forward(nodes, k) && k < |nodes|
    ensures nodes[k].next == After(nodes, k) && Forward(nodes, k + 1)
  {
  }

  lemma KidsDone(kids: seq<Item>, k: nat, pre: seq<Node>, post: seq<Node>)
    requires k == |kids|
    ensures AllNodes(kids[..k]) == AllNodes(kids) && pre + Unnamed(kids[k..]) + post == pre + post
  {
    assert kids[..k] == kids && kids[k..] == [];
  }

  lemma KidWithin(kids: seq<Item>, k: nat)
    requires k < |kids|
    ensures Nodes(kids[k]) <= AllNodes(kids)
  {
    KidBelow(kids, k);
  }

  lemma NextKid(kids: seq<Item>, k: nat)
    requires k < |kids|
    ensures Unnamed(kids[k..]) == Unnamed([kids[k]]) + Unnamed(kids[k + 1..])
    ensures AllNodes(kids[..k + 1]) == AllNodes(kids[..k]) + Nodes(kids[k])
    ensures HoldAll(kids[k..]) <==> Holds(kids[k]) && HoldAll(kids[k + 1..])
  {
    hide Unnamed, AllNodes, HoldAll, Holds;
    assert kids[k..] == [kids[k]] + kids[k + 1..];
    UnnamedAppend([kids[k]], kids[k + 1..]);
    assert kids[..k + 1] == kids[..k] + [kids[k]];
    AllNodesAppend(kids[..k], [kids[k]]);
    AllNodesSingle(kids[k]);
    HoldAllAppend([kids[k]], kids[k + 1..]);
    HoldAllSingle(kids[k]);
  }

  lemma HeadsWithout(row: seq<Item>, k: nat)
    requires k < |row|
    ensures Heads(row[..k] + row[k + 1..]) == Heads(row)[..k] + Heads(row)[k + 1..]
  {
    hide Heads;
  }

  /** What the hints can be redirected to. */
  lemma Neighbours(p: Node, row: seq<Item>, k: nat, live: set<Node>)
    requires k < |row| && List(p, Heads(row)) && p in live && AllNodes(row[..k]) <= live && AllNodes(row[k + 1..]) <= live
    ensures row[k].node.parent == p && Live(After(Heads(row), k), live) && Live(Before(Heads(row), k), live)
  {
    hide Heads, AllNodes;
    if k + 1 < |row| { KidBelow(row[k + 1..], 0); }
    if k > 0 { KidBelow(row[..k], k - 1); }
    assert Heads(row)[k] == row[k].node;
  }
}
