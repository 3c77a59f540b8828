/** The nodes of the segment tree and what they hold: the tree on the heap and the tree
    as a value. */
module SegmentItems {
  import opened Wrappers
  import opened Contexts
  import opened SegmentTree
  import opened SegmentLinks

  /** A node with the values of its fields and its children. */
  datatype Item = Item(node: Node, context: Option<Context>, startAt: int, endAt: int, isStart: bool, kids: seq<Item>)

  function Tree(i: Item): Segment
    decreases i, 1
  {
    Segment(i.context, i.startAt, i.endAt, i.isStart, Trees(i.kids))
  }

  function Trees(row: seq<Item>): (r: seq<Segment>)
    ensures |r| == |row| && forall k :: 0 <= k < |row| ==> r[k] == Tree(row[k])
    decreases row, 0
  {
    if row == [] then [] else [Tree(row[0])] + Trees(row[1..])
  }

  function Heads(row: seq<Item>): (r: seq<Node>)
    ensures |r| == |row| && forall k :: 0 <= k < |row| ==> r[k] == row[k].node
  {
    if row == [] then [] else [row[0].node] + Heads(row[1..])
  }

  // ----- the nodes of a tree -----

  function Nodes(i: Item): set<Node>
    decreases i, 1
  {
    {i.node} + AllNodes(i.kids)
  }

  function AllNodes(row: seq<Item>): set<Node>
    decreases row, 0
  {
    if row == [] then {} else Nodes(row[0]) + AllNodes(row[1..])
  }

  /** The siblings themselves. */
  function Tops(row: seq<Item>): set<Node> {
    if row == [] then {} else {row[0].node} + Tops(row[1..])
  }

  /** All nodes but the siblings. */
  function Below(row: seq<Item>): set<Node> {
    if row == [] then {} else AllNodes(row[0].kids) + Below(row[1..])
  }

  lemma {:induction false} NodesParts(row: seq<Item>)
    ensures AllNodes(row) == Tops(row) + Below(row)
    decreases row
  {
    if row != [] { NodesParts(row[1..]); }
  }

  lemma {:induction false} KidBelow(row: seq<Item>, k: nat)
    requires k < |row|
    ensures row[k].node in Tops(row) && AllNodes(row[k].kids) <= Below(row) && Nodes(row[k]) <= AllNodes(row)
    decreases row
  {
    if k > 0 {
      assert row[1..][k - 1] == row[k];
      KidBelow(row[1..], k - 1);
    }
  }

  lemma TopsAppend(a: seq<Item>, b: seq<Item>)
    ensures Tops(a + b) == Tops(a) + Tops(b) && Below(a + b) == Below(a) + Below(b)
    decreases a
  {
    if a == [] {
      assert a + b == b;
    } else {
      assert (a + b)[1..] == a[1..] + b;
      TopsAppend(a[1..], b);
    }
  }

  lemma {:induction false} TopsAreHeads(row: seq<Item>)
    ensures Tops(row) == Among(Heads(row))
    decreases row
  {
    if row != [] {
      TopsAreHeads(row[1..]);
      assert Heads(row) == [row[0].node] + Heads(row[1..]);
    }
  }

  lemma AllNodesAppend(a: seq<Item>, b: seq<Item>)
    ensures AllNodes(a + b) == AllNodes(a) + AllNodes(b)
    decreases a
  {
    if a == [] {
      assert a + b == b;
    } else {
      assert (a + b)[1..] == a[1..] + b;
      AllNodesAppend(a[1..], b);
    }
  }

  lemma AllNodesSingle(i: Item)
    ensures AllNodes([i]) == Nodes(i)
  {
    assert [i][1..] == [];
  }

  /** No node occurs twice. */
  predicate Apart(row: seq<Item>) {
    row != [] ==>
      && row[0].node !in AllNodes(row[0].kids) && Apart(row[0].kids)
      && Nodes(row[0]) !! AllNodes(row[1..]) && Apart(row[1..])
  }

  lemma ApartAppend(a: seq<Item>, b: seq<Item>)
    ensures Apart(a + b) <==> Apart(a) && Apart(b) && AllNodes(a) !! AllNodes(b)
    decreases a
  {
    if a == [] {
      assert a + b == b;
    } else {
      assert (a + b)[1..] == a[1..] + b;
      ApartAppend(a[1..], b);
      AllNodesAppend(a[1..], b);
    }
  }

  lemma ApartSingle(i: Item)
    ensures Apart([i]) <==> i.node !in AllNodes(i.kids) && Apart(i.kids)
  {
    assert [i][1..] == [];
  }

  /** A sibling is nowhere below. */
  lemma {:induction false} ApartTops(row: seq<Item>)
    requires Apart(row)
    ensures Tops(row) !! Below(row)
    decreases row
  {
    if row != [] {
      ApartTops(row[1..]);
      NodesParts(row[1..]);
    }
  }

  /** A sibling and the others. */
  lemma ApartAt(row: seq<Item>, k: nat)
    requires k < |row|
    ensures AllNodes(row) == AllNodes(row[..k]) + Nodes(row[k]) + AllNodes(row[k + 1..])
    ensures Apart(row) <==>
      && Apart(row[..k]) && Apart(row[k + 1..]) && row[k].node !in AllNodes(row[k].kids) && Apart(row[k].kids)
      && AllNodes(row[..k]) !! Nodes(row[k]) && AllNodes(row[..k]) !! AllNodes(row[k + 1..]) && Nodes(row[k]) !! AllNodes(row[k + 1..])
  {
    hide AllNodes, Apart;
    assert row == row[..k] + ([row[k]] + row[k + 1..]);
    AllNodesAppend(row[..k], [row[k]] + row[k + 1..]);
    AllNodesAppend([row[k]], row[k + 1..]);
    AllNodesSingle(row[k]);
    ApartAppend(row[..k], [row[k]] + row[k + 1..]);
    ApartAppend([row[k]], row[k + 1..]);
    ApartSingle(row[k]);
  }

  // ----- the invalid ones -----

  function Itself(i: Item): seq<Node> {
    if i.context.None? then [i.node] else []
  }

  /** The nodes without a context, in the order of the tree. */
  function Unnamed(row: seq<Item>): seq<Node> {
    if row == [] then []
    else Itself(row[0]) + Unnamed(row[0].kids) + Unnamed(row[1..])
  }

  lemma UnnamedAppend(a: seq<Item>, b: seq<Item>)
    ensures Unnamed(a + b) == Unnamed(a) + Unnamed(b)
    decreases a
  {
    if a == [] {
      assert a + b == b;
    } else {
      assert (a + b)[1..] == a[1..] + b;
      UnnamedAppend(a[1..], b);
    }
  }

  lemma UnnamedSingle(i: Item)
    ensures Unnamed([i]) == Itself(i) + Unnamed(i.kids)
  {
    assert [i][1..] == [];
  }

  lemma {:induction false} UnnamedNodes(row: seq<Item>)
    ensures forall x :: x in Unnamed(row) ==> x in AllNodes(row)
    decreases row
  {
    if row != [] {
      UnnamedNodes(row[0].kids);
      UnnamedNodes(row[1..]);
    }
  }

  // ----- the heap -----

  /** The node and everything below it is as the item says.  Its own links to its parent
      and its siblings are not part of that. */
  ghost predicate Holds(i: Item)
    reads i.node`context, i.node`startAt, i.node`endAt, i.node`isStart, i.node`children, i.node`lastChild, AllNodes(i.kids)
    decreases i, 1
  {
    && i.node.context == i.context && i.node.startAt == i.startAt && i.node.endAt == i.endAt && i.node.isStart == i.isStart
    && (NodesParts(i.kids); TopsAreHeads(i.kids); List(i.node, Heads(i.kids)) && HoldAll(i.kids))
  }

  ghost predicate HoldAll(row: seq<Item>)
    reads Tops(row)`context, Tops(row)`startAt, Tops(row)`endAt, Tops(row)`isStart, Tops(row)`children, Tops(row)`lastChild, Below(row)
    decreases row, 0
  {
    forall k :: 0 <= k < |row| ==> (KidBelow(row, k); Holds(row[k]))
  }

  lemma HoldAllAppend(a: seq<Item>, b: seq<Item>)
    ensures HoldAll(a + b) <==> HoldAll(a) && HoldAll(b)
  {
    if HoldAll(a + b) {
      forall k | 0 <= k < |a| ensures Holds(a[k]) {
        assert (a + b)[k] == a[k];
      }
      forall k | 0 <= k < |b| ensures Holds(b[k]) {
        assert (a + b)[|a| + k] == b[k];
      }
    }
  }

  lemma HoldAllSingle(i: Item)
    ensures HoldAll([i]) <==> Holds(i)
  {
    assert [i][0] == i;
  }

  /** A sibling and the others. */
  lemma HoldAllAt(row: seq<Item>, k: nat)
    requires k < |row|
    ensures HoldAll(row) <==> HoldAll(row[..k]) && Holds(row[k]) && HoldAll(row[k + 1..])
  {
    hide HoldAll, Holds;
    assert row == row[..k] + ([row[k]] + row[k + 1..]);
    HoldAllAppend(row[..k], [row[k]] + row[k + 1..]);
    HoldAllAppend([row[k]], row[k + 1..]);
    HoldAllSingle(row[k]);
  }

  lemma HeadsAppend(a: seq<Item>, b: seq<Item>)
    ensures Heads(a + b) == Heads(a) + Heads(b)
  {
  }

  lemma HeadsParts(row: seq<Item>, m: nat)
    requires m <= |row|
    ensures Heads(row[..m]) == Heads(row)[..m] && Heads(row[m..]) == Heads(row)[m..]
  {
    hide Heads;
  }

  lemma SameHeads(row: seq<Item>, k: nat, i: Item)
    requires k < |row| && i.node == row[k].node
    ensures Heads(row[k := i]) == Heads(row)
  {
    hide Heads;
  }

  lemma TreesAppend(a: seq<Item>, b: seq<Item>)
    ensures Trees(a + b) == Trees(a) + Trees(b)
  {
    hide Trees, Tree;
  }

  lemma TreesParts(row: seq<Item>, m: nat)
    requires m <= |row|
    ensures Trees(row[..m]) == Trees(row)[..m] && Trees(row[m..]) == Trees(row)[m..]
  {
    hide Trees, Tree;
  }
}
