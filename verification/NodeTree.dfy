/** The whole tree on the heap, and parts of it that are replaced. */
module NodeTree {
  import opened SegmentTree
  import opened SegmentLinks
  import opened SegmentItems
  import opened SegmentState
  import opened Sequences

  // ----- paths -----

  function ItemAt(i: Item, path: Path): Item
    requires IsPath(Tree(i), path)
    decreases path
  {
    if path == [] then i else ItemAt(i.kids[path[0]], path[1..])
  }

  /** The tree with the part at `path` replaced. */
  function Put(i: Item, path: Path, x: Item): Item
    requires IsPath(Tree(i), path)
    decreases path
  {
    if path == [] then x else i.(kids := i.kids[path[0] := Put(i.kids[path[0]], path[1..], x)])
  }

  /** The nodes that are not in the part at `path`. */
  function Outside(i: Item, path: Path): set<Node>
    requires IsPath(Tree(i), path)
    decreases path
  {
    if path == [] then {}
    else
      var k := path[0];
      {i.node} + AllNodes(i.kids[..k]) + AllNodes(i.kids[k + 1..]) + Outside(i.kids[k], path[1..])
  }

  lemma {:induction false} NodesAt(i: Item, path: Path)
    requires IsPath(Tree(i), path)
    ensures Nodes(i) == Outside(i, path) + Nodes(ItemAt(i, path))
    ensures Apart([i]) ==> Outside(i, path) !! Nodes(ItemAt(i, path)) && Apart([ItemAt(i, path)])
    decreases path
  {
    hide AllNodes, Apart;
    if path != [] {
      var k := path[0];
      NodesAt(i.kids[k], path[1..]);
      ApartAt(i.kids, k);
      ApartSingle(i);
      ApartSingle(i.kids[k]);
    }
  }

  lemma {:induction false} PutNodes(i: Item, path: Path, x: Item)
    requires IsPath(Tree(i), path)
    ensures Nodes(Put(i, path, x)) == Outside(i, path) + Nodes(x)
    ensures Apart([i]) && Apart([x]) && Nodes(x) !! Outside(i, path) ==> Apart([Put(i, path, x)])
    decreases path
  {
    hide AllNodes, Apart;
    if path != [] {
      var k := path[0];
      var y := Put(i.kids[k], path[1..], x);
      PutNodes(i.kids[k], path[1..], x);
      NodesAt(i.kids[k], path[1..]);
      var kids := i.kids[k := y];
      assert kids[..k] == i.kids[..k] && kids[k + 1..] == i.kids[k + 1..];
      ApartAt(i.kids, k);
      ApartAt(kids, k);
      ApartSingle(i);
      ApartSingle(i.kids[k]);
      ApartSingle(y);
      ApartSingle(Put(i, path, x));
    }
  }

  lemma {:induction false} TreeAt(i: Item, path: Path)
    requires IsPath(Tree(i), path)
    ensures Tree(ItemAt(i, path)) == At(Tree(i), path)
    decreases path
  {
    if path != [] { TreeAt(i.kids[path[0]], path[1..]); }
  }

  /** Every node is somewhere. */
  lemma {:induction false} FindPath(i: Item, n: Node) returns (path: Path)
    requires n in Nodes(i)
    ensures IsPath(Tree(i), path) && ItemAt(i, path).node == n
    decreases i, 1
  {
    if n == i.node {
      path := [];
    } else {
      var k;
      k, path := FindAmong(i.kids, n);
      path := [k] + path;
    }
  }

  lemma {:induction false} FindAmong(row: seq<Item>, n: Node) returns (k: nat, path: Path)
    requires n in AllNodes(row)
    ensures k < |row| && IsPath(Tree(row[k]), path) && ItemAt(row[k], path).node == n
    decreases row, 0
  {
    if n in Nodes(row[0]) {
      k := 0;
      path := FindPath(row[0], n);
    } else {
      k, path := FindAmong(row[1..], n);
      k := k + 1;
    }
  }

  // ----- the list of invalid segments -----

  function UnnamedBefore(i: Item, path: Path): seq<Node>
    requires IsPath(Tree(i), path)
    decreases path
  {
    if path == [] then [] else Itself(i) + Unnamed(i.kids[..path[0]]) + UnnamedBefore(i.kids[path[0]], path[1..])
  }

  function UnnamedAfter(i: Item, path: Path): seq<Node>
    requires IsPath(Tree(i), path)
    decreases path
  {
    if path == [] then [] else UnnamedAfter(i.kids[path[0]], path[1..]) + Unnamed(i.kids[path[0] + 1..])
  }

  lemma {:induction false} UnnamedAt(i: Item, path: Path)
    requires IsPath(Tree(i), path)
    ensures Unnamed([i]) == UnnamedBefore(i, path) + Unnamed([ItemAt(i, path)]) + UnnamedAfter(i, path)
    decreases path
  {
    PutUnnamed(i, path, ItemAt(i, path));
    PutItself(i, path);
  }

  lemma {:induction false} PutItself(i: Item, path: Path)
    requires IsPath(Tree(i), path)
    ensures Put(i, path, ItemAt(i, path)) == i
    decreases path
  {
    if path != [] { PutItself(i.kids[path[0]], path[1..]); }
  }

  lemma {:induction false} PutUnnamed(i: Item, path: Path, x: Item)
    requires IsPath(Tree(i), path)
    ensures Unnamed([Put(i, path, x)]) == UnnamedBefore(i, path) + Unnamed([x]) + UnnamedAfter(i, path)
    decreases path
  {
    hide Unnamed;
    if path == [] {
      assert [] + Unnamed([x]) + [] == Unnamed([x]);
    } else {
      var k := path[0];
      var y := Put(i.kids[k], path[1..], x);
      PutUnnamed(i.kids[k], path[1..], x);
      UnnamedSingle(Put(i, path, x));
      UnnamedParts(i.kids[k := y], k);
      assert i.kids[k := y][..k] == i.kids[..k] && i.kids[k := y][k + 1..] == i.kids[k + 1..];
      SixParts(Itself(i), Unnamed(i.kids[..k]), UnnamedBefore(i.kids[k], path[1..]), Unnamed([x]), UnnamedAfter(i.kids[k], path[1..]), Unnamed(i.kids[k + 1..]));
    }
  }

  lemma UnnamedParts(row: seq<Item>, k: nat)
    requires k < |row|
    ensures Unnamed(row) == Unnamed(row[..k]) + (Unnamed([row[k]]) + Unnamed(row[k + 1..]))
  {
    SplitAt(row, k);
    UnnamedAppend(row[..k], [row[k]] + row[k + 1..]);
    UnnamedAppend([row[k]], row[k + 1..]);
  }

  lemma SixParts(a: seq<Node>, b: seq<Node>, c: seq<Node>, d: seq<Node>, e: seq<Node>, f: seq<Node>)
    ensures a + (b + ((c + d + e) + f)) == (a + b + c) + d + (e + f)
  {
    Regroup(a, b, (c + d + e) + f);
    Regroup(a + b, c + d + e, f);
    Regroup(a + b, c + d, e);
    Regroup(a + b, c, d);
    Regroup(a + b + c + d, e, f);
  }

  // ----- the heap -----

  /** Everything but the part at `path` is as the item says. */
  ghost predicate HoldsExcept(i: Item, path: Path)
    requires IsPath(Tree(i), path)
    reads Outside(i, path), ItemAt(i, path).node`parent, ItemAt(i, path).node`prev, ItemAt(i, path).node`next
    decreases path
  {
    path != [] ==>
      var k := path[0];
      && i.node.context == i.context && i.node.startAt == i.startAt && i.node.endAt == i.endAt && i.node.isStart == i.isStart
      && (HeadsOutside(i, path); NodesParts(i.kids[..k]); NodesParts(i.kids[k + 1..]);
          List(i.node, Heads(i.kids)) && HoldAll(i.kids[..k]) && HoldAll(i.kids[k + 1..]))
      && HoldsExcept(i.kids[k], path[1..])
  }

  /** The siblings on the way down are outside, but for the part itself. */
  lemma HeadsOutside(i: Item, path: Path)
    requires IsPath(Tree(i), path) && path != []
    ensures Among(Heads(i.kids)) <= Outside(i, path) + {ItemAt(i, path).node}
  {
    TopNodes(i.kids, path[0]);
    PartIsOutside(i.kids[path[0]], path[1..]);
    hide Heads, AllNodes, Tree;
  }

  lemma TopNodes(row: seq<Item>, k: nat)
    requires k < |row|
    ensures Among(Heads(row)) <= AllNodes(row[..k]) + {row[k].node} + AllNodes(row[k + 1..])
  {
    hide Heads, Tops;
    assert row == row[..k] + ([row[k]] + row[k + 1..]) by { SplitAt(row, k); }
    TopsAreHeads(row);
    TopsAppend(row[..k], [row[k]] + row[k + 1..]);
    TopsAppend([row[k]], row[k + 1..]);
    NodesParts(row[..k]);
    NodesParts(row[k + 1..]);
    OneTop(row[k]);
  }

  lemma OneTop(i: Item)
    ensures Tops([i]) == {i.node}
  {
    assert [i][1..] == [];
  }

  lemma PartIsOutside(i: Item, path: Path)
    requires IsPath(Tree(i), path)
    ensures i.node in Outside(i, path) + {ItemAt(i, path).node}
  {
  }

  lemma {:induction false} TakeOut(i: Item, path: Path)
    requires IsPath(Tree(i), path) && Holds(i)
    ensures HoldsExcept(i, path) && Holds(ItemAt(i, path))
    decreases path
  {
    hide List, HoldAll, Heads, AllNodes;
    if path != [] {
      HoldAllAt(i.kids, path[0]);
      TakeOut(i.kids[path[0]], path[1..]);
    }
  }

  /** A new part with the same node fits in the old place. */
  lemma {:induction false} PutIn(i: Item, path: Path, x: Item)
    requires IsPath(Tree(i), path) && HoldsExcept(i, path) && Holds(x) && x.node == ItemAt(i, path).node
    ensures Holds(Put(i, path, x)) && Put(i, path, x).node == i.node
    decreases path
  {
    hide List, HoldAll, Heads, AllNodes;
    if path != [] {
      var k := path[0];
      var y := Put(i.kids[k], path[1..], x);
      PutIn(i.kids[k], path[1..], x);
      var kids := i.kids[k := y];
      assert kids[..k] == i.kids[..k] && kids[k + 1..] == i.kids[k + 1..];
      HoldAllAt(kids, k);
      SameHeads(i.kids, k, y);
    }
  }

  /** The last step of a path. */
  lemma {:induction false} LastStep(i: Item, path: Path)
    requires IsPath(Tree(i), path) && path != []
    ensures var q, k := path[..|path| - 1], path[|path| - 1];
      IsPath(Tree(i), q) && k < |ItemAt(i, q).kids| && ItemAt(i, q).kids[k] == ItemAt(i, path)
    decreases path
  {
    if |path| > 1 {
      LastStep(i.kids[path[0]], path[1..]);
      assert path[1..][..|path| - 2] == path[..|path| - 1][1..];
    }
  }

  lemma KidLinks(i: Item, k: nat)
    requires Holds(i) && k < |i.kids|
    ensures var n := i.kids[k].node; n.parent == i.node && n.prev == Before(Heads(i.kids), k) && n.next == After(Heads(i.kids), k)
  {
    hide Heads, HoldAll;
    assert Heads(i.kids)[k] == i.kids[k].node;
  }

  /** The links of a part that is not the whole. */
  lemma LinksAt(i: Item, path: Path)
    requires IsPath(Tree(i), path) && Holds(i) && path != []
    ensures var q, k := path[..|path| - 1], path[|path| - 1];
      && IsPath(Tree(i), q) && k < |ItemAt(i, q).kids| && ItemAt(i, q).kids[k] == ItemAt(i, path)
      && ItemAt(i, path).node.parent == ItemAt(i, q).node
      && ItemAt(i, path).node.prev == Before(Heads(ItemAt(i, q).kids), k) && ItemAt(i, path).node.next == After(Heads(ItemAt(i, q).kids), k)
  {
    hide Holds, Heads;
    LastStep(i, path);
    TakeOut(i, path[..|path| - 1]);
    KidLinks(ItemAt(i, path[..|path| - 1]), path[|path| - 1]);
  }

  // ----- the whole tree -----

  /** The toplevel segment has no parent and no siblings. */
  predicate IsTop(n: Node)
    reads n`parent, n`prev, n`next
  {
    n.parent == null && n.prev == null && n.next == null
  }

  /** The list holds the invalid segments, in the order of the tree, and the hints are
      unset or in the tree. */
  ghost predicate Whole(e: Segments, root: Item)
    reads e, Nodes(root)
  {
    && e.root == root.node && IsTop(root.node) && Holds(root) && Apart([root]) && ValidRoot(Tree(root))
    && e.invalid == Unnamed([root])
    && Live(e.hint, Nodes(root)) && Live(e.hint2, Nodes(root))
  }

  lemma HoldsParts(p: Item)
    requires Holds(p)
    ensures List(p.node, Heads(p.kids)) && HoldAll(p.kids)
    ensures var n := p.node; n.context == p.context && n.startAt == p.startAt && n.endAt == p.endAt && n.isStart == p.isStart
    ensures |Heads(p.kids)| == |p.kids| && forall k :: 0 <= k < |p.kids| ==> Heads(p.kids)[k] == p.kids[k].node
  {
  }

  lemma HoldsKid(i: Item, k: nat)
    requires Holds(i) && k < |i.kids|
    ensures Holds(i.kids[k])
  {
    hide Holds, HoldAll;
    HoldsParts(i);
    HoldAllAt(i.kids, k);
  }

  lemma PathUnder(i: Item, n: nat, path: Path)
    requires n < |i.kids| && IsPath(Tree(i.kids[n]), path)
    ensures IsPath(Tree(i), [n] + path) && ItemAt(i, [n] + path) == ItemAt(i.kids[n], path)
    ensures forall x :: Put(i, [n] + path, x) == i.(kids := i.kids[n := Put(i.kids[n], path, x)])
  {
    assert ([n] + path)[1..] == path;
  }

  /** The list holds no segment with a context. */
  lemma {:induction false} ListedAreInvalid(row: seq<Item>)
    requires HoldAll(row)
    ensures forall x :: x in Unnamed(row) ==> x.context.None?
    decreases row
  {
    hide HoldAll, Holds, AllNodes, Below, Tops, List;
    if row != [] {
      HoldAllAt(row, 0);
      HoldsParts(row[0]);
      ListedAreInvalid(row[0].kids);
      ListedAreInvalid(row[1..]);
    }
  }

  /** What is known of a part of the whole tree. */
  lemma WholeAt(e: Segments, root: Item, q: Path)
    requires Whole(e, root) && IsPath(Tree(root), q)
    ensures var p := ItemAt(root, q);
      && HoldsExcept(root, q) && Holds(p) && Apart([p]) && p.node !in AllNodes(p.kids) && Nodes(root) == Outside(root, q) + Nodes(p) && Outside(root, q) !! Nodes(p)
      && e.invalid == UnnamedBefore(root, q) + Unnamed([p]) + UnnamedAfter(root, q)
      && (forall x :: x in e.invalid ==> x.context.None?)
      && (q != [] ==> root.node in Outside(root, q)) && (q == [] ==> p == root)
  {
    hide AllNodes, Apart, Unnamed, Holds, HoldsExcept, UnnamedBefore, UnnamedAfter, HoldAll;
    TakeOut(root, q);
    NodesAt(root, q);
    UnnamedAt(root, q);
    ApartSingle(ItemAt(root, q));
    HoldAllSingle(root);
    ListedAreInvalid([root]);
  }

  /** The part is replaced, and the rest is as it was. */
  lemma WholePut(e: Segments, root: Item, q: Path, x: Item)
    requires IsPath(Tree(root), q) && HoldsExcept(root, q) && Holds(x) && x.node == ItemAt(root, q).node && ValidRoot(Tree(Put(root, q, x)))
    requires Apart([root]) && Apart([x]) && Nodes(x) !! Outside(root, q) && e.root == root.node && IsTop(root.node)
    requires e.invalid == UnnamedBefore(root, q) + Unnamed([x]) + UnnamedAfter(root, q)
    requires Live(e.hint, Outside(root, q) + Nodes(x)) && Live(e.hint2, Outside(root, q) + Nodes(x))
    ensures Whole(e, Put(root, q, x))
  {
    hide AllNodes, Apart, Unnamed, Holds, HoldsExcept, UnnamedBefore, UnnamedAfter, ValidRoot;
    PutIn(root, q, x);
    PutNodes(root, q, x);
    PutUnnamed(root, q, x);
  }

  // ----- where a node is -----

  /** A node is in one place only. */
  lemma {:induction false} SameNode(i: Item, p: Path, q: Path)
    requires IsPath(Tree(i), p) && IsPath(Tree(i), q) && Apart([i]) && ItemAt(i, p).node == ItemAt(i, q).node
    ensures p == q
    decreases p
  {
    hide AllNodes, Apart;
    ApartSingle(i);
    if p == [] || q == [] {
      if p != [] { Deeper(i, p); }
      if q != [] { Deeper(i, q); }
    } else {
      SameFirst(i, p, q);
      SameNode(i.kids[p[0]], p[1..], q[1..]);
    }
  }

  lemma SameFirst(i: Item, p: Path, q: Path)
    requires IsPath(Tree(i), p) && IsPath(Tree(i), q) && Apart(i.kids) && p != [] && q != [] && ItemAt(i, p).node == ItemAt(i, q).node
    ensures p[0] == q[0] && Apart([i.kids[p[0]]])
  {
    hide AllNodes, Apart, Tree, Outside;
    TwoSteps(i, p);
    TwoSteps(i, q);
    NodesAt(i.kids[p[0]], p[1..]);
    NodesAt(i.kids[q[0]], q[1..]);
    KidsApart(i.kids, p[0], q[0]);
    KidsApart(i.kids, q[0], p[0]);
    ApartAt(i.kids, p[0]);
    ApartSingle(i.kids[p[0]]);
  }

  lemma TwoSteps(i: Item, p: Path)
    requires IsPath(Tree(i), p) && p != []
    ensures p[0] < |i.kids| && IsPath(Tree(i.kids[p[0]]), p[1..]) && ItemAt(i, p) == ItemAt(i.kids[p[0]], p[1..])
    ensures ItemAt(i, p).node in Nodes(ItemAt(i, p))
  {
  }

  lemma Deeper(i: Item, p: Path)
    requires IsPath(Tree(i), p) && p != []
    ensures ItemAt(i, p).node in AllNodes(i.kids)
  {
    NodesAt(i.kids[p[0]], p[1..]);
    KidBelow(i.kids, p[0]);
  }

  lemma KidsApart(row: seq<Item>, j: nat, k: nat)
    requires Apart(row) && j < |row| && k < |row|
    ensures j < k ==> Nodes(row[j]) !! Nodes(row[k])
  {
    hide AllNodes, Apart, Nodes;
    if j < k {
      ApartAt(row, j);
      assert row[j + 1..][k - j - 1] == row[k];
      KidBelow(row[j + 1..], k - j - 1);
    }
  }

  /** Up from a node to the child of `p` that it lies under, if it does. */
  method Climb(e: Segments, start: Node?, p: Node, ghost root: Item, ghost q: Path) returns (h: Node?, ghost k: nat)
    requires Whole(e, root) && Live(start, Nodes(root)) && IsPath(Tree(root), q) && ItemAt(root, q).node == p
    ensures h != null ==> k < |ItemAt(root, q).kids| && h == ItemAt(root, q).kids[k].node
  {
    hide Holds, AllNodes, Apart, Unnamed, ValidRoot, ItemAt;
    h, k := start, 0;
    ghost var path: Path := [];
    if h != null { path := FindPath(root, h); }
    while h != null && h.parent != p
      invariant Whole(e, root)
      invariant h != null ==> IsPath(Tree(root), path) && ItemAt(root, path).node == h
      decreases if h == null then 0 else |path| + 1
    {
      path := StepUp(e, root, path);
      h := h.parent;
    }
    if h != null {
      k := TopStep(e, root, path, q);
    }
  }

  lemma StepUp(e: Segments, root: Item, path: Path) returns (up: Path)
    requires Whole(e, root) && IsPath(Tree(root), path)
    ensures var n := ItemAt(root, path).node; n.parent != null ==> IsPath(Tree(root), up) && ItemAt(root, up).node == n.parent && |up| < |path|
  {
    hide Holds, AllNodes, Apart, Unnamed, ValidRoot;
    up := [];
    if path != [] {
      LinksAt(root, path);
      up := path[..|path| - 1];
    }
  }

  lemma TopStep(e: Segments, root: Item, path: Path, q: Path) returns (k: nat)
    requires Whole(e, root) && IsPath(Tree(root), path) && IsPath(Tree(root), q) && ItemAt(root, path).node.parent == ItemAt(root, q).node
    ensures k < |ItemAt(root, q).kids| && ItemAt(root, path).node == ItemAt(root, q).kids[k].node
  {
    hide Holds, AllNodes, Apart, Unnamed, ValidRoot;
    LinksAt(root, path);
    SameNode(root, path[..|path| - 1], q);
    k := path[|path| - 1];
  }
}
