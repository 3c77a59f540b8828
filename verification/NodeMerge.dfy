/** Merging two adjacent segments on the heap (`segment_merge`), their parents first. */
module NodeMerge {
  import opened SegmentTree
  import opened SegmentMerge
  import opened SegmentLinks
  import opened SegmentItems
  import opened SegmentState
  import opened NodeTree

  /** Two siblings become one. */
  function Joined(f: Item, s: Item): Item {
    f.(endAt := s.endAt, kids := f.kids + s.kids)
  }

  function JoinKids(p: Item, k: nat): Item
    requires k + 1 < |p.kids|
  {
    p.(kids := p.kids[..k] + [Joined(p.kids[k], p.kids[k + 1])] + p.kids[k + 2..])
  }

  // ----- nodes and invalid segments of the parts -----

  lemma JoinedParts(f: Item, s: Item)
    requires f.context.Some? && s.context.Some?
    ensures var j := Joined(f, s);
      && Nodes(f) + Nodes(s) == Nodes(j) + {s.node} && Unnamed([j]) == Unnamed([f]) + Unnamed([s])
    ensures Apart([f] + [s]) ==>
      && Apart([Joined(f, s)]) && s.node !in Nodes(Joined(f, s)) && f.node != s.node
      && AllNodes(f.kids) !! AllNodes(s.kids) && f.node !in AllNodes(s.kids) && s.node !in AllNodes(f.kids)
      && f.node !in AllNodes(f.kids) && s.node !in AllNodes(s.kids)
  {
    hide AllNodes, Apart, Unnamed;
    var j := Joined(f, s);
    AllNodesAppend(f.kids, s.kids);
    ApartAppend(f.kids, s.kids);
    ApartAppend([f], [s]);
    UnnamedAppend(f.kids, s.kids);
    AllNodesSingle(f);
    AllNodesSingle(s);
    ApartSingle(f);
    ApartSingle(s);
    ApartSingle(j);
    UnnamedSingle(f);
    UnnamedSingle(s);
    UnnamedSingle(j);
  }

  /** Two neighbours in a row. */
  lemma TwoAt(row: seq<Item>, k: nat)
    requires k + 1 < |row|
    ensures row == row[..k] + ([row[k]] + [row[k + 1]]) + row[k + 2..]
  {
  }

  lemma JoinKidsParts(p: Item, k: nat)
    requires k + 1 < |p.kids| && p.kids[k].context.Some? && p.kids[k + 1].context.Some?
    ensures var q, s := JoinKids(p, k), p.kids[k + 1];
      && Nodes(p) == Nodes(q) + {s.node} && Unnamed([q]) == Unnamed([p])
      && (Apart([p]) ==> Apart([q]) && s.node !in Nodes(q) && Apart([p.kids[k]] + [s]))
  {
    hide AllNodes, Apart, Unnamed;
    var q, f, s := JoinKids(p, k), p.kids[k], p.kids[k + 1];
    var l, r := p.kids[..k], p.kids[k + 2..];
    JoinedParts(f, s);
    TwoAt(p.kids, k);
    ThreeParts(l, [f] + [s], r);
    ThreeParts(l, [Joined(f, s)], r);
    AllNodesAppend([f], [s]);
    AllNodesSingle(f);
    AllNodesSingle(s);
    AllNodesSingle(Joined(f, s));
    UnnamedAppend([f], [s]);
    ApartSingle(p);
    ApartSingle(q);
    UnnamedSingle(p);
    UnnamedSingle(q);
  }

  lemma ThreeParts(a: seq<Item>, b: seq<Item>, c: seq<Item>)
    ensures AllNodes(a + b + c) == AllNodes(a) + AllNodes(b) + AllNodes(c)
    ensures Unnamed(a + b + c) == Unnamed(a) + Unnamed(b) + Unnamed(c)
    ensures Apart(a + b + c) <==>
      (Apart(a) && Apart(b) && Apart(c) && AllNodes(a) !! AllNodes(b) && AllNodes(a) !! AllNodes(c) && AllNodes(b) !! AllNodes(c))
    ensures HoldAll(a + b + c) <==> HoldAll(a) && HoldAll(b) && HoldAll(c)
    ensures Heads(a + b + c) == Heads(a) + Heads(b) + Heads(c)
  {
    hide AllNodes, Unnamed, Apart, HoldAll, Heads;
    AllNodesAppend(a + b, c);
    AllNodesAppend(a, b);
    UnnamedAppend(a + b, c);
    UnnamedAppend(a, b);
    ApartAppend(a + b, c);
    ApartAppend(a, b);
    HoldAllAppend(a + b, c);
    HoldAllAppend(a, b);
    HeadsAppend(a + b, c);
    HeadsAppend(a, b);
  }

  // ----- the pointers -----

  lemma TwoHold(p: Item, k: nat)
    requires Holds(p) && Apart([p]) && k + 1 < |p.kids| && p.kids[k].context.Some? && p.kids[k + 1].context.Some?
    ensures var f, s := p.kids[k], p.kids[k + 1]; var cs := Heads(p.kids);
      && HoldAll(p.kids[..k]) && HoldAll(p.kids[k + 2..]) && Holds(f) && Holds(s) && List(p.node, cs)
      && cs[k] == f.node && cs[k + 1] == s.node && Among(cs) == Tops(p.kids) && p.node !in AllNodes(p.kids)
      && Apart([f] + [s]) && Nodes(f) <= AllNodes(p.kids) && Nodes(s) <= AllNodes(p.kids)
      && Tops(p.kids) !! AllNodes(f.kids) && Tops(p.kids) !! AllNodes(s.kids)
      && AllNodes(p.kids[..k]) !! Nodes(f) && AllNodes(p.kids[..k]) !! Nodes(s) && AllNodes(p.kids[k + 2..]) !! Nodes(f) && AllNodes(p.kids[k + 2..]) !! Nodes(s)
      && Tops(p.kids) !! Below(p.kids[..k]) && Tops(p.kids) !! Below(p.kids[k + 2..])
      && AllNodes(p.kids) == Tops(p.kids) + Below(p.kids) && AllNodes(p.kids[..k]) <= AllNodes(p.kids) && AllNodes(p.kids[k + 2..]) <= AllNodes(p.kids)
  {
    hide AllNodes, Apart, Tops, Below, HoldAll, Holds, Heads, List;
    var f, s, l, r := p.kids[k], p.kids[k + 1], p.kids[..k], p.kids[k + 2..];
    HoldsParts(p);
    ApartSingle(p);
    TwoAt(p.kids, k);
    ThreeParts(l, [f] + [s], r);
    HoldAllAppend([f], [s]);
    HoldAllSingle(f);
    HoldAllSingle(s);
    AllNodesAppend([f], [s]);
    AllNodesSingle(f);
    AllNodesSingle(s);
    ApartTops(p.kids);
    TopsAppend(l + ([f] + [s]), r);
    TopsAppend(l, [f] + [s]);
    KidBelow(p.kids, k);
    KidBelow(p.kids, k + 1);
    NodesParts(p.kids);
    TopsAreHeads(p.kids);
  }

  lemma HeadsJoined(row: seq<Item>, k: nat, j: Item)
    requires k + 1 < |row| && j.node == row[k].node
    ensures Heads(row[..k] + [j] + row[k + 2..]) == Heads(row)[..k + 1] + Heads(row)[k + 2..]
  {
    HeadsAppend(row[..k] + [j], row[k + 2..]);
    HeadsAppend(row[..k], [j]);
    HeadsParts(row, k);
    HeadsParts(row, k + 2);
    OneHead(j);
    TakeOne(Heads(row), k);
  }

  lemma OneHead(j: Item)
    ensures Heads([j]) == [j.node]
  {
  }

  lemma TakeOne<T>(s: seq<T>, k: nat)
    requires k < |s|
    ensures s[..k + 1] == s[..k] + [s[k]]
  {
  }

  /** What the links need to be joined. */
  lemma MergeReady(p: Item, k: nat)
    requires Holds(p) && Apart([p]) && k + 1 < |p.kids| && p.kids[k].context.Some? && p.kids[k + 1].context.Some?
    ensures var f, s := p.kids[k], p.kids[k + 1]; var cs, a, b := Heads(p.kids), Heads(f.kids), Heads(s.kids);
      && List(f.node, a) && List(s.node, b) && p.node !in a && p.node !in b && HoldAll(f.kids) && HoldAll(s.kids)
      && (forall x :: x in cs ==> x !in a && x !in b) && (forall x :: x in a ==> x !in b)
      && Among(a) == Tops(f.kids) && Among(b) == Tops(s.kids) && AllNodes(f.kids) == Tops(f.kids) + Below(f.kids) && AllNodes(s.kids) == Tops(s.kids) + Below(s.kids)
      && f.node !in AllNodes(f.kids) && f.node !in AllNodes(s.kids) && s.node !in AllNodes(s.kids) && s.node !in AllNodes(f.kids)
      && AllNodes(f.kids) !! AllNodes(s.kids) && Tops(f.kids) !! Below(f.kids) && Tops(s.kids) !! Below(s.kids)
  {
    hide AllNodes, Apart, Tops, Below, HoldAll, Holds, Heads, List;
    var f, s := p.kids[k], p.kids[k + 1];
    TwoHold(p, k);
    HoldsParts(f);
    HoldsParts(s);
    JoinedParts(f, s);
    NodesParts(f.kids);
    NodesParts(s.kids);
    TopsAreHeads(f.kids);
    TopsAreHeads(s.kids);
    ApartAppend([f], [s]);
    ApartSingle(f);
    ApartSingle(s);
    ApartTops(f.kids);
    ApartTops(s.kids);
    var cs, a, b := Heads(p.kids), Heads(f.kids), Heads(s.kids);
    assert Among(a) <= AllNodes(f.kids) && Among(b) <= AllNodes(s.kids);
    forall x | x in a ensures x in Among(a) && x !in b && x !in cs && x != p.node {
    }
    forall x | x in b ensures x in Among(b) && x !in cs && x != p.node {
    }
  }

  /** The second of two neighbours is taken out and its children are appended to those of
      the first, which now ends where the second did. */
  method MergeKids(first: Node, second: Node, ghost p: Item, ghost k: nat)
    requires Holds(p) && Apart([p]) && k + 1 < |p.kids| && p.kids[k].context.Some? && p.kids[k + 1].context.Some?
    requires first == p.kids[k].node && second == p.kids[k + 1].node
    modifies p.node`lastChild, AllNodes(p.kids)
    ensures Holds(JoinKids(p, k)) && Holds(p.kids[k + 1].(kids := []))
  {
    hide AllNodes, Apart, Tops, Below, HoldAll, Holds, Heads, List, Among;
    ghost var f, s, l, r := p.kids[k], p.kids[k + 1], p.kids[..k], p.kids[k + 2..];
    ghost var cs := Heads(p.kids);
    TwoHold(p, k);
    MergeReady(p, k);
    HoldsParts(p);
    HoldsParts(f);
    HoldsParts(s);
    NodesParts(l);
    NodesParts(r);
    KidLinks(p, k);
    assert allocated(AllNodes(p.kids)) && allocated(AllNodes(f.kids)) && allocated(AllNodes(s.kids)) && allocated(AllNodes(l)) && allocated(AllNodes(r));
    SegmentLinks.Merge(first, second, first.parent, cs, k, Heads(f.kids), Heads(s.kids));
    AmongLess(cs, k);
    AmongMore(Heads(f.kids), Heads(s.kids));
    assert allocated(Among(cs[..k + 1] + cs[k + 2..])) && allocated(Among(Heads(f.kids) + Heads(s.kids)));
    first.endAt := second.endAt;
    JoinedHolds(p, k);
  }

  lemma AmongLess(cs: seq<Node>, k: nat)
    requires k + 1 < |cs|
    ensures Among(cs[..k + 1] + cs[k + 2..]) <= Among(cs)
  {
  }

  lemma AmongMore(a: seq<Node>, b: seq<Node>)
    ensures Among(a + b) == Among(a) + Among(b)
  {
  }

  lemma JoinedHolds(p: Item, k: nat)
    requires k + 1 < |p.kids| && HoldAll(p.kids[..k]) && HoldAll(p.kids[k + 2..]) && HoldAll(p.kids[k].kids) && HoldAll(p.kids[k + 1].kids)
    requires List(p.node, Heads(p.kids)[..k + 1] + Heads(p.kids)[k + 2..])
    requires List(p.kids[k].node, Heads(p.kids[k].kids) + Heads(p.kids[k + 1].kids)) && List(p.kids[k + 1].node, [])
    requires var n := p.node; n.context == p.context && n.startAt == p.startAt && n.endAt == p.endAt && n.isStart == p.isStart
    requires var f, s := p.kids[k], p.kids[k + 1]; var n := f.node; n.context == f.context && n.startAt == f.startAt && n.endAt == s.endAt && n.isStart == f.isStart
    requires var s := p.kids[k + 1]; var n := s.node; n.context == s.context && n.startAt == s.startAt && n.endAt == s.endAt && n.isStart == s.isStart
    ensures Holds(JoinKids(p, k)) && Holds(p.kids[k + 1].(kids := []))
  {
    hide HoldAll, List, Heads;
    var f, s, l, r := p.kids[k], p.kids[k + 1], p.kids[..k], p.kids[k + 2..];
    HoldAllAppend(f.kids, s.kids);
    HeadsAppend(f.kids, s.kids);
    assert Holds(Joined(f, s));
    HoldAllSingle(Joined(f, s));
    ThreeParts(l, [Joined(f, s)], r);
    HeadsJoined(p.kids, k, Joined(f, s));
    Childless();
  }

  lemma Childless()
    ensures Heads([]) == [] && HoldAll([])
  {
  }

  // ----- in the whole tree -----

  /** `segment_merge` for two siblings, after their parents were merged. */
  method MergeStep(e: Segments, first: Node, second: Node, ghost root: Item, ghost q: Path, ghost k: nat)
    requires Whole(e, root) && IsPath(Tree(root), q) && k + 1 < |ItemAt(root, q).kids|
    requires var p := ItemAt(root, q);
      && p.kids[k].context.Some? && p.kids[k + 1].context.Some? && first == p.kids[k].node && second == p.kids[k + 1].node
      && ValidRoot(Tree(Put(root, q, JoinKids(p, k))))
    modifies e`invalid, e`hint, e`hint2, Nodes(root)
    ensures Whole(e, Put(root, q, JoinKids(ItemAt(root, q), k))) && Nodes(Put(root, q, JoinKids(ItemAt(root, q), k))) <= Nodes(root)
  {
    hide AllNodes, Apart, Unnamed, Holds, HoldsExcept, UnnamedBefore, UnnamedAfter, ValidRoot, ItemAt, Put, Outside, JoinKids, HoldAll;
    ghost var p, j := ItemAt(root, q), JoinKids(ItemAt(root, q), k);
    ghost var gone := p.kids[k + 1].(kids := []);
    WholeAt(e, root, q);
    JoinKidsParts(p, k);
    SecondGone(p, k, gone);
    assert allocated(Nodes(root)) && allocated(Outside(root, q));
    MergeKids(first, second, p, k);
    assert allocated(Nodes(j)) && e.invalid == e.invalid + Unnamed([gone]) + [];
    e.Destroy(second, gone, e.invalid, []);
    WholePut(e, root, q, j);
    PutNodes(root, q, j);
  }

  lemma SecondGone(p: Item, k: nat, gone: Item)
    requires k + 1 < |p.kids| && gone == p.kids[k + 1].(kids := []) && gone.context.Some? && Holds(p)
    ensures Unnamed([gone]) == [] && Nodes(gone) == {p.kids[k + 1].node} && Apart([gone]) && JoinKids(p, k).node == p.node
    ensures p.kids[k + 1].node.context.Some? && p.kids[k + 1].node in Nodes(p) && p.kids[k + 1].node in AllNodes(p.kids)
  {
    hide List, Heads, HoldAll;
    KidBelow(p.kids, k + 1);
    HoldAllAt(p.kids, k + 1);
    HoldsParts(p.kids[k + 1]);
  }

  // ----- all levels -----

  /** The last segment `d` levels down. */
  function LastItem(i: Item, d: nat): Item
    decreases d
  {
    if d == 0 || i.kids == [] then i else LastItem(i.kids[|i.kids| - 1], d - 1)
  }

  function FirstItem(i: Item, d: nat): Item
    decreases d
  {
    if d == 0 || i.kids == [] then i else FirstItem(i.kids[0], d - 1)
  }

  function LastPath(i: Item, d: nat): Path
    decreases d
  {
    if d == 0 || i.kids == [] then [] else [|i.kids| - 1] + LastPath(i.kids[|i.kids| - 1], d - 1)
  }

  function JoinItem(l: Item, r: Item, d: nat): Item
    requires Joinable(Tree(l), Tree(r), d)
    decreases d
  {
    if d == 0 then Joined(l, r)
    else
      l.(endAt := r.endAt,
         kids := l.kids[..|l.kids| - 1] + [JoinItem(l.kids[|l.kids| - 1], r.kids[0], d - 1)] + r.kids[1..])
  }

  function MergedItem(root: Item, i: nat, d: nat): Item
    requires i + 1 < |root.kids| && Joinable(Tree(root.kids[i]), Tree(root.kids[i + 1]), d)
  {
    root.(kids := root.kids[..i] + [JoinItem(root.kids[i], root.kids[i + 1], d)] + root.kids[i + 2..])
  }

  lemma {:induction false} JoinTree(l: Item, r: Item, d: nat)
    requires Joinable(Tree(l), Tree(r), d)
    ensures Tree(JoinItem(l, r, d)) == Join(Tree(l), Tree(r), d)
    decreases d
  {
    if d == 0 {
      TreesAppend(l.kids, r.kids);
    } else {
      var n := |l.kids| - 1;
      JoinTree(l.kids[n], r.kids[0], d - 1);
      KidTrees(l.kids, n, JoinItem(l.kids[n], r.kids[0], d - 1), r.kids, 1);
    }
  }

  lemma KidTrees(a: seq<Item>, n: nat, j: Item, b: seq<Item>, m: nat)
    requires n <= |a| && m <= |b|
    ensures Trees(a[..n] + [j] + b[m..]) == Trees(a)[..n] + [Tree(j)] + Trees(b)[m..]
  {
    hide Trees, Tree;
    TreesParts(a, n);
    TreesParts(b, m);
    TreesAppend(a[..n] + [j], b[m..]);
    TreesAppend(a[..n], [j]);
    assert Trees([j]) == [Tree(j)];
  }

  lemma MergedTree(root: Item, i: nat, d: nat)
    requires i + 1 < |root.kids| && Joinable(Tree(root.kids[i]), Tree(root.kids[i + 1]), d)
    ensures Tree(MergedItem(root, i, d)) == Merged(Tree(root), i, d)
  {
    hide Join, JoinItem;
    JoinTree(root.kids[i], root.kids[i + 1], d);
    KidTrees(root.kids, i, JoinItem(root.kids[i], root.kids[i + 1], d), root.kids, i + 2);
  }

  /** The two segments that are joined last. */
  lemma {:induction false} JoinedAt(l: Item, r: Item, d: nat)
    requires Joinable(Tree(l), Tree(r), d)
    ensures IsPath(Tree(JoinItem(l, r, d)), LastPath(l, d))
    ensures ItemAt(JoinItem(l, r, d), LastPath(l, d)) == Joined(LastItem(l, d), FirstItem(r, d))
    ensures LastItem(l, d).context.Some? && LastItem(l, d).context == FirstItem(r, d).context
    decreases d
  {
    hide JoinItem, LastPath, LastItem, FirstItem, ItemAt, Joinable;
    if d == 0 {
      JoinedHere(l, r);
    } else {
      JoinedDown(l, r, d);
      JoinedAt(l.kids[|l.kids| - 1], r.kids[0], d - 1);
    }
  }

  lemma JoinedHere(l: Item, r: Item)
    requires Joinable(Tree(l), Tree(r), 0)
    ensures LastPath(l, 0) == [] && JoinItem(l, r, 0) == Joined(l, r) && LastItem(l, 0) == l && FirstItem(r, 0) == r
    ensures ItemAt(JoinItem(l, r, 0), []) == Joined(l, r) && l.context.Some? && l.context == r.context
  {
  }

  /** One level down. */
  lemma JoinedDown(l: Item, r: Item, d: nat)
    requires Joinable(Tree(l), Tree(r), d) && d > 0
    ensures l.kids != [] && r.kids != []
    ensures var n := |l.kids| - 1; var x, y := l.kids[n], r.kids[0];
      && Joinable(Tree(x), Tree(y), d - 1) && LastPath(l, d) == [n] + LastPath(x, d - 1)
      && LastItem(l, d) == LastItem(x, d - 1) && FirstItem(r, d) == FirstItem(y, d - 1)
      && (IsPath(Tree(JoinItem(x, y, d - 1)), LastPath(x, d - 1)) ==>
            && IsPath(Tree(JoinItem(l, r, d)), LastPath(l, d))
            && ItemAt(JoinItem(l, r, d), LastPath(l, d)) == ItemAt(JoinItem(x, y, d - 1), LastPath(x, d - 1)))
  {
    var n := |l.kids| - 1;
    assert JoinItem(l, r, d).kids[n] == JoinItem(l.kids[n], r.kids[0], d - 1);
  }

  lemma {:induction false} LessJoinable(l: Segment, r: Segment, d: nat)
    requires Joinable(l, r, d) && d > 0
    ensures Joinable(l, r, d - 1)
    decreases d
  {
    if d > 1 { LessJoinable(l.children[|l.children| - 1], r.children[0], d - 1); }
  }

  /** One level more. */
  lemma {:induction false} JoinDeeper(l: Item, r: Item, d: nat)
    requires Joinable(Tree(l), Tree(r), d + 1) && Joinable(Tree(l), Tree(r), d)
    ensures var p, k := Joined(LastItem(l, d), FirstItem(r, d)), |LastItem(l, d).kids| - 1;
      && k >= 0 && k + 1 < |p.kids| && p.kids[k] == LastItem(l, d + 1) && p.kids[k + 1] == FirstItem(r, d + 1)
      && IsPath(Tree(JoinItem(l, r, d)), LastPath(l, d))
      && Put(JoinItem(l, r, d), LastPath(l, d), JoinKids(p, k)) == JoinItem(l, r, d + 1)
    decreases d
  {
    hide JoinKids, JoinItem, Joined, LastItem, FirstItem, LastPath, Tree, Trees, Put;
    Unfolds(l, r, d + 1);
    if d == 0 {
      FirstStep(l, r);
    } else {
      Unfolds(l, r, d);
      JoinDeeper(l.kids[|l.kids| - 1], r.kids[0], d - 1);
      DeeperStep(l, r, d);
    }
  }

  lemma FirstStep(l: Item, r: Item)
    requires Joinable(Tree(l), Tree(r), 1) && Joinable(Tree(l), Tree(r), 0) && l.kids != [] && r.kids != []
    ensures var p, k := Joined(LastItem(l, 0), FirstItem(r, 0)), |LastItem(l, 0).kids| - 1;
      && k >= 0 && k + 1 < |p.kids| && p.kids[k] == LastItem(l, 1) && p.kids[k + 1] == FirstItem(r, 1)
      && LastPath(l, 0) == [] && Put(JoinItem(l, r, 0), [], JoinKids(p, k)) == JoinItem(l, r, 1)
  {
    hide Tree, Trees;
    JoinsLast(l, r);
  }

  lemma DeeperStep(l: Item, r: Item, d: nat)
    requires d > 0 && Joinable(Tree(l), Tree(r), d + 1) && Joinable(Tree(l), Tree(r), d) && l.kids != [] && r.kids != []
    requires Joinable(Tree(l.kids[|l.kids| - 1]), Tree(r.kids[0]), d) && Joinable(Tree(l.kids[|l.kids| - 1]), Tree(r.kids[0]), d - 1)
    requires var x, y := l.kids[|l.kids| - 1], r.kids[0]; var p, k := Joined(LastItem(x, d - 1), FirstItem(y, d - 1)), |LastItem(x, d - 1).kids| - 1;
      && k >= 0 && k + 1 < |p.kids| && p.kids[k] == LastItem(x, d) && p.kids[k + 1] == FirstItem(y, d)
      && IsPath(Tree(JoinItem(x, y, d - 1)), LastPath(x, d - 1))
      && Put(JoinItem(x, y, d - 1), LastPath(x, d - 1), JoinKids(p, k)) == JoinItem(x, y, d)
    ensures var p, k := Joined(LastItem(l, d), FirstItem(r, d)), |LastItem(l, d).kids| - 1;
      && k >= 0 && k + 1 < |p.kids| && p.kids[k] == LastItem(l, d + 1) && p.kids[k + 1] == FirstItem(r, d + 1)
      && IsPath(Tree(JoinItem(l, r, d)), LastPath(l, d))
      && Put(JoinItem(l, r, d), LastPath(l, d), JoinKids(p, k)) == JoinItem(l, r, d + 1)
  {
    hide JoinKids, Tree, Trees, JoinItem;
    Unfolds(l, r, d);
    Unfolds(l, r, d + 1);
    var x, y, n := l.kids[|l.kids| - 1], r.kids[0], |l.kids| - 1;
    var j := JoinItem(l, r, d);
    Replaces(l.kids[..n], JoinItem(x, y, d - 1), r.kids[1..], JoinItem(x, y, d));
    PathUnder(j, n, LastPath(x, d - 1));
  }

  lemma Unfolds(l: Item, r: Item, d: nat)
    requires d > 0 && Joinable(Tree(l), Tree(r), d)
    ensures l.kids != [] && r.kids != [] && Joinable(Tree(l.kids[|l.kids| - 1]), Tree(r.kids[0]), d - 1)
    ensures JoinItem(l, r, d) == l.(endAt := r.endAt, kids := l.kids[..|l.kids| - 1] + [JoinItem(l.kids[|l.kids| - 1], r.kids[0], d - 1)] + r.kids[1..])
    ensures LastPath(l, d) == [|l.kids| - 1] + LastPath(l.kids[|l.kids| - 1], d - 1)
    ensures LastItem(l, d) == LastItem(l.kids[|l.kids| - 1], d - 1) && FirstItem(r, d) == FirstItem(r.kids[0], d - 1)
  {
  }

  lemma JoinsLast(l: Item, r: Item)
    requires l.kids != [] && r.kids != [] && Joinable(Tree(l), Tree(r), 1)
    ensures var p, k := Joined(l, r), |l.kids| - 1;
      p.kids[k] == l.kids[k] && p.kids[k + 1] == r.kids[0] && JoinKids(p, k) == JoinItem(l, r, 1)
  {
    var k := |l.kids| - 1;
    assert (l.kids + r.kids)[..k] == l.kids[..k] && (l.kids + r.kids)[k + 2..] == r.kids[1..];
  }

  lemma Replaces<T>(a: seq<T>, x: T, b: seq<T>, y: T)
    ensures (a + [x] + b)[|a| := y] == a + [y] + b && (a + [x] + b)[|a|] == x
  {
  }

  // ----- the parents of the two -----

  /** The `d`-th last and first segments have the `d - 1`-th as their parents. */
  lemma {:induction false} LastParent(i: Item, r: Item, d: nat)
    requires Holds(i) && Holds(r) && d > 0 && Joinable(Tree(i), Tree(r), d)
    ensures LastItem(i, d).node.parent == LastItem(i, d - 1).node && FirstItem(r, d).node.parent == FirstItem(r, d - 1).node
    ensures LastItem(i, d - 1).node in Nodes(i) && FirstItem(r, d - 1).node in Nodes(r)
    ensures LastItem(i, d).node in Nodes(i) && FirstItem(r, d).node in Nodes(r)
    decreases d
  {
    hide Holds, AllNodes, JoinItem;
    Unfolds(i, r, d);
    var n := |i.kids| - 1;
    KidLinks(i, n);
    KidLinks(r, 0);
    KidBelow(i.kids, n);
    KidBelow(r.kids, 0);
    if d > 1 {
      HoldsKid(i, n);
      HoldsKid(r, 0);
      LastParent(i.kids[n], r.kids[0], d - 1);
      LessJoinable(Tree(i), Tree(r), d);
      Unfolds(i, r, d - 1);
    } else {
      Shallow(i, r);
    }
  }

  lemma Shallow(i: Item, r: Item)
    requires i.kids != [] && r.kids != []
    ensures LastItem(i, 0) == i && FirstItem(r, 0) == r && LastItem(i, 1) == i.kids[|i.kids| - 1] && FirstItem(r, 1) == r.kids[0]
  {
  }

  lemma MergeParents(e: Segments, first: Node, second: Node, root: Item, i: nat, d: nat)
    requires Whole(e, root) && i + 1 < |root.kids| && Joinable(Tree(root.kids[i]), Tree(root.kids[i + 1]), d)
    requires first == LastItem(root.kids[i], d).node && second == FirstItem(root.kids[i + 1], d).node
    ensures ValidRoot(Tree(root))
    ensures d == 0 ==> first.parent == second.parent
    ensures d > 0 ==>
      && Joinable(Tree(root.kids[i]), Tree(root.kids[i + 1]), d - 1)
      && first.parent == LastItem(root.kids[i], d - 1).node && second.parent == FirstItem(root.kids[i + 1], d - 1).node && first.parent != second.parent
  {
    hide Holds, AllNodes, Apart, JoinItem, ValidRoot;
    KidLinks(root, i);
    KidLinks(root, i + 1);
    if d > 0 {
      HoldsKid(root, i);
      HoldsKid(root, i + 1);
      LastParent(root.kids[i], root.kids[i + 1], d);
      LessJoinable(Tree(root.kids[i]), Tree(root.kids[i + 1]), d);
      ApartSingle(root);
      ApartAt(root.kids, i);
      KidBelow(root.kids[i + 1..], 0);
    } else {
      assert LastItem(root.kids[i], 0) == root.kids[i] && FirstItem(root.kids[i + 1], 0) == root.kids[i + 1];
    }
  }

  lemma TopMerge(root: Item, i: nat)
    requires i + 1 < |root.kids| && Joinable(Tree(root.kids[i]), Tree(root.kids[i + 1]), 0)
    ensures IsPath(Tree(root), []) && ItemAt(root, []) == root && Put(root, [], JoinKids(root, i)) == MergedItem(root, i, 0)
    ensures root.kids[i].context.Some? && root.kids[i + 1].context.Some?
    ensures LastItem(root.kids[i], 0) == root.kids[i] && FirstItem(root.kids[i + 1], 0) == root.kids[i + 1]
  {
  }

  /** The toplevel segment with two children merged down to one level, and the next. */
  lemma DeeperMerge(root: Item, i: nat, d: nat)
    requires i + 1 < |root.kids| && Joinable(Tree(root.kids[i]), Tree(root.kids[i + 1]), d + 1) && Joinable(Tree(root.kids[i]), Tree(root.kids[i + 1]), d)
    ensures var q, m, k := [i] + LastPath(root.kids[i], d), MergedItem(root, i, d), |LastItem(root.kids[i], d).kids| - 1;
      && IsPath(Tree(m), q) && k >= 0 && k + 1 < |ItemAt(m, q).kids|
      && ItemAt(m, q).kids[k] == LastItem(root.kids[i], d + 1) && ItemAt(m, q).kids[k + 1] == FirstItem(root.kids[i + 1], d + 1)
      && ItemAt(m, q).kids[k].context.Some? && ItemAt(m, q).kids[k + 1].context.Some?
      && Put(m, q, JoinKids(ItemAt(m, q), k)) == MergedItem(root, i, d + 1)
  {
    hide JoinItem, JoinKids, Joined, LastItem, FirstItem, LastPath, Tree, Trees;
    var l, r := root.kids[i], root.kids[i + 1];
    var m := MergedItem(root, i, d);
    JoinedAt(l, r, d);
    JoinedAt(l, r, d + 1);
    JoinDeeper(l, r, d);
    Replaces(root.kids[..i], JoinItem(l, r, d), root.kids[i + 2..], JoinItem(l, r, d + 1));
    PathUnder(m, i, LastPath(l, d));
  }

  lemma MergedIsValid(root: Item, i: nat, d: nat)
    requires i + 1 < |root.kids| && Joinable(Tree(root.kids[i]), Tree(root.kids[i + 1]), d) && ValidRoot(Tree(root))
    ensures ValidRoot(Tree(MergedItem(root, i, d)))
  {
    MergedTree(root, i, d);
    MergedShape(Tree(root), i, d);
  }

  /** `segment_merge`: the list and the hints stay right, and the tree becomes the value
      that merging gives. */
  method Merge(e: Segments, first: Node, second: Node, ghost root: Item, ghost i: nat, ghost d: nat)
    requires Whole(e, root) && i + 1 < |root.kids| && Joinable(Tree(root.kids[i]), Tree(root.kids[i + 1]), d)
    requires first == LastItem(root.kids[i], d).node && second == FirstItem(root.kids[i + 1], d).node
    modifies e`invalid, e`hint, e`hint2, Nodes(root)
    ensures Whole(e, MergedItem(root, i, d)) && Tree(MergedItem(root, i, d)) == Merged(Tree(root), i, d)
    ensures Nodes(MergedItem(root, i, d)) <= Nodes(root)
    decreases d
  {
    hide Whole, JoinItem, Holds, AllNodes, Apart, LastItem, FirstItem, LastPath, JoinKids, Joined, ItemAt, Put, MergedItem, Tree, Trees, Merged, ValidRoot, Joinable;
    MergedTree(root, i, d);
    MergeParents(e, first, second, root, i, d);
    if first.parent != second.parent {
      Merge(e, first.parent, second.parent, root, i, d - 1);
      DeeperMerge(root, i, d - 1);
      MergedIsValid(root, i, d);
      ghost var q := [i] + LastPath(root.kids[i], d - 1);
      MergeStep(e, first, second, MergedItem(root, i, d - 1), q, |LastItem(root.kids[i], d - 1).kids| - 1);
    } else {
      TopMerge(root, i);
      MergedIsValid(root, i, d);
      MergeStep(e, first, second, root, [], i);
    }
  }
}
