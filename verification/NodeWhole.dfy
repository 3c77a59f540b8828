/** The life of the tree on the heap: attaching and detaching a buffer, and what the list
    of invalid segments holds in between. */
module NodeWhole {
  import opened Wrappers
  import opened Contexts
  import opened SegmentTree
  import opened InvalidList
  import opened SegmentLinks
  import opened SegmentItems
  import opened SegmentState
  import opened NodeTree

  /** Attaching a buffer: the toplevel segment is empty. */
  method Attach() returns (e: Segments, ghost root: Item)
    ensures fresh(e) && fresh(Nodes(root)) && Whole(e, root) && Tree(root) == Segment(Some(Root), 0, 0, true, [])
  {
    e := new Segments();
    var n := new Node(null, Some(Root), 0, 0, true);
    e.root := n;
    root := Item(n, Some(Root), 0, 0, true, []);
    assert ValidRoot(Tree(root));
  }

  /** Detaching it: nothing is left in the list, and no hint. */
  method Detach(e: Segments, ghost root: Item)
    requires Whole(e, root)
    modifies e, Nodes(root)`children, Nodes(root)`lastChild
    ensures e.root == null && e.invalid == [] && e.hint == null && e.hint2 == null
  {
    hide Apart, AllNodes, HoldAll, Holds, Unnamed, ValidRoot;
    assert [] + Unnamed([root]) + [] == Unnamed([root]);
    e.Destroy(e.root, root, [], []);
    e.root := null;
  }

  // ----- the list and the tree -----

  /** The nodes at the paths. */
  ghost predicate AreAt(i: Item, nodes: seq<Node>, paths: seq<Path>) {
    && |nodes| == |paths|
    && forall j :: 0 <= j < |paths| ==> IsPath(Tree(i), paths[j]) && ItemAt(i, paths[j]).node == nodes[j]
  }

  lemma {:induction false} UnnamedAreAt(i: Item)
    requires Valid(Tree(i))
    ensures AreAt(i, Unnamed([i]), InvalidPaths(Tree(i)))
    decreases i, 1
  {
    hide Unnamed, Trees, KidPaths, Valid, ValidForest, AllNodes;
    UnnamedSingle(i);
    KidsValid(i);
    if i.context.Some? {
      KidsAreAt(i, 0);
      assert i.kids[0..] == i.kids;
    } else {
      NoneUnnamed();
    }
  }

  lemma NoneUnnamed()
    ensures Unnamed([]) == []
  {
  }

  lemma KidsValid(i: Item)
    requires Valid(Tree(i))
    ensures |Trees(i.kids)| == |i.kids| && (forall k :: 0 <= k < |i.kids| ==> Trees(i.kids)[k] == Tree(i.kids[k]) && Valid(Tree(i.kids[k])))
    ensures i.context.None? ==> i.kids == []
  {
    ForestBounds(Trees(i.kids), i.startAt, i.endAt, i.context);
  }

  lemma {:induction false} KidsAreAt(i: Item, n: nat)
    requires n <= |i.kids| && |Trees(i.kids)| == |i.kids|
    requires forall k :: 0 <= k < |i.kids| ==> Trees(i.kids)[k] == Tree(i.kids[k]) && Valid(Tree(i.kids[k]))
    ensures AreAt(i, Unnamed(i.kids[n..]), KidPaths(Trees(i.kids), n))
    decreases i, 0, |i.kids| - n
  {
    hide Unnamed, Trees, Valid, ValidForest, AllNodes;
    if n == |i.kids| {
      NoneUnnamed();
    } else {
      var ps := InvalidPaths(Tree(i.kids[n]));
      UnnamedAreAt(i.kids[n]);
      KidsAreAt(i, n + 1);
      assert i.kids[n..] == [i.kids[n]] + i.kids[n + 1..];
      UnnamedAppend([i.kids[n]], i.kids[n + 1..]);
      forall j | 0 <= j < |ps| ensures IsPath(Tree(i), Under(n, ps)[j]) && ItemAt(i, Under(n, ps)[j]).node == Unnamed([i.kids[n]])[j] {
        PathUnder(i, n, ps[j]);
      }
    }
  }

  /** The list holds exactly the segments without a context, in the order of the tree,
      and as no two of them overlap it is sorted. */
  lemma ListIsPaths(e: Segments, root: Item)
    requires Whole(e, root)
    ensures AreAt(root, e.invalid, InvalidPaths(Tree(root)))
  {
    hide Apart, AllNodes, HoldAll, Holds, Unnamed, InvalidPaths;
    UnnamedAreAt(root);
  }
}
