/** Extending the segment that is being built on the heap (`segment_extend`). */
module NodeExtend {
  import opened SegmentTree
  import opened SegmentLinks
  import opened SegmentItems
  import opened SegmentState
  import opened NodeTree
  import opened NodeCreate
  import opened NodeGrow
  import opened NodeSplit
  import Spine

  function Later(i: Item, z: int): Item {
    i.(endAt := if i.endAt < z then z else i.endAt)
  }

  /** Every segment on the path reaches `z`. */
  function Extended(i: Item, path: Path, z: int): Item
    requires IsPath(Tree(i), path)
    decreases path
  {
    if path == [] then Later(i, z) else Later(i, z).(kids := i.kids[path[0] := Extended(i.kids[path[0]], path[1..], z)])
  }

  lemma {:induction false} ExtendedTree(i: Item, path: Path, z: int)
    requires IsPath(Tree(i), path)
    ensures Tree(Extended(i, path, z)) == Spine.Grow(Tree(i), path, z)
    decreases path
  {
    hide Trees;
    if path != [] {
      var k := path[0];
      ExtendedTree(i.kids[k], path[1..], z);
      TreesPut(i.kids, k, Extended(i.kids[k], path[1..], z));
    }
  }

  /** One segment first, and then its ancestors. */
  lemma {:induction false} ExtendedUp(i: Item, path: Path, z: int)
    requires IsPath(Tree(i), path) && path != []
    ensures var up, r := path[..|path| - 1], Put(i, path, Later(ItemAt(i, path), z));
      IsPath(Tree(r), up) && Extended(r, up, z) == Extended(i, path, z)
    decreases path
  {
    hide Trees;
    var k, r := path[0], Put(i, path, Later(ItemAt(i, path), z));
    TreesPut(i.kids, k, r.kids[k]);
    if |path| == 1 {
      assert path[..0] == [] && path[1..] == [];
    } else {
      ExtendedUp(i.kids[k], path[1..], z);
      assert path[..|path| - 1][1..] == path[1..][..|path| - 2];
      assert r.kids[k] == Put(i.kids[k], path[1..], Later(ItemAt(i.kids[k], path[1..]), z));
      assert Trees(r.kids)[k] == Tree(r.kids[k]);
      assert r.kids[k := Extended(r.kids[k], path[1..][..|path| - 2], z)] == i.kids[k := Extended(i.kids[k], path[1..], z)];
    }
  }

  /** Every segment on the way down reaches as far as the next. */
  predicate Nested(i: Item, path: Path)
    requires IsPath(Tree(i), path)
    decreases path
  {
    path != [] ==> i.kids[path[0]].endAt <= i.endAt && Nested(i.kids[path[0]], path[1..])
  }

  lemma {:induction false} NestedAt(i: Item, path: Path)
    requires Valid(Tree(i)) && IsPath(Tree(i), path)
    ensures Nested(i, path)
    decreases path
  {
    if path != [] {
      ChildBounds(Tree(i), path[0]);
      NestedAt(i.kids[path[0]], path[1..]);
    }
  }

  lemma {:induction false} NestedUp(i: Item, path: Path, x: Item)
    requires IsPath(Tree(i), path) && path != [] && Nested(i, path)
    ensures var up, r := path[..|path| - 1], Put(i, path, x); IsPath(Tree(r), up) && Nested(r, up)
    decreases path
  {
    hide Trees;
    var k, r := path[0], Put(i, path, x);
    TreesPut(i.kids, k, r.kids[k]);
    if |path| == 1 {
      assert path[..0] == [];
    } else {
      NestedUp(i.kids[k], path[1..], x);
      assert path[..|path| - 1][1..] == path[1..][..|path| - 2];
      assert Trees(r.kids)[k] == Tree(r.kids[k]);
    }
  }

  lemma {:induction false} ExtendedReaches(i: Item, path: Path, z: int)
    requires IsPath(Tree(i), path) && Nested(i, path) && ItemAt(i, path).endAt >= z
    ensures Extended(i, path, z) == i && i.endAt >= z
    decreases path
  {
    if path != [] { ExtendedReaches(i.kids[path[0]], path[1..], z); }
  }

  // ----- on the heap -----

  /** The same nodes, and the same list. */
  ghost predicate Alike(i: Item, j: Item) {
    i.node == j.node && Nodes(i) == Nodes(j) && Unnamed([i]) == Unnamed([j]) && Apart([j])
  }

  lemma PutAlike(i: Item, path: Path, z: int)
    requires IsPath(Tree(i), path) && Apart([i])
    ensures Alike(i, Put(i, path, Later(ItemAt(i, path), z)))
  {
    hide Apart, AllNodes, Unnamed, Outside, UnnamedBefore, UnnamedAfter;
    var x := ItemAt(i, path);
    ApartSingle(x);
    ApartSingle(Later(x, z));
    UnnamedSingle(x);
    UnnamedSingle(Later(x, z));
    NodesAt(i, path);
    PutNodes(i, path, Later(x, z));
    UnnamedAt(i, path);
    PutUnnamed(i, path, Later(x, z));
  }

  /** One segment is extended. */
  method ExtendStep(segment: Node, z: int, ghost r: Item, ghost p: Path) returns (up: Node?, ghost after: Item)
    requires IsPath(Tree(r), p) && Holds(r) && Apart([r]) && IsTop(r.node) && Nested(r, p) && ItemAt(r, p).node == segment && segment.endAt < z
    modifies segment`endAt
    ensures Holds(after) && Alike(r, after)
    ensures if up == null then after == Extended(r, p, z)
            else p != [] && IsPath(Tree(after), p[..|p| - 1]) && ItemAt(after, p[..|p| - 1]).node == up && Nested(after, p[..|p| - 1])
                 && Extended(after, p[..|p| - 1], z) == Extended(r, p, z)
  {
    hide Holds, HoldsExcept, Apart, AllNodes, Unnamed, ItemAt, Outside, Tree, Trees, Put, Extended, Nested, Alike;
    ghost var x := ItemAt(r, p);
    TakeOut(r, p);
    NodesAt(r, p);
    ApartSingle(x);
    HoldsParts(x);
    assert allocated(Nodes(r)) && allocated(Outside(r, p)) && allocated(Nodes(x));
    ExtendOne(segment, z - segment.endAt, x);
    after := Put(r, p, Later(x, z));
    PutIn(r, p, Later(x, z));
    PutAlike(r, p, z);
    up := segment.parent;
    StepDone(r, p, z, after);
  }

  lemma StepDone(r: Item, p: Path, z: int, after: Item)
    requires IsPath(Tree(r), p) && Nested(r, p) && after == Put(r, p, Later(ItemAt(r, p), z)) && Holds(after) && IsTop(r.node)
    ensures var up := ItemAt(r, p).node.parent;
      if up == null then after == Extended(r, p, z)
      else p != [] && IsPath(Tree(after), p[..|p| - 1]) && ItemAt(after, p[..|p| - 1]).node == up && Nested(after, p[..|p| - 1])
           && Extended(after, p[..|p| - 1], z) == Extended(r, p, z)
  {
    hide Holds, Tree, Trees, Nested;
    if p != [] {
      ExtendedUp(r, p, z);
      NestedUp(r, p, Later(ItemAt(r, p), z));
      PutTwice(r, p, Later(ItemAt(r, p), z), r);
      LinksAt(after, p);
    }
  }

  /** `segment_extend`: the loop stops at the first segment that reaches far enough, and
      all the segments above it do so too. */
  method Extend(e: Segments, state: Node, z: int, ghost root: Item, ghost q: Path)
    requires Whole(e, root) && IsPath(Tree(root), q) && ItemAt(root, q).node == state && ValidRoot(Spine.Grow(Tree(root), q, z))
    modifies Nodes(root)`endAt
    ensures Whole(e, Extended(root, q, z)) && Tree(Extended(root, q, z)) == Spine.Grow(Tree(root), q, z)
  {
    hide Holds, Apart, AllNodes, Unnamed, ItemAt, Tree, Trees, Extended, Nested, ValidRoot, Valid;
    ghost var r, p := root, q;
    StartExtend(e, root, q);
    ExtendedTree(root, q, z);
    var segment: Node? := state;
    assert allocated(Nodes(root));
    while segment != null && segment.endAt < z
      invariant IsPath(Tree(r), p) && Holds(r) && Alike(root, r) && IsTop(r.node)
      invariant segment != null ==> ItemAt(r, p).node == segment && Nested(r, p) && Extended(r, p, z) == Extended(root, q, z)
      invariant segment == null ==> r == Extended(root, q, z)
      decreases if segment == null then 0 else |p| + 1
    {
      ghost var after;
      NodesAt(r, p);
      segment, after := ExtendStep(segment, z, r, p);
      r, p := after, if segment == null then p else p[..|p| - 1];
      if segment == null { p := []; EmptyPath(r); }
    }
    if segment != null {
      TakeOut(r, p);
      HoldsParts(ItemAt(r, p));
      ExtendedReaches(r, p, z);
    }
    assert r == Extended(root, q, z);
  }

  lemma StartExtend(e: Segments, root: Item, q: Path)
    requires Whole(e, root) && IsPath(Tree(root), q)
    ensures Nested(root, q) && Alike(root, root) && Holds(root) && IsTop(root.node)
  {
    hide Holds, Apart, AllNodes, Unnamed, ItemAt, Nested;
    NestedAt(root, q);
  }

  lemma EmptyPath(i: Item)
    ensures IsPath(Tree(i), [])
  {
  }
}
