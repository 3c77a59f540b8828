/** `insert_range` on the heap: the list and the hints stay right, and the tree becomes the
    value that inserting gives. */
module NodeRange {
  import opened Wrappers
  import opened Contexts
  import opened SegmentTree
  import opened SegmentInsert
  import opened SegmentCreate
  import opened InvalidList
  import opened Labelling
  import opened SegmentLinks
  import opened SegmentItems
  import opened SegmentState
  import opened NodeTree
  import opened NodeErase
  import opened NodeCreate
  import opened NodeShift
  import opened NodeGrow
  import opened NodeInsert
  import opened NodeSplit
  import opened NodeDelete
  import TreeUpdate

  // ----- the insertion as a small change and an extension -----

  lemma LinkSlices(cs: seq<Segment>, k: nat, x: Segment)
    requires k <= |cs|
    ensures var ds := SegmentCreate.Link(cs, k, x); |ds| == |cs| + 1 && ds[..k] == cs[..k] && ds[k] == x && ds[k + 1..] == cs[k..]
  {
  }

  lemma ContainerGrows(p: Item, k: nat, x: Node, offset: int, length: nat)
    requires Tree(p).IsContainer() && k <= |p.kids|
    ensures var g := WithKid(p, k, Gap(x, offset));
      IsPath(Tree(g), [k]) && InsertHere(Tree(p), k, offset, length) == [Grow(Tree(g), [k], length)]
  {
    hide ShiftAll, Trees, Tree, WithKid, SegmentCreate.Link, Grow, InsertHere, IsPath;
    var gap := InvalidSegment(offset, offset);
    LinkedParts(p, k, Gap(x, offset));
    GapTree(x, offset);
    TreeParts(p);
    ContainerLinked(Tree(p), k, gap, offset, length);
  }

  lemma TreeParts(p: Item)
    ensures Tree(p).children == Trees(p.kids) && |Trees(p.kids)| == |p.kids|
  {
  }

  lemma ContainerLinked(s: Segment, k: nat, gap: Segment, offset: int, length: nat)
    requires s.IsContainer() && k <= |s.children| && gap == InvalidSegment(offset, offset)
    ensures var g := s.(children := SegmentCreate.Link(s.children, k, gap));
      IsPath(g, [k]) && InsertHere(s, k, offset, length) == [Grow(g, [k], length)]
  {
    hide ShiftAll, SegmentCreate.Link;
    LinkSlices(s.children, k, gap);
    var g := s.(children := SegmentCreate.Link(s.children, k, gap));
    assert [k] + [] == [k];
    GrowUnderSegment(g, k, [], length);
    assert g.children[..k] == s.children[..k] && g.children[k + 1..] == s.children[k..];
  }

  lemma GrowUnderSegment(s: Segment, j: nat, path: Path, length: int)
    requires j < |s.children| && IsPath(s.children[j], path)
    ensures IsPath(s, [j] + path)
    ensures Grow(s, [j] + path, length) ==
      s.(endAt := s.endAt + length, children := s.children[..j] + [Grow(s.children[j], path, length)] + ShiftAll(s.children[j + 1..], length))
  {
    assert ([j] + path)[1..] == path;
  }

  lemma InsertUnder(s: Segment, j: nat, path: Path, k: nat, offset: int, length: nat)
    requires j < |s.children| && IsPath(s.children[j], path) && k <= |At(s.children[j], path).children|
    ensures IsPath(s, [j] + path) && At(s, [j] + path) == At(s.children[j], path)
    ensures InsertAlong(s, [j] + path, k, offset, length) ==
      [s.(endAt := s.endAt + length, children := s.children[..j] + InsertAlong(s.children[j], path, k, offset, length) + ShiftAll(s.children[j + 1..], length))]
  {
    assert ([j] + path)[1..] == path;
  }

  lemma SimpleGrows(p: Item, length: nat, k: nat, offset: int)
    requires Tree(p).IsSimple() && !(p.startAt < offset < p.endAt) && k <= |p.kids|
    ensures InsertHere(Tree(p), k, offset, length) == [Grow(Tree(Voided(p)), [], length)]
  {
  }

  lemma HalvedGrows(p: Item, j: nat, k: nat, offset: int, length: nat, x: Node, r: Node)
    requires j < |p.kids| && Tree(p.kids[j]).IsSimple() && p.kids[j].startAt < offset < p.kids[j].endAt && p.kids[j].kids == [] && k == 0
    ensures var h := Halved(p, j, offset, x, r);
      && IsPath(Tree(h), [j + 1]) && IsPath(Tree(p), [j]) && k <= |At(Tree(p), [j]).children|
      && InsertAlong(Tree(p), [j], k, offset, length) == [Grow(Tree(h), [j + 1], length)]
  {
    hide Trees, ShiftAll;
    var c, h := p.kids[j], Halved(p, j, offset, x, r);
    var cs, t := Trees(p.kids), Tree(Tail(c, r, offset));
    assert cs[j] == Tree(c) && [j][1..] == [] && [j + 1][1..] == [];
    HalvedTrees(p, j, offset, x, r);
    var ds := cs[..j] + [Tree(c.(endAt := offset))] + [InvalidSegment(offset, offset)] + [t] + cs[j + 1..];
    assert ds[..j + 1] == cs[..j] + [Tree(c.(endAt := offset))] && ds[j + 1] == InvalidSegment(offset, offset);
    assert ds[j + 2..] == [t] + cs[j + 1..];
    ShiftFirst(t, cs[j + 1..], length);
    TailShifts(c, r, offset, length);
    ThreeHalves(cs, j, Tree(c.(endAt := offset)), InvalidSegment(offset, offset + length), Shift(t, length), ShiftAll(cs[j + 1..], length));
  }

  lemma HalvedTrees(p: Item, j: nat, offset: int, x: Node, r: Node)
    requires j < |p.kids|
    ensures var c := p.kids[j]; var cs := Trees(p.kids);
      Trees(Halved(p, j, offset, x, r).kids) == cs[..j] + [Tree(c.(endAt := offset))] + [InvalidSegment(offset, offset)] + [Tree(Tail(c, r, offset))] + cs[j + 1..]
  {
    hide Trees;
    var c := p.kids[j];
    var a, b, d := [c.(endAt := offset)], [Gap(x, offset)], [Tail(c, r, offset)];
    TreesAppend(p.kids[..j] + a + b + d, p.kids[j + 1..]);
    TreesAppend(p.kids[..j] + a + b, d);
    TreesAppend(p.kids[..j] + a, b);
    TreesAppend(p.kids[..j], a);
    TreesParts(p.kids, j);
    TreesParts(p.kids, j + 1);
    assert Trees(a) == [Tree(c.(endAt := offset))] && Trees(b) == [Tree(Gap(x, offset))] && Trees(d) == [Tree(Tail(c, r, offset))];
    GapTree(x, offset);
  }

  lemma ShiftFirst(t: Segment, cs: seq<Segment>, length: nat)
    ensures ShiftAll([t] + cs, length) == [Shift(t, length)] + ShiftAll(cs, length)
  {
    assert ([t] + cs)[1..] == cs;
  }

  lemma TailShifts(c: Item, r: Node, offset: int, length: nat)
    requires c.kids == []
    ensures Shift(Tree(Tail(c, r, offset)), length) == Segment(c.context, offset + length, c.endAt + length, false, [])
  {
  }

  lemma ThreeHalves(cs: seq<Segment>, j: nat, l: Segment, i: Segment, r: Segment, rest: seq<Segment>)
    requires j < |cs|
    ensures cs[..j] + [l, i, r] + rest == cs[..j] + [l] + [i] + ([r] + rest)
  {
  }

  /** A change of a part carried up to the whole. */
  lemma {:induction false} AlongUp(i: Item, pp: Path, rest: Path, rest': Path, x: Item, k: nat, offset: int, length: nat)
    requires IsPath(Tree(i), pp) && IsPath(Tree(ItemAt(i, pp)), rest) && k <= |At(Tree(ItemAt(i, pp)), rest).children| && IsPath(Tree(x), rest')
    requires InsertAlong(Tree(ItemAt(i, pp)), rest, k, offset, length) == [Grow(Tree(x), rest', length)]
    ensures IsPath(Tree(i), pp + rest) && k <= |At(Tree(i), pp + rest).children| && IsPath(Tree(Put(i, pp, x)), pp + rest')
    ensures InsertAlong(Tree(i), pp + rest, k, offset, length) == [Grow(Tree(Put(i, pp, x)), pp + rest', length)]
    decreases pp
  {
    hide Trees, ShiftAll, Grow, InsertAlong, Put, ItemAt, At;
    if pp == [] {
      assert pp + rest == rest && pp + rest' == rest';
      AtNothing(i, x);
    } else {
      var j, tail := pp[0], pp[1..];
      FirstStepOf(i, pp, x);
      AlongUp(i.kids[j], tail, rest, rest', x, k, offset, length);
      assert pp + rest == [j] + (tail + rest) && pp + rest' == [j] + (tail + rest');
      AlongOneUp(i, j, tail + rest, tail + rest', Put(i.kids[j], tail, x), k, offset, length);
    }
  }

  lemma AlongOneUp(i: Item, j: nat, rest: Path, rest': Path, y: Item, k: nat, offset: int, length: nat)
    requires j < |i.kids| && IsPath(Tree(i.kids[j]), rest) && k <= |At(Tree(i.kids[j]), rest).children| && IsPath(Tree(y), rest')
    requires InsertAlong(Tree(i.kids[j]), rest, k, offset, length) == [Grow(Tree(y), rest', length)]
    ensures var up := i.(kids := i.kids[j := y]);
      && IsPath(Tree(i), [j] + rest) && k <= |At(Tree(i), [j] + rest).children| && IsPath(Tree(up), [j] + rest')
      && InsertAlong(Tree(i), [j] + rest, k, offset, length) == [Grow(Tree(up), [j] + rest', length)]
  {
    hide Trees, ShiftAll, Grow, InsertAlong;
    InsertUnder(Tree(i), j, rest, k, offset, length);
    TreesPut(i.kids, j, y);
    AlongStep(Trees(i.kids), j, Tree(y));
    GrowUnderSegment(Tree(i.(kids := i.kids[j := y])), j, rest', length);
  }

  lemma AtNothing(i: Item, x: Item)
    ensures ItemAt(i, []) == i && Put(i, [], x) == x
  {
  }

  lemma FirstStepOf(i: Item, pp: Path, x: Item)
    requires pp != [] && IsPath(Tree(i), pp)
    ensures pp[0] < |i.kids| && IsPath(Tree(i.kids[pp[0]]), pp[1..]) && Tree(i).children[pp[0]] == Tree(i.kids[pp[0]])
    ensures ItemAt(i, pp) == ItemAt(i.kids[pp[0]], pp[1..]) && Put(i, pp, x) == i.(kids := i.kids[pp[0] := Put(i.kids[pp[0]], pp[1..], x)])
  {
  }

  lemma AlongStep(cs: seq<Segment>, j: nat, t: Segment)
    requires j < |cs|
    ensures var ds := cs[..j] + [t] + cs[j + 1..]; |ds| == |cs| && ds[..j] == cs[..j] && ds[j] == t && ds[j + 1..] == cs[j + 1..]
  {
  }

  lemma {:induction false} ShiftZero(cs: seq<Segment>)
    ensures ShiftAll(cs, 0) == cs
    decreases cs
  {
    if cs != [] {
      ShiftZero(cs[0].children);
      ShiftZero(cs[1..]);
    }
  }

  lemma {:induction false} GrowZero(s: Segment, path: Path)
    requires IsPath(s, path)
    ensures Grow(s, path, 0) == s
    decreases path
  {
    if path != [] {
      GrowZero(s.children[path[0]], path[1..]);
      ShiftZero(s.children[path[0] + 1..]);
      assert s.children == s.children[..path[0]] + [s.children[path[0]]] + s.children[path[0] + 1..];
    }
  }

  // ----- the place -----

  /** Where the text goes: an invalid segment that touches the offset, or the innermost
      gap when there is none. */
  ghost predicate PlaceIs(e: Segments, root: Item, path: Path, k: nat, offset: int, parent: Node, prev: Node?, next: Node?)
    reads e, e.invalid
  {
    && IsPlace(Tree(root), path, k, offset) && Innermost(Tree(root), path, offset) && IsPath(Tree(root), path)
    && var p := ItemAt(root, path);
      && p.node == parent && k <= |p.kids| && p.startAt <= offset <= p.endAt
      && (p.context.Some? ==> NoneTouch(e, offset) && prev == Before(Heads(p.kids), k) && next == After(Heads(p.kids), k - 1))
  }

  /** A listed segment is an invalid part of the tree. */
  lemma ListedPart(e: Segments, root: Item, n: Node) returns (path: Path)
    requires Whole(e, root) && n in e.invalid
    ensures IsPath(Tree(root), path) && ItemAt(root, path).node == n && At(Tree(root), path).IsInvalid() && path != []
    ensures var p := ItemAt(root, path); p.kids == [] && n.startAt == p.startAt && n.endAt == p.endAt
  {
    hide Holds, HoldsExcept, Apart, AllNodes, Unnamed, HoldAll, UnnamedBefore, UnnamedAfter, ValidRoot;
    UnnamedNodes([root]);
    AllNodesSingle(root);
    path := FindPath(root, n);
    WholeAt(e, root, path);
    WholeAt(e, root, []);
    WholeValid(e, root, path);
    HoldsParts(ItemAt(root, path));
    HoldsParts(root);
    TreeAt(root, path);
    RootContext(root);
    LeafKids(ItemAt(root, path));
  }

  lemma RootContext(root: Item)
    requires ValidRoot(Tree(root))
    ensures root.context == Some(Root)
  {
  }

  lemma LeafKids(i: Item)
    requires Valid(Tree(i)) && i.context.None?
    ensures i.kids == []
  {
  }

  method Place(e: Segments, offset: int, ghost root: Item) returns (parent: Node, prev: Node?, next: Node?, ghost path: Path, ghost k: nat)
    requires Whole(e, root) && 0 <= offset <= root.endAt
    ensures PlaceIs(e, root, path, k, offset, parent, prev, next)
  {
    hide Holds, HoldsExcept, Apart, AllNodes, Unnamed, HoldAll, Tree, Trees, Valid, IsPlace, Innermost, Heads;
    assert allocated(Nodes(root));
    WholeAt(e, root, []);
    WholeIsValid(e, root);
    RootBounds(root);
    var found := InvalidAt(e, offset, root);
    if found != null {
      path := ListedPart(e, root, found);
      InvalidTouches(root, path, offset);
      InvalidIsPlace(Tree(root), path, offset);
      parent, prev, next, k := found, null, null, 0;
    } else {
      var h;
      ghost var hk;
      h, hk := Climb(e, e.hint, e.root, root, []);
      AtNothing(root, root);
      parent, prev, next, path, k := FindPlace(e.root, offset, h, root, hk);
      PlaceTouches(root, path, k, offset);
    }
  }

  lemma RootBounds(root: Item)
    requires ValidRoot(Tree(root))
    ensures root.startAt == 0
  {
  }

  lemma InvalidTouches(root: Item, path: Path, offset: int)
    requires IsPath(Tree(root), path) && At(Tree(root), path).IsInvalid() && ItemAt(root, path).startAt <= offset <= ItemAt(root, path).endAt
    ensures ItemAt(root, path).context.None? && At(Tree(root), path).Touches(offset)
  {
    TreeAt(root, path);
  }

  lemma PlaceTouches(root: Item, path: Path, k: nat, offset: int)
    requires IsPlace(Tree(root), path, k, offset)
    ensures IsPath(Tree(root), path) && ItemAt(root, path).startAt <= offset <= ItemAt(root, path).endAt
  {
    PlaceIsPath(Tree(root), path, k, offset);
    TreeAt(root, path);
  }

  // ----- the change at the place -----

  /** Inserting at the place is the same as extending `q` in the changed tree. */
  ghost predicate Ready(root: Item, mid: Item, q: Path, path: Path, k: nat, offset: int, length: nat) {
    && IsPath(Tree(mid), q) && IsPath(Tree(root), path) && k <= |At(Tree(root), path).children|
    && InsertAlong(Tree(root), path, k, offset, length) == [Grow(Tree(mid), q, length)]
  }

  lemma NothingToDo(root: Item, path: Path, k: nat, offset: int, length: nat)
    requires IsPath(Tree(root), path) && k <= |ItemAt(root, path).kids| && ItemAt(root, path).context.None?
    ensures Ready(root, root, path, path, k, offset, length)
  {
    hide AllNodes, Trees;
    var p := ItemAt(root, path);
    TreeParts(p);
    PutItself(root, path);
    assert path + [] == path;
    AlongUp(root, path, [], [], p, k, offset, length);
  }

  lemma VoidedReady(root: Item, path: Path, k: nat, offset: int, length: nat)
    requires IsPath(Tree(root), path) && k <= |ItemAt(root, path).kids|
    requires var p := ItemAt(root, path); Tree(p).IsSimple() && !(p.startAt < offset < p.endAt)
    ensures Ready(root, Put(root, path, Voided(ItemAt(root, path))), path, path, k, offset, length)
  {
    hide Trees, InsertAlong, Put, ItemAt, Voided, Grow;
    var p := ItemAt(root, path);
    TreeParts(p);
    SimpleGrows(p, length, k, offset);
    HereAlong(Tree(p), k, offset, length);
    assert path + [] == path;
    AlongUp(root, path, [], [], Voided(p), k, offset, length);
  }

  lemma HereAlong(s: Segment, k: nat, offset: int, length: nat)
    requires k <= |s.children|
    ensures IsPath(s, []) && At(s, []) == s && InsertAlong(s, [], k, offset, length) == InsertHere(s, k, offset, length)
  {
  }

  lemma HalvedReady(root: Item, path: Path, k: nat, offset: int, length: nat, x: Node, r: Node)
    requires IsPath(Tree(root), path) && path != [] && k <= |ItemAt(root, path).kids| && Valid(Tree(ItemAt(root, path)))
    requires var p := ItemAt(root, path); Tree(p).IsSimple() && p.startAt < offset < p.endAt
    ensures var q, j := path[..|path| - 1], path[|path| - 1];
      && IsPath(Tree(root), q) && j < |ItemAt(root, q).kids|
      && Ready(root, Put(root, q, Halved(ItemAt(root, q), j, offset, x, r)), q + [j + 1], path, k, offset, length)
  {
    hide Trees, InsertAlong, Put, ItemAt, Halved, Grow, Tree;
    var q, j := path[..|path| - 1], path[|path| - 1];
    LastStep(root, path);
    SimpleChildless(ItemAt(root, path));
    HalvedGrows(ItemAt(root, q), j, k, offset, length, x, r);
    assert path == q + [j];
    AlongUp(root, q, [j], [j + 1], Halved(ItemAt(root, q), j, offset, x, r), k, offset, length);
  }

  lemma SimpleChildless(p: Item)
    requires Tree(p).IsSimple() && Valid(Tree(p))
    ensures p.kids == []
  {
  }

  lemma LinkedReady(root: Item, path: Path, k: nat, offset: int, length: nat, x: Node)
    requires IsPath(Tree(root), path) && k <= |ItemAt(root, path).kids| && Tree(ItemAt(root, path)).IsContainer()
    ensures Ready(root, Put(root, path, WithKid(ItemAt(root, path), k, Gap(x, offset))), path + [k], path, k, offset, length)
  {
    hide Trees, InsertAlong, Put, ItemAt, WithKid, Grow;
    var p := ItemAt(root, path);
    TreeParts(p);
    ContainerGrows(p, k, x, offset, length);
    HereAlong(Tree(p), k, offset, length);
    assert path + [] == path;
    AlongUp(root, path, [], [k], WithKid(p, k, Gap(x, offset)), k, offset, length);
  }

  // ----- on the heap -----

  /** A new segment without a context between two children. */
  method LinkGap(e: Segments, parent: Node, prev: Node?, next: Node?, offset: int, ghost root: Item, ghost path: Path, ghost k: nat) returns (segment: Node)
    requires Whole(e, root) && PlaceIs(e, root, path, k, offset, parent, prev, next) && Tree(ItemAt(root, path)).IsContainer()
    modifies e`invalid, Nodes(ItemAt(root, path))
    ensures fresh(segment) && Whole(e, Put(root, path, WithKid(ItemAt(root, path), k, Gap(segment, offset))))
  {
    hide Holds, HoldsExcept, HoldAll, Unnamed, UnnamedBefore, UnnamedAfter, AllNodes, Apart, Trees, Valid, ItemAt, Put, Outside, WithKid, IsPosition, ValidRoot,
         Heads, Innermost, IsPlace, NoneTouch;
    ghost var i := ItemAt(root, path);
    assert allocated(Nodes(root)) && allocated(Outside(root, path)) && allocated(Nodes(i));
    WholeAt(e, root, path);
    WholeValid(e, root, path);
    ContainerContext(i);
    NoStart(e, root, offset);
    PlaceIsPosition(root, path, k, offset);
    ghost var x;
    segment, x := New(e, parent, None, offset, offset, false, root, path, k);
    Insert(segment, parent, prev, next, i, k, x);
    CreatedWhole(e, root, path, k, x);
  }

  lemma ContainerContext(i: Item)
    requires Tree(i).IsContainer()
    ensures i.context.Some? && Tree(i).context == i.context
  {
  }

  lemma {:induction false} PlaceIsPosition(root: Item, path: Path, k: nat, offset: int)
    requires IsPath(Tree(root), path) && IsPlace(Tree(root), path, k, offset)
    ensures k <= |ItemAt(root, path).kids| && IsPosition(Trees(ItemAt(root, path).kids), k, offset, offset)
    decreases path
  {
    if path != [] { PlaceIsPosition(root.kids[path[0]], path[1..], k, offset); }
  }

  lemma LinkedNodes(root: Item, path: Path, k: nat, x: Item)
    requires IsPath(Tree(root), path) && k <= |ItemAt(root, path).kids| && x.kids == []
    ensures Nodes(Put(root, path, WithKid(ItemAt(root, path), k, x))) == Nodes(root) + {x.node}
  {
    hide AllNodes, Apart, Trees, ItemAt, Put, Outside, WithKid, Heads, Unnamed, HoldAll;
    NodesAt(root, path);
    LinkedParts(ItemAt(root, path), k, x);
    PutNodes(root, path, WithKid(ItemAt(root, path), k, x));
  }

  lemma HalvedNodes(root: Item, q: Path, j: nat, offset: int, x: Node, r: Node)
    requires IsPath(Tree(root), q) && j < |ItemAt(root, q).kids|
    ensures Nodes(Put(root, q, Halved(ItemAt(root, q), j, offset, x, r))) == Nodes(root) + {x, r}
  {
    hide AllNodes, Apart, Trees, ItemAt, Put, Outside, WithKid, Heads, Unnamed, HoldAll, Shortened, Halved;
    var p := ItemAt(root, q);
    var p1 := Shortened(p, j, offset);
    PartNodes(root, q, j, offset);
    var p2 := WithKid(p1, j + 1, Gap(x, offset));
    NodesAt(root, q);
    HalvedSteps(p, j, offset, x, r);
    LinkedParts(p1, j + 1, Gap(x, offset));
    LinkedParts(p2, j + 2, Tail(p.kids[j], r, offset));
    PutNodes(root, q, Halved(p, j, offset, x, r));
  }

  /** The invalid segment that will hold the text. */
  method MakePlace(e: Segments, parent: Node, prev: Node?, next: Node?, offset: int, ghost length: nat, ghost root: Item, ghost path: Path, ghost k: nat)
    returns (segment: Node, ghost mid: Item, ghost q: Path)
    requires Whole(e, root) && PlaceIs(e, root, path, k, offset, parent, prev, next)
    modifies e`invalid, Nodes(root)
    ensures Whole(e, mid) && Ready(root, mid, q, path, k, offset, length) && ItemAt(mid, q).node == segment && OldOrNew(Nodes(root), Nodes(mid))
    ensures ItemAt(root, path).context.None? ==> segment == parent && mid == root
  {
    hide Holds, HoldsExcept, HoldAll, Unnamed, UnnamedBefore, UnnamedAfter, AllNodes, Apart, Trees, Valid, ItemAt, Put, Outside, WithKid, ValidRoot,
         Heads, Innermost, IsPlace, NoneTouch, Tree, Halved, Whole, Ready, Voided, IsPath;
    ghost var i := ItemAt(root, path);
    PlaceFacts(e, root, path, k, offset, parent, prev, next);
    assert allocated(Nodes(root)) && allocated(Nodes(i));
    if parent.context.None? {
      NothingToDo(root, path, k, offset, length);
      segment, mid, q := parent, root, path;
    } else if parent.context.value.IsSimple() {
      if parent.startAt < offset < parent.endAt {
        ghost var p, j := path[..|path| - 1], path[|path| - 1];
        LastStep(root, path);
        ghost var tail;
        segment, tail := SplitSimple(e, parent, offset, root, p, j);
        HalvedReady(root, path, k, offset, length, segment, tail);
        HalvedNodes(root, p, j, offset, segment, tail);
        mid, q := Put(root, p, Halved(ItemAt(root, p), j, offset, segment, tail)), p + [j + 1];
        HalvedAt(root, p, j, offset, segment, tail);
      } else {
        MakeInvalid(e, parent, offset, root, path);
        VoidedReady(root, path, k, offset, length);
        VoidedAt(root, path);
        segment, mid, q := parent, Put(root, path, Voided(i)), path;
      }
    } else {
      segment := LinkGap(e, parent, prev, next, offset, root, path, k);
      LinkedReady(root, path, k, offset, length, segment);
      LinkedNodes(root, path, k, Gap(segment, offset));
      mid, q := Put(root, path, WithKid(i, k, Gap(segment, offset))), path + [k];
      LinkedAt(root, path, k, Gap(segment, offset));
    }
  }

  lemma PlaceFacts(e: Segments, root: Item, path: Path, k: nat, offset: int, parent: Node, prev: Node?, next: Node?)
    requires Whole(e, root) && PlaceIs(e, root, path, k, offset, parent, prev, next)
    ensures IsPath(Tree(root), path) && var i := ItemAt(root, path); var t := Tree(i);
      && k <= |i.kids| && Valid(t) && Nodes(i) <= Nodes(root) && i.node == parent && parent in Nodes(root)
      && parent.context == i.context && parent.startAt == i.startAt && parent.endAt == i.endAt && i.startAt <= offset <= i.endAt
      && (i.context.Some? ==> NoneTouch(e, offset))
      && (i.context.Some? ==> (i.context.value.IsSimple() <==> t.IsSimple()) && (!i.context.value.IsSimple() ==> t.IsContainer()))
      && (t.IsSimple() ==> path != [])
  {
    hide Holds, HoldsExcept, HoldAll, Unnamed, UnnamedBefore, UnnamedAfter, AllNodes, Apart, Trees, Outside, Heads, Innermost, IsPlace, NoneTouch;
    WholeAt(e, root, path);
    WholeValid(e, root, path);
    HoldsParts(ItemAt(root, path));
    RootContext(root);
  }

  lemma HalvedAt(root: Item, p: Path, j: nat, offset: int, x: Node, r: Node)
    requires IsPath(Tree(root), p) && j < |ItemAt(root, p).kids|
    ensures var m := Put(root, p, Halved(ItemAt(root, p), j, offset, x, r));
      IsPath(Tree(m), p + [j + 1]) && ItemAt(m, p + [j + 1]).node == x
  {
    hide Trees, Put, ItemAt, Tree;
    var h := Halved(ItemAt(root, p), j, offset, x, r);
    PutTwice(root, p, h, h);
    assert h.kids[j + 1] == Gap(x, offset);
    PutDeep(Put(root, p, h), p, j + 1, h);
  }

  lemma VoidedAt(root: Item, path: Path)
    requires IsPath(Tree(root), path) && Tree(ItemAt(root, path)).IsSimple() && Valid(Tree(ItemAt(root, path)))
    ensures var m := Put(root, path, Voided(ItemAt(root, path)));
      IsPath(Tree(m), path) && ItemAt(m, path).node == ItemAt(root, path).node && Nodes(m) == Nodes(root)
  {
    hide AllNodes, Trees, Put, ItemAt, Tree, Outside, Apart;
    var i := ItemAt(root, path);
    VoidedParts(i);
    PutTwice(root, path, Voided(i), i);
    NodesAt(root, path);
    PutNodes(root, path, Voided(i));
  }

  lemma LinkedAt(root: Item, path: Path, k: nat, x: Item)
    requires IsPath(Tree(root), path) && k <= |ItemAt(root, path).kids|
    ensures var m := Put(root, path, WithKid(ItemAt(root, path), k, x));
      IsPath(Tree(m), path + [k]) && ItemAt(m, path + [k]) == x
  {
    hide Trees, Put, ItemAt, Tree;
    var h := WithKid(ItemAt(root, path), k, x);
    PutTwice(root, path, h, h);
    assert h.kids[k] == x;
    PutDeep(Put(root, path, h), path, k, h);
  }

  /** Every invalid segment of the tree is in the list. */
  lemma UntouchedPaths(e: Segments, root: Item, offset: nat)
    requires Whole(e, root) && NoneTouch(e, offset)
    ensures !HasInvalid(Tree(root).children, offset, offset)
  {
    hide Holds, HoldsExcept, HoldAll, Unnamed, UnnamedBefore, UnnamedAfter, AllNodes, Apart, Trees, Outside, ValidRoot, Valid, HasInvalid, ItemAt;
    forall p | IsPath(Tree(root), p) && At(Tree(root), p).IsInvalid() ensures !At(Tree(root), p).Touches(offset) {
      WholeAt(e, root, p);
      TreeAt(root, p);
      UnnamedSingle(ItemAt(root, p));
      HoldsParts(ItemAt(root, p));
      assert ItemAt(root, p).node in Unnamed([ItemAt(root, p)]);
      assert ItemAt(root, p).node in e.invalid;
    }
    TreeUpdate.NoInvalidAt(Tree(root), offset);
  }

  /** The extended tree is the one the insertion gives. */
  lemma ReadyGrows(root: Item, mid: Item, q: Path, path: Path, k: nat, offset: int, length: nat)
    requires ValidRoot(Tree(root)) && IsPlace(Tree(root), path, k, offset) && Ready(root, mid, q, path, k, offset, length)
    ensures var g := GrowItem(mid, q, length);
      Tree(g) == Inserted(Tree(root), path, k, offset, length) && ValidRoot(Tree(g)) && Same(mid, g) && (length == 0 ==> Tree(g) == Tree(mid))
  {
    hide InsertAlong, Grow, GrowItem, ValidRoot, Same, Tree, IsPath;
    GrownTree(mid, q, length);
    GrownSame(mid, q, length);
    InsertedRoot(Tree(root), path, k, offset, length);
    GrowZero(Tree(mid), q);
  }

  lemma PlaceInserts(e: Segments, root: Item, path: Path, k: nat, offset: nat, length: nat, parent: Node, prev: Node?, next: Node?)
    requires Whole(e, root) && PlaceIs(e, root, path, k, offset, parent, prev, next)
    ensures IsPlace(Tree(root), path, k, offset)
    ensures ItemAt(root, path).context.None? ==> path != [] && HasInvalid(Tree(root).children, offset, offset)
    ensures (length > 0 || ItemAt(root, path).context.Some?) ==> TreeUpdate.InsertedAt(Tree(root), Inserted(Tree(root), path, k, offset, length), offset, length)
  {
    hide Holds, HoldsExcept, HoldAll, Unnamed, UnnamedBefore, UnnamedAfter, AllNodes, Apart, Trees, Outside, Valid, HasInvalid, ItemAt, IsPlace, Innermost, NoneTouch, Inserted;
    if ItemAt(root, path).context.None? {
      AtNothing(root, root);
      RootContext(root);
      TreeAt(root, path);
      PathHasInvalid(Tree(root), path, offset, offset);
    } else {
      UntouchedPaths(e, root, offset);
    }
  }

  /** `insert_range` */
  method InsertRange(e: Segments, offset: int, length: nat, ghost root: Item) returns (ghost after: Item)
    requires Whole(e, root) && 0 <= offset <= root.endAt
    modifies e`invalid, Nodes(root)
    ensures Whole(e, after) && ValidRoot(Tree(root)) && TreeUpdate.InsertedAt(Tree(root), Tree(after), offset, length) && OldOrNew(Nodes(root), Nodes(after))
  {
    hide Holds, HoldsExcept, HoldAll, Unnamed, UnnamedBefore, UnnamedAfter, AllNodes, Apart, Trees, Outside, Valid, ValidRoot, HasInvalid, ItemAt, IsPlace, Innermost,
         NoneTouch, Inserted, Ready, Tree, GrowItem, IsPath, Same, PlaceIs, TreeUpdate.InsertedAt;
    var parent, prev, next;
    ghost var path, k;
    assert allocated(Nodes(root));
    WholeValid(e, root, []);
    parent, prev, next, path, k := Place(e, offset, root);
    PlaceInserts(e, root, path, k, offset, length, parent, prev, next);
    PlaceFacts(e, root, path, k, offset, parent, prev, next);
    if parent.context.None? && length == 0 {
      InsertedNothing(Tree(root), offset);
      return root;
    }
    var segment;
    ghost var mid, q;
    segment, mid, q := MakePlace(e, parent, prev, next, offset, length, root, path, k);
    ReadyGrows(root, mid, q, path, k, offset, length);
    ReadyPaths(root, mid, q, path, k, offset, length);
    assert allocated(Nodes(mid));
    if length != 0 {
      GrowUp(e, segment, length, mid, q);
      after := GrowItem(mid, q, length);
      WholeSame(e, mid, after);
    } else {
      after := mid;
    }
  }

  lemma InsertedNothing(t: Segment, offset: nat)
    requires ValidRoot(t) && HasInvalid(t.children, offset, offset)
    ensures TreeUpdate.InsertedAt(t, t, offset, 0)
  {
  }

  lemma ReadyPaths(root: Item, mid: Item, q: Path, path: Path, k: nat, offset: int, length: nat)
    requires Ready(root, mid, q, path, k, offset, length)
    ensures IsPath(Tree(mid), q)
  {
  }
}
