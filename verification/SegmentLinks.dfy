/** The pointers of the segment tree: each segment's children are a doubly linked list
    with its two ends in the parent.  Here the pointer manipulations are shown to do on one
    list what the operations on values do on the sequence of siblings; the `Node` modules
    build the operations on whole trees from them. */
module SegmentLinks {
  import opened Wrappers
  import opened Contexts

  /** `Segment` */
  class Node {
    var parent: Node?
    var prev: Node?
    var next: Node?
    var children: Node?
    var lastChild: Node?
    var context: Option<Context>
    var startAt: int
    var endAt: int
    var isStart: bool

    constructor (parent: Node?, context: Option<Context>, startAt: int, endAt: int, isStart: bool)
      ensures this.parent == parent && this.context == context
      ensures this.startAt == startAt && this.endAt == endAt && this.isStart == isStart
      ensures prev == null && next == null && children == null && lastChild == null
    {
      this.parent, this.context, this.startAt, this.endAt, this.isStart := parent, context, startAt, endAt, isStart;
      prev, next, children, lastChild := null, null, null, null;
    }
  }

  function Among(cs: seq<Node>): set<Node> { set c | c in cs }

  function First(cs: seq<Node>): Node? { if cs == [] then null else cs[0] }

  function Last(cs: seq<Node>): Node? { if cs == [] then null else cs[|cs| - 1] }

  function Before(cs: seq<Node>, i: int): Node? { if 0 < i <= |cs| then cs[i - 1] else null }

  function After(cs: seq<Node>, i: int): Node? { if -1 <= i < |cs| - 1 then cs[i + 1] else null }

  ghost predicate Distinct(cs: seq<Node>) {
    forall i, j :: 0 <= i < j < |cs| ==> cs[i] != cs[j]
  }

  /** The links among the siblings. */
  ghost predicate Linked(cs: seq<Node>)
    reads Among(cs)`prev, Among(cs)`next
  {
    forall i {:trigger cs[i]} :: 0 <= i < |cs| ==> cs[i].prev == Before(cs, i) && cs[i].next == After(cs, i)
  }

  ghost predicate ChildrenOf(p: Node, cs: seq<Node>)
    reads Among(cs)`parent
  {
    forall i {:trigger cs[i]} :: 0 <= i < |cs| ==> cs[i].parent == p
  }

  /** The children of `p` are `cs`, and all links say so. */
  ghost predicate List(p: Node, cs: seq<Node>)
    reads p`children, p`lastChild, Among(cs)`parent, Among(cs)`prev, Among(cs)`next
  {
    && Distinct(cs) && p !in cs
    && p.children == First(cs) && p.lastChild == Last(cs)
    && Linked(cs) && ChildrenOf(p, cs)
  }

  // ----- linking a new segment -----

  /** The links after the segment `n` was put before the `k`-th sibling. */
  ghost predicate LinkedWith(p: Node, cs: seq<Node>, k: nat, n: Node)
    reads p, cs, n
  {
    && k <= |cs| && Distinct(cs) && p !in cs && n !in cs && n != p
    && p.children == (if k == 0 then n else First(cs)) && p.lastChild == (if k == |cs| then n else Last(cs))
    && (forall i {:trigger cs[i]} :: 0 <= i < |cs| ==>
          && cs[i].parent == p
          && cs[i].prev == (if i == k then n else Before(cs, i))
          && cs[i].next == (if i == k - 1 then n else After(cs, i)))
    && n.parent == p && n.prev == Before(cs, k) && n.next == After(cs, k - 1)
  }

  /** `r` is `cs` with `n` before the `k`-th element. */
  ghost predicate With(r: seq<Node>, cs: seq<Node>, k: nat, n: Node) {
    && k <= |cs| && |r| == |cs| + 1 && r[k] == n
    && (forall i {:trigger r[i]} :: 0 <= i < k ==> r[i] == cs[i])
    && (forall i {:trigger r[i]} :: k < i < |r| ==> r[i] == cs[i - 1])
  }

  lemma WithDistinct(r: seq<Node>, cs: seq<Node>, k: nat, n: Node)
    requires With(r, cs, k, n) && Distinct(cs) && n !in cs
    ensures Distinct(r)
  {
    forall i, j | 0 <= i < j < |r| ensures r[i] != r[j] {
      var x, y := if i < k then i else i - 1, if j < k then j else j - 1;
      if i != k && j != k { assert cs[x] != cs[y]; }
    }
  }

  lemma WithLinked(p: Node, r: seq<Node>, cs: seq<Node>, k: nat, n: Node)
    requires With(r, cs, k, n) && LinkedWith(p, cs, k, n)
    ensures List(p, r)
  {
    WithDistinct(r, cs, k, n);
    WithEnds(r, cs, k, n);
    forall i | 0 <= i < |r| ensures InPlace(p, r, i) {
      hide Distinct;
      WithAt(r, cs, k, n, i);
      if i != k { OtherWith(p, cs, k, n, if i < k then i else i - 1); }
    }
    hide Distinct, With;
    AllInPlace(p, r);
  }

  ghost predicate InPlace(p: Node, r: seq<Node>, i: int)
    requires 0 <= i < |r|
    reads r
  {
    r[i].parent == p && r[i] != p && r[i].prev == Before(r, i) && r[i].next == After(r, i)
  }

  lemma AllInPlace(p: Node, r: seq<Node>)
    requires Distinct(r) && p.children == First(r) && p.lastChild == Last(r) && forall i :: 0 <= i < |r| ==> InPlace(p, r, i)
    ensures List(p, r)
  {
    hide Distinct;
    forall i | 0 <= i < |r| ensures r[i].parent == p && r[i] != p && r[i].prev == Before(r, i) && r[i].next == After(r, i) {
      assert InPlace(p, r, i);
    }
  }

  lemma WithEnds(r: seq<Node>, cs: seq<Node>, k: nat, n: Node)
    requires With(r, cs, k, n)
    ensures First(r) == (if k == 0 then n else First(cs)) && Last(r) == if k == |cs| then n else Last(cs)
  {
  }

  lemma WithAt(r: seq<Node>, cs: seq<Node>, k: nat, n: Node, i: nat)
    requires With(r, cs, k, n) && i < |r|
    ensures i < k ==> r[i] == cs[i] && Before(r, i) == Before(cs, i) && After(r, i) == if i == k - 1 then n else After(cs, i)
    ensures i == k ==> r[i] == n && Before(r, i) == Before(cs, k) && After(r, i) == After(cs, k - 1)
    ensures i > k ==> r[i] == cs[i - 1] && Before(r, i) == (if i - 1 == k then n else Before(cs, i - 1)) && After(r, i) == After(cs, i - 1)
  {
  }

  lemma OtherWith(p: Node, cs: seq<Node>, k: nat, n: Node, j: nat)
    requires LinkedWith(p, cs, k, n) && j < |cs|
    ensures cs[j].parent == p && cs[j] != p
    ensures cs[j].prev == (if j == k then n else Before(cs, j)) && cs[j].next == (if j == k - 1 then n else After(cs, j))
  {
    assert cs[j] in cs;
  }

  lemma LinkedList(p: Node, cs: seq<Node>, k: nat, n: Node)
    requires LinkedWith(p, cs, k, n)
    ensures List(p, cs[..k] + [n] + cs[k..])
  {
    hide List, Distinct, Linked;
    IsWith(cs, k, n);
    WithLinked(p, cs[..k] + [n] + cs[k..], cs, k, n);
  }

  lemma IsWith(cs: seq<Node>, k: nat, n: Node)
    requires k <= |cs|
    ensures With(cs[..k] + [n] + cs[k..], cs, k, n)
  {
  }

  lemma ListLinks(p: Node, cs: seq<Node>)
    requires List(p, cs)
    ensures forall i {:trigger cs[i]} :: 0 <= i < |cs| ==> cs[i].parent == p && cs[i].prev == Before(cs, i) && cs[i].next == After(cs, i)
  {
  }

  lemma Elsewhere(cs: seq<Node>, k: int)
    requires Distinct(cs)
    ensures forall i {:trigger cs[i]} :: 0 <= i < |cs| && 0 <= k < |cs| && i != k ==> cs[i] != cs[k]
  {
  }

  /** The end of `create_segment`, and of `insert_range`: the new segment between two
      neighbours, either of which may be missing. */
  method Link(p: Node, n: Node, prev: Node?, next: Node?, ghost cs: seq<Node>, ghost k: nat)
    requires List(p, cs) && k <= |cs| && prev == Before(cs, k) && next == After(cs, k - 1)
    requires n !in cs && n != p && n.parent == p
    modifies p`children, p`lastChild, n`prev, n`next, Among(cs)`prev, Among(cs)`next
    ensures List(p, cs[..k] + [n] + cs[k..])
  {
    hide Distinct, Linked, ChildrenOf, Before, After, First, Last;
    ListLinks(p, cs);
    Neighbour(cs, k);
    assert allocated(Among(cs));
    n.next := next;
    n.prev := prev;
    HookNext(p, n, next, cs, k);
    HookPrev(p, n, prev, cs, k);
    hide List;
    LinkedList(p, cs, k, n);
  }

  lemma Neighbour(cs: seq<Node>, k: nat)
    requires k <= |cs|
    ensures (After(cs, k - 1) == null <==> k == |cs|) && (Before(cs, k) == null <==> k == 0)
  {
  }

  method HookNext(p: Node, n: Node, next: Node?, ghost cs: seq<Node>, ghost k: nat)
    requires Distinct(cs) && n !in cs && k <= |cs| && next == After(cs, k - 1)
    modifies p`lastChild, Among(cs)`prev
    ensures forall i {:trigger cs[i]} :: 0 <= i < |cs| ==> cs[i].prev == if i == k then n else old(cs[i].prev)
    ensures p.lastChild == if k == |cs| then n else old(p.lastChild)
  {
    hide Distinct;
    Elsewhere(cs, k);
    if next != null {
      assert next == cs[k];
      next.prev := n;
    } else {
      p.lastChild := n;
    }
  }

  method HookPrev(p: Node, n: Node, prev: Node?, ghost cs: seq<Node>, ghost k: nat)
    requires Distinct(cs) && n !in cs && k <= |cs| && prev == Before(cs, k)
    modifies p`children, Among(cs)`next
    ensures forall i {:trigger cs[i]} :: 0 <= i < |cs| ==> cs[i].next == if i == k - 1 then n else old(cs[i].next)
    ensures p.children == if k == 0 then n else old(p.children)
  {
    hide Distinct;
    Elsewhere(cs, k - 1);
    if prev != null {
      assert prev == cs[k - 1];
      prev.next := n;
    } else {
      p.children := n;
    }
  }

  // ----- removing a segment -----

  /** The links of the others after the `k`-th sibling was taken out. */
  ghost predicate LinkedWithout(p: Node, cs: seq<Node>, k: nat)
    reads p, cs
  {
    && k < |cs| && Distinct(cs) && p !in cs
    && p.children == (if k == 0 then After(cs, k) else First(cs)) && p.lastChild == (if k == |cs| - 1 then Before(cs, k) else Last(cs))
    && (forall i {:trigger cs[i]} :: 0 <= i < |cs| && i != k ==>
          && cs[i].parent == p
          && cs[i].prev == (if i == k + 1 then Before(cs, k) else Before(cs, i))
          && cs[i].next == (if i == k - 1 then After(cs, k) else After(cs, i)))
  }

  /** `r` is `cs` without the `k`-th element. */
  ghost predicate Without(r: seq<Node>, cs: seq<Node>, k: nat) {
    && k < |cs| && |r| == |cs| - 1
    && (forall i {:trigger r[i]} :: 0 <= i < k ==> r[i] == cs[i])
    && (forall i {:trigger r[i]} :: k <= i < |r| ==> r[i] == cs[i + 1])
  }

  lemma WithoutLinked(p: Node, r: seq<Node>, cs: seq<Node>, k: nat)
    requires Without(r, cs, k) && LinkedWithout(p, cs, k)
    ensures List(p, r)
  {
    forall i, j | 0 <= i < j < |r| ensures r[i] != r[j] {
      var x, y := if i < k then i else i + 1, if j < k then j else j + 1;
      assert cs[x] != cs[y];
    }
    forall i | 0 <= i < |r| ensures r[i].parent == p && r[i] != p && r[i].prev == Before(r, i) && r[i].next == After(r, i) {
      if i < k {
        assert r[i] == cs[i];
      } else {
        assert r[i] == cs[i + 1];
      }
    }
  }

  lemma UnlinkedList(p: Node, cs: seq<Node>, k: nat)
    requires LinkedWithout(p, cs, k)
    ensures List(p, cs[..k] + cs[k + 1..])
  {
    SlicesWithout(cs, k);
    WithoutLinked(p, cs[..k] + cs[k + 1..], cs, k);
  }

  lemma SlicesWithout(cs: seq<Node>, k: nat)
    requires k < |cs|
    ensures Without(cs[..k] + cs[k + 1..], cs, k)
  {
  }

  /** `segment_remove`, as far as the links go. */
  method Unlink(n: Node, p: Node, ghost cs: seq<Node>, ghost k: nat)
    requires List(p, cs) && k < |cs| && cs[k] == n
    modifies p`children, p`lastChild, Among(cs)`prev, Among(cs)`next
    ensures List(p, cs[..k] + cs[k + 1..])
    ensures n.next == After(cs, k) && n.prev == Before(cs, k)
  {
    hide Distinct;
    Elsewhere(cs, k - 1);
    Elsewhere(cs, k + 1);
    if n.next != null {
      assert n.next == cs[k + 1];
      n.next.prev := n.prev;
    } else {
      p.lastChild := n.prev;
    }
    if n.prev != null {
      assert n.prev == cs[k - 1];
      n.prev.next := n.next;
    } else {
      p.children := n.next;
    }
    UnlinkedList(p, cs, k);
  }

  // ----- splitting a segment -----

  /** A child moved to the end of a list. */
  method Append(p: Node, child: Node, ghost cs: seq<Node>)
    requires List(p, cs) && child !in cs && child != p
    modifies p`children, p`lastChild, child`parent, child`prev, child`next, Among(cs)`next
    ensures List(p, cs + [child])
  {
    hide Distinct;
    Elsewhere(cs, |cs| - 1);
    child.parent := p;
    if p.lastChild != null {
      assert p.lastChild == cs[|cs| - 1];
      p.lastChild.next := child;
      child.prev := p.lastChild;
      child.next := null;
      p.lastChild := child;
    } else {
      child.next := null;
      child.prev := null;
      p.lastChild := child;
      p.children := child;
    }
    forall i | 0 <= i < |cs|
      ensures cs[i].parent == p && cs[i].prev == Before(cs, i) && cs[i].next == (if i == |cs| - 1 then child else After(cs, i))
    {
      assert old(cs[i].parent) == p && old(cs[i].prev) == Before(cs, i) && old(cs[i].next) == After(cs, i);
      assert cs[i] in cs;
    }
    LinkedList(p, cs, |cs|, child);
    assert cs[..|cs|] + [child] + cs[|cs|..] == cs + [child];
  }

  /** The children that are still to be moved: only the way forward matters. */
  ghost predicate Forward(cs: seq<Node>, i: nat)
    reads Among(cs)`next
  {
    i <= |cs| && forall j {:trigger cs[j]} :: i <= j < |cs| ==> cs[j].next == After(cs, j)
  }

  /** While children are moved: `l` are those of one segment, `r` those of the other, and
      from the `i`-th on they are still to be moved. */
  ghost predicate Moving(a: Node, l: seq<Node>, b: Node, r: seq<Node>, cs: seq<Node>, i: nat)
    reads a, l, b, r, cs
  {
    && List(a, l) && List(b, r) && Forward(cs, i) && Distinct(cs)
    && a != b && a !in cs && b !in cs && a !in r && b !in l
    && (forall j {:trigger cs[j]} :: i <= j < |cs| ==> cs[j] !in l && cs[j] !in r)
    && (forall x :: x in l ==> x !in r)
  }

  method MoveChild(a: Node, b: Node, ghost l: seq<Node>, ghost r: seq<Node>, ghost cs: seq<Node>, child: Node, ghost i: nat)
    requires Moving(a, l, b, r, cs, i) && i < |cs| && child == cs[i]
    modifies a`children, a`lastChild, child`parent, child`prev, child`next, Among(l)`next
    ensures Moving(a, l + [child], b, r, cs, i + 1)
  {
    Append(a, child, l);
  }

  /** The children before the `i`-th that go to the one segment, and to the other. */
  function Kept(cs: seq<Node>, i: nat, m: nat): seq<Node>
    requires i <= |cs| && m <= |cs|
  {
    cs[..if i < m then i else m]
  }

  function Given(cs: seq<Node>, i: nat, m: nat): seq<Node>
    requires i <= |cs| && m <= |cs|
  {
    cs[m..if i < m then m else i]
  }

  lemma NextSlices(cs: seq<Node>, i: nat, m: nat)
    requires i < |cs| && m <= |cs|
    ensures Kept(cs, i + 1, m) == if i < m then Kept(cs, i, m) + [cs[i]] else Kept(cs, i, m)
    ensures Given(cs, i + 1, m) == if i < m then Given(cs, i, m) else Given(cs, i, m) + [cs[i]]
  {
  }

  method MoveOne(segment: Node, other: Node, start: int, ghost cs: seq<Node>, ghost m: nat, child: Node, ghost i: nat)
    requires i < |cs| && m <= |cs| && child == cs[i] && (child.startAt < start <==> i < m)
    requires Moving(segment, Kept(cs, i, m), other, Given(cs, i, m), cs, i)
    modifies segment`children, segment`lastChild, other`children, other`lastChild, child`parent, child`prev, child`next,
             Among(cs[..i])`next
    ensures Moving(segment, Kept(cs, i + 1, m), other, Given(cs, i + 1, m), cs, i + 1)
  {
    hide Moving, Kept, Given;
    NextSlices(cs, i, m);
    SlicesWithin(cs, i, m);
    if child.startAt < start {
      MoveChild(segment, other, Kept(cs, i, m), Given(cs, i, m), cs, child, i);
    } else {
      Swapped(segment, Kept(cs, i, m), other, Given(cs, i, m), cs, i);
      MoveChild(other, segment, Given(cs, i, m), Kept(cs, i, m), cs, child, i);
      Swapped(other, Given(cs, i + 1, m), segment, Kept(cs, i + 1, m), cs, i + 1);
    }
  }

  lemma SlicesWithin(cs: seq<Node>, i: nat, m: nat)
    requires i <= |cs| && m <= |cs|
    ensures Among(Kept(cs, i, m)) <= Among(cs[..i]) <= Among(cs) && Among(Given(cs, i, m)) <= Among(cs[..i])
  {
    forall x | x in Given(cs, i, m) ensures x in cs[..i] {
      var j :| 0 <= j < |Given(cs, i, m)| && Given(cs, i, m)[j] == x;
      assert cs[..i][m + j] == x;
    }
  }

  /** The loop of `segment_erase_middle_`: the children before `start` stay with the
      segment, the others go to the new one. */
  method Distribute(segment: Node, other: Node, start: int, ghost cs: seq<Node>, ghost m: nat)
    requires List(segment, cs) && List(other, []) && segment != other && other !in cs && m <= |cs|
    requires forall i :: 0 <= i < |cs| ==> (cs[i].startAt < start <==> i < m)
    modifies segment`children, segment`lastChild, other`children, other`lastChild, Among(cs)`parent, Among(cs)`prev, Among(cs)`next
    ensures List(segment, cs[..m]) && List(other, cs[m..])
  {
    hide List, Moving, Kept, Given, Forward;
    TakenOff(segment, other, cs);
    var child := segment.children;
    segment.children := null;
    segment.lastChild := null;
    ghost var i := 0;
    StartMoving(segment, other, cs);
    SlicesAt(cs, m);
    while child != null
      invariant i <= |cs| && Moving(segment, Kept(cs, i, m), other, Given(cs, i, m), cs, i) && child == After(cs, i - 1)
      decreases |cs| - i
    {
      NextOf(segment, Kept(cs, i, m), other, Given(cs, i, m), cs, i);
      SlicesWithin(cs, i, m);
      var next := child.next;
      MoveOne(segment, other, start, cs, m, child, i);
      child := next;
      i := i + 1;
    }
    Moved(segment, Kept(cs, i, m), other, Given(cs, i, m), cs, i);
  }

  lemma SlicesAt(cs: seq<Node>, m: nat)
    requires m <= |cs|
    ensures Kept(cs, 0, m) == [] && Given(cs, 0, m) == [] && Kept(cs, |cs|, m) == cs[..m] && Given(cs, |cs|, m) == cs[m..]
  {
  }

  lemma TakenOff(segment: Node, other: Node, cs: seq<Node>)
    requires List(segment, cs) && List(other, []) && other !in cs
    ensures Forward(cs, 0) && Distinct(cs) && segment !in cs && segment.children == After(cs, -1)
    ensures other.children == null && other.lastChild == null
  {
  }

  lemma StartMoving(a: Node, b: Node, cs: seq<Node>)
    requires a != b && a !in cs && b !in cs && Forward(cs, 0) && Distinct(cs)
    requires a.children == null && a.lastChild == null && b.children == null && b.lastChild == null
    ensures Moving(a, [], b, [], cs, 0)
  {
  }

  lemma NextOf(a: Node, l: seq<Node>, b: Node, r: seq<Node>, cs: seq<Node>, i: nat)
    requires Moving(a, l, b, r, cs, i) && i < |cs|
    ensures cs[i].next == After(cs, i)
  {
  }

  lemma Swapped(a: Node, l: seq<Node>, b: Node, r: seq<Node>, cs: seq<Node>, i: nat)
    requires Moving(a, l, b, r, cs, i)
    ensures Moving(b, r, a, l, cs, i)
  {
  }

  lemma Moved(a: Node, l: seq<Node>, b: Node, r: seq<Node>, cs: seq<Node>, i: nat)
    requires Moving(a, l, b, r, cs, i)
    ensures List(a, l) && List(b, r)
  {
  }

  // ----- merging two segments -----

  /** The second of two neighbours is taken out of the list (`segment_merge`). */
  method JoinNeighbours(first: Node, second: Node, p: Node, ghost cs: seq<Node>, ghost k: nat)
    requires List(p, cs) && k + 1 < |cs| && cs[k] == first && cs[k + 1] == second
    modifies p`lastChild, Among(cs)`prev, Among(cs)`next
    ensures List(p, cs[..k + 1] + cs[k + 2..])
  {
    if second == p.lastChild {
      p.lastChild := first;
    }
    first.next := second.next;
    if second.next != null {
      assert second.next == cs[k + 2];
      second.next.prev := first;
    }
    UnlinkedList(p, cs, k + 1);
  }

  /** The children of the second segment become children of the first, behind its own. */
  method TakeChildren(first: Node, second: Node, ghost a: seq<Node>, ghost b: seq<Node>)
    requires List(first, a) && List(second, b) && first != second && first !in b && second !in a && second !in b
    requires forall x :: x in a ==> x !in b
    modifies first`children, first`lastChild, second`children, second`lastChild,
             Among(b)`parent, Among(b)`prev, Among(a)`next
    ensures List(first, a + b) && List(second, [])
  {
    hide Linked, ChildrenOf, Distinct;
    if second.children != null {
      Reparent(first, second, b);
      if first.children == null {
        assert a == [] && a + b == b;
        first.children := second.children;
        first.lastChild := second.lastChild;
      } else {
        LinkEnds(first, second, a, b);
      }
    } else {
      assert b == [] && a + b == a;
    }
    second.children := null;
    second.lastChild := null;
    EmptyList(second);
  }

  lemma EmptyList(p: Node)
    requires p.children == null && p.lastChild == null
    ensures List(p, [])
  {
  }

  /** The end of the one list is linked to the beginning of the other. */
  method LinkEnds(first: Node, second: Node, ghost a: seq<Node>, ghost b: seq<Node>)
    requires List(first, a) && Distinct(b) && Linked(b) && ChildrenOf(first, b) && a != [] && b != []
    requires first.lastChild != null && second.children != null && second.children == First(b) && second.lastChild == Last(b)
    requires first != second && first !in b && forall x :: x in a ==> x !in b
    modifies first`lastChild, Among(b)`prev, Among(a)`next
    ensures List(first, a + b)
  {
    hide Distinct, Before, After;
    assert first.lastChild == a[|a| - 1] && second.children == b[0];
    ListLinks(first, a);
    Elsewhere(a, |a| - 1);
    Elsewhere(b, 0);
    EndsOf(a, b);
    assert allocated(Among(a)) && allocated(Among(b));
    first.lastChild.next := second.children;
    second.children.prev := first.lastChild;
    first.lastChild := second.lastChild;
    hide List, Linked, First, Last;
    Concatenated(first, a, b);
  }

  lemma EndsOf(a: seq<Node>, b: seq<Node>)
    requires a != [] && b != []
    ensures First(a) == a[0] && First(b) == b[0] && Last(b) == b[|b| - 1] && Last(a) == a[|a| - 1]
    ensures forall x :: x in a && x !in b ==> x != b[0]
  {
  }

  /** The loop over the children of the second segment. */
  method Reparent(first: Node, second: Node, ghost b: seq<Node>)
    requires List(second, b) && first !in b && first != second
    modifies Among(b)`parent
    ensures Distinct(b) && Linked(b) && ChildrenOf(first, b)
    ensures second.children == First(b) && second.lastChild == Last(b)
  {
    hide Distinct;
    var child := second.children;
    ghost var i := 0;
    while child != null
      invariant i <= |b| && child == After(b, i - 1) && Linked(b)
      invariant forall j {:trigger b[j]} :: 0 <= j < i ==> b[j].parent == first
      decreases |b| - i
    {
      assert child == b[i];
      child.parent := first;
      child := child.next;
      i := i + 1;
    }
  }

  lemma Concatenated(p: Node, a: seq<Node>, b: seq<Node>)
    requires a != [] && b != [] && Distinct(a) && Distinct(b) && p !in a && p !in b && forall x :: x in a ==> x !in b
    requires p.children == First(a) && p.lastChild == Last(b) && ChildrenOf(p, a) && ChildrenOf(p, b)
    requires forall i {:trigger a[i]} :: 0 <= i < |a| ==> a[i].prev == Before(a, i) && a[i].next == if i == |a| - 1 then b[0] else After(a, i)
    requires forall i {:trigger b[i]} :: 0 <= i < |b| ==> b[i].prev == (if i == 0 then a[|a| - 1] else Before(b, i)) && b[i].next == After(b, i)
    ensures List(p, a + b)
  {
    var r := a + b;
    forall i | 0 <= i < |r| ensures r[i].parent == p && r[i] != p && r[i].prev == Before(r, i) && r[i].next == After(r, i) {
      if i < |a| {
        assert r[i] == a[i];
      } else {
        assert r[i] == b[i - |a|];
      }
    }
    forall i, j | 0 <= i < j < |r| ensures r[i] != r[j] {
      if i < |a| && |a| <= j { assert r[i] in a && r[j] in b; }
    }
  }

  lemma TwoOf(p: Node, cs: seq<Node>, k: nat)
    requires List(p, cs) && k + 1 < |cs|
    ensures cs[k] != cs[k + 1] && cs[k] in cs && cs[k + 1] in cs && cs[k] != p && cs[k + 1] != p
  {
  }

  /** `segment_merge` on one level: afterwards the second segment is out of its parent's
      list and its children are the last children of the first. */
  method Merge(first: Node, second: Node, p: Node, ghost cs: seq<Node>, ghost k: nat, ghost a: seq<Node>, ghost b: seq<Node>)
    requires List(p, cs) && k + 1 < |cs| && cs[k] == first && cs[k + 1] == second
    requires List(first, a) && List(second, b) && p !in a && p !in b
    requires forall x :: x in cs ==> x !in a && x !in b
    requires forall x :: x in a ==> x !in b
    modifies p`lastChild, Among(cs)`prev, Among(cs)`next,
             first`children, first`lastChild, second`children, second`lastChild,
             Among(b)`parent, Among(b)`prev, Among(a)`next
    ensures List(p, cs[..k + 1] + cs[k + 2..]) && List(first, a + b) && List(second, [])
  {
    hide Linked, ChildrenOf, Distinct;
    TwoOf(p, cs, k);
    JoinNeighbours(first, second, p, cs, k);
    ghost var rest := cs[..k + 1] + cs[k + 2..];
    assert Among(rest) <= Among(cs) && allocated(Among(rest));
    assert Among(cs) !! Among(a) && Among(cs) !! Among(b);
    TakeChildren(first, second, a, b);
  }
}
