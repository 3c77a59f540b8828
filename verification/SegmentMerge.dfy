/** Merging adjacent segments with equal contexts (`segment_merge`). */
module SegmentMerge {
  import opened Wrappers
  import opened Contexts
  import opened SegmentTree
  import opened SegmentLookup
  import opened InvalidList
  import opened Labelling
  import opened Dirt
  import opened Spine

  /** The assertions of `segment_merge` for `l` and its right neighbour `r` and, `d`
      levels down, for the last child of the one and the first of the other. */
  predicate Joinable(l: Segment, r: Segment, d: nat)
    decreases d
  {
    && l.context.Some? && l.context == r.context && l.endAt == r.startAt
    && (d > 0 ==> l.children != [] && r.children != [] && Joinable(l.children[|l.children| - 1], r.children[0], d - 1))
  }

  /** The merged segment: the parents are merged before their children. */
  function Join(l: Segment, r: Segment, d: nat): Segment
    requires Joinable(l, r, d)
    decreases d
  {
    l.(endAt := r.endAt,
       children :=
         if d == 0 then l.children + r.children
         else l.children[..|l.children| - 1]
              + [Join(l.children[|l.children| - 1], r.children[0], d - 1)]
              + r.children[1..])
  }

  /** Children i and i + 1 of the toplevel segment, merged down to level `d`. */
  function Merged(t: Segment, i: nat, d: nat): Segment
    requires i + 1 < |t.children| && Joinable(t.children[i], t.children[i + 1], d)
  {
    t.(children := t.children[..i] + [Join(t.children[i], t.children[i + 1], d)] + t.children[i + 2..])
  }

  // ----- shape -----

  lemma {:induction false} JoinShape2(l: Segment, r: Segment, d: nat, p: Option<Context>)
    requires Joinable(l, r, d) && Valid(l) && Valid(r) && Fits(l.context, p)
    ensures var m := Join(l, r, d); Valid(m) && m.context == l.context && m.startAt == l.startAt && m.endAt == r.endAt
    decreases d
  {
    if d == 0 {
      JoinShape(l.children, l.startAt, l.endAt, r.children, r.endAt, l.startAt, l.context);
    } else {
      var n := |l.children| - 1;
      var x, y := l.children[n], r.children[0];
      ForestBounds(l.children, l.startAt, l.endAt, l.context);
      ForestBounds(r.children, r.startAt, r.endAt, r.context);
      JoinShape2(x, y, d - 1, l.context);
      var m := Join(x, y, d - 1);
      SliceShape(l.children, l.startAt, l.endAt, l.context, n, n);
      ForestRebound(l.children[..n], l.startAt, l.endAt, l.startAt, x.startAt, l.context);
      SingleShape(m, x.startAt, y.endAt, l.context);
      JoinShape(l.children[..n], l.startAt, x.startAt, [m], y.endAt, l.startAt, l.context);
      JoinShape(l.children[..n] + [m], l.startAt, y.endAt, r.children[1..], r.endAt, l.startAt, l.context);
    }
  }

  lemma MergedShape(t: Segment, i: nat, d: nat)
    requires ValidRoot(t) && i + 1 < |t.children| && Joinable(t.children[i], t.children[i + 1], d)
    ensures ValidRoot(Merged(t, i, d)) && Merged(t, i, d).endAt == t.endAt
  {
    var l, r := t.children[i], t.children[i + 1];
    ForestBounds(t.children, 0, t.endAt, t.context);
    JoinShape2(l, r, d, t.context);
    var m := Join(l, r, d);
    SliceShape(t.children, 0, t.endAt, t.context, i, i + 2);
    ForestRebound(t.children[..i], 0, t.endAt, 0, l.startAt, t.context);
    assert EndOf(t.children[..i + 2], 0) == r.endAt;
    SingleShape(m, l.startAt, r.endAt, t.context);
    JoinShape(t.children[..i], 0, l.startAt, [m], r.endAt, 0, t.context);
    JoinShape(t.children[..i] + [m], 0, r.endAt, t.children[i + 2..], t.endAt, 0, t.context);
  }

  // ----- contexts -----

  /** The merged segment says of each character what the two said. */
  lemma {:induction false} JoinContexts(l: Segment, r: Segment, d: nat, o: int, outer: Mark)
    requires Joinable(l, r, d) && Valid(l) && Valid(r)
    ensures MarkIn([Join(l, r, d)], o, outer).context == MarkIn([l] + [r], o, outer).context
    decreases d, 1
  {
    JoinKidsContexts(l, r, d, o);
    PairContexts(l, r, Join(l, r, d), o, outer);
  }

  lemma {:induction false} JoinKidsContexts(l: Segment, r: Segment, d: nat, o: int)
    requires Joinable(l, r, d) && Valid(l) && Valid(r)
    ensures MarkIn(Join(l, r, d).children, o, Own(l)).context == MarkIn(l.children + r.children, o, Own(l)).context
    decreases d, 0
  {
    if d > 0 {
      var n := |l.children| - 1;
      var x, y, b := l.children[n], r.children[0], r.children[1..];
      ChildBounds(l, n);
      ChildBounds(r, 0);
      JoinContexts(x, y, d - 1, o, MarkIn(b, o, Own(l)));
      ConcatContexts(l.children[..n], [x] + [y], [Join(x, y, d - 1)], b, o, Own(l));
      SplitEnds(l.children, r.children);
    }
  }

  lemma SplitEnds(cs: seq<Segment>, ds: seq<Segment>)
    requires cs != [] && ds != []
    ensures cs + ds == cs[..|cs| - 1] + ([cs[|cs| - 1]] + [ds[0]]) + ds[1..]
  {
  }

  lemma PairContexts(l: Segment, r: Segment, m: Segment, o: int, outer: Mark)
    requires Valid(l) && Valid(r) && r.context == l.context && l.endAt == r.startAt
    requires Own(m) == Own(l) && m.endAt == r.endAt
    requires MarkIn(m.children, o, Own(l)).context == MarkIn(l.children + r.children, o, Own(l)).context
    ensures MarkIn([m], o, outer).context == MarkIn([l] + [r], o, outer).context
  {
    MarkSingle(m, o, outer);
    MarkAppend([l], [r], o, outer);
    MarkSingle(l, o, MarkIn([r], o, outer));
    MarkSingle(r, o, outer);
    SideContexts(l, r, o);
  }

  /** Each of two adjacent segments answers for its own characters. */
  lemma SideContexts(l: Segment, r: Segment, o: int)
    requires Valid(l) && Valid(r) && l.context == r.context && l.endAt == r.startAt
    ensures l.Covers(o) ==> MarkIn(l.children + r.children, o, Own(l)).context == MarkAt(l, o).context
    ensures r.Covers(o) ==> MarkIn(l.children + r.children, o, Own(l)).context == MarkAt(r, o).context
  {
    ForestBounds(l.children, l.startAt, l.endAt, l.context);
    ForestBounds(r.children, r.startAt, r.endAt, r.context);
    MarkAppend(l.children, r.children, o, Own(l));
    if l.Covers(o) {
      MarkUncovered(r.children, o, Own(l));
    } else if r.Covers(o) {
      MarkUncovered(l.children, o, MarkIn(r.children, o, Own(l)));
      OuterContext(r.children, o, Own(l), Own(r));
    }
  }

  /** The context found depends on the context outside only. */
  lemma {:induction false} OuterContext(cs: seq<Segment>, o: int, m: Mark, m': Mark)
    requires m.context == m'.context
    ensures MarkIn(cs, o, m).context == MarkIn(cs, o, m').context
    decreases cs
  {
    if cs != [] && !cs[0].Covers(o) { OuterContext(cs[1..], o, m, m'); }
  }

  lemma ConcatContexts(a: seq<Segment>, x: seq<Segment>, y: seq<Segment>, b: seq<Segment>, o: int, outer: Mark)
    requires MarkIn(y, o, MarkIn(b, o, outer)).context == MarkIn(x, o, MarkIn(b, o, outer)).context
    ensures MarkIn(a + y + b, o, outer).context == MarkIn(a + x + b, o, outer).context
  {
    MarkAppend(a + y, b, o, outer);
    MarkAppend(a, y, o, MarkIn(b, o, outer));
    MarkAppend(a + x, b, o, outer);
    MarkAppend(a, x, o, MarkIn(b, o, outer));
    OuterContext(a, o, MarkIn(x, o, MarkIn(b, o, outer)), MarkIn(y, o, MarkIn(b, o, outer)));
  }

  lemma MergedContexts(t: Segment, i: nat, d: nat, o: int)
    requires ValidRoot(t) && i + 1 < |t.children| && Joinable(t.children[i], t.children[i + 1], d)
    ensures ContextAt(Merged(t, i, d), o) == ContextAt(t, o)
  {
    var l, r, a, b := t.children[i], t.children[i + 1], t.children[..i], t.children[i + 2..];
    ForestBounds(t.children, 0, t.endAt, t.context);
    JoinContexts(l, r, d, o, MarkIn(b, o, Own(t)));
    ConcatContexts(a, [l] + [r], [Join(l, r, d)], b, o, Own(t));
    assert t.children == a + ([l] + [r]) + b;
  }

  // ----- what is to be analyzed -----

  /** Merging takes no invalid segment away and adds no lost beginning. */
  ghost predicate MergedDirt(s: seq<Segment>, t: seq<Segment>) {
    && (forall x, y :: Dirty(t, x, y) <==> Dirty(s, x, y))
    && (forall q :: NonStart(t, q) ==> NonStart(s, q))
    && (Solid(s) ==> Solid(t))
  }

  lemma MergedDirtInList(l: seq<Segment>, m: seq<Segment>, m': seq<Segment>, r: seq<Segment>)
    requires MergedDirt(m, m')
    ensures MergedDirt(l + m + r, l + m' + r)
  {
    forall x, y ensures Dirty(l + m' + r, x, y) <==> Dirty(l + m + r, x, y) {
      DirtyAppend(l + m, r, x, y);
      DirtyAppend(l, m, x, y);
      DirtyAppend(l + m', r, x, y);
      DirtyAppend(l, m', x, y);
    }
    forall q | NonStart(l + m' + r, q) ensures NonStart(l + m + r, q) {
      NonStartAppend(l + m, r, q);
      NonStartAppend(l, m, q);
      NonStartAppend(l + m', r, q);
      NonStartAppend(l, m', q);
    }
    SolidAppend(l + m, r);
    SolidAppend(l, m);
    SolidAppend(l + m', r);
    SolidAppend(l, m');
  }

  lemma PairDirt(l: Segment, r: Segment, m: Segment)
    requires l.context.Some? && r.context == l.context && m.context == l.context
    requires m.startAt == l.startAt && m.isStart == l.isStart && m.endAt == r.endAt && l.endAt == r.startAt
    requires MergedDirt(l.children + r.children, m.children)
    ensures MergedDirt([l] + [r], [m])
  {
    forall x, y ensures Dirty([m], x, y) <==> Dirty([l] + [r], x, y) {
      DirtySingle(m, x, y);
      DirtyAppend([l], [r], x, y);
      DirtySingle(l, x, y);
      DirtySingle(r, x, y);
      DirtyAppend(l.children, r.children, x, y);
    }
    forall q | NonStart([m], q) ensures NonStart([l] + [r], q) {
      NonStartSingle(m, q);
      NonStartAppend([l], [r], q);
      NonStartSingle(l, q);
      NonStartSingle(r, q);
      NonStartAppend(l.children, r.children, q);
    }
    SolidSingle(m);
    SolidAppend([l], [r]);
    SolidSingle(l);
    SolidSingle(r);
    SolidAppend(l.children, r.children);
  }

  lemma {:induction false} JoinKidsDirt(l: Segment, r: Segment, d: nat)
    requires Joinable(l, r, d)
    ensures MergedDirt(l.children + r.children, Join(l, r, d).children)
    decreases d
  {
    if d > 0 {
      var n := |l.children| - 1;
      var x, y := l.children[n], r.children[0];
      JoinKidsDirt(x, y, d - 1);
      PairDirt(x, y, Join(x, y, d - 1));
      MergedDirtInList(l.children[..n], [x] + [y], [Join(x, y, d - 1)], r.children[1..]);
      assert l.children + r.children == l.children[..n] + ([x] + [y]) + r.children[1..];
    }
  }

  lemma MergedRootDirt(t: Segment, i: nat, d: nat)
    requires i + 1 < |t.children| && Joinable(t.children[i], t.children[i + 1], d)
    ensures MergedDirt(t.children, Merged(t, i, d).children)
  {
    var l, r := t.children[i], t.children[i + 1];
    JoinKidsDirt(l, r, d);
    PairDirt(l, r, Join(l, r, d));
    MergedDirtInList(t.children[..i], [l] + [r], [Join(l, r, d)], t.children[i + 2..]);
    assert t.children == t.children[..i] + ([l] + [r]) + t.children[i + 2..];
  }

  // ----- the assertions hold at the end of a line -----

  /** Equal contexts at the ends of two paths of one length have equal ancestors. */
  lemma {:induction false} SameAncestors(l: Segment, r: Segment, p: Path, q: Path)
    requires Valid(l) && Valid(r) && IsPath(l, p) && IsPath(r, q) && |p| == |q|
    requires At(l, p).context.Some? && At(l, p).context == At(r, q).context
    ensures l.context.Some? && l.context == r.context
    decreases p
  {
    if p != [] {
      ChildBounds(l, p[0]);
      ChildBounds(r, q[0]);
      SameAncestors(l.children[p[0]], r.children[q[0]], p[1..], q[1..]);
    }
  }

  /** Nothing lies between the state that ends at `x` and a segment that begins there
      when no segment is empty at `x`. */
  lemma {:induction false} JoinableDown(l: Segment, r: Segment, p: Path, q: Path, x: int)
    requires Valid(l) && Valid(r) && Open(l, p, x, x) && IsPath(l, p) && IsDeepest(r, q, x) && |p| == |q|
    requires At(l, p).context.Some? && At(l, p).context == At(r, q).context
    requires l.endAt == x == r.startAt
    requires NothingEmpty(l.children, x) && NothingEmpty(r.children, x)
    ensures Joinable(l, r, |p|)
    decreases p
  {
    SameAncestors(l, r, p, q);
    if p != [] {
      var cs, ds := l.children, r.children;
      ForestBounds(cs, l.startAt, l.endAt, l.context);
      ForestBounds(ds, r.startAt, r.endAt, r.context);
      NothingEmptyAt(cs, x);
      NothingEmptyAt(ds, x);
      WithinSegment(ds[q[0]], q[1..]);
      assert p[0] == |cs| - 1;
      assert q[0] == 0;
      JoinableDown(cs[p[0]], ds[0], p[1..], q[1..], x);
    }
  }

  /** No segment of the forest, at any depth, is empty at `x`. */
  predicate NothingEmpty(cs: seq<Segment>, x: int) {
    cs != [] ==> !EmptyAt(cs[0], x) && NothingEmpty(cs[0].children, x) && NothingEmpty(cs[1..], x)
  }

  lemma {:induction false} NothingEmptyAt(cs: seq<Segment>, x: int)
    requires NothingEmpty(cs, x)
    ensures forall i :: 0 <= i < |cs| ==> !EmptyAt(cs[i], x) && NothingEmpty(cs[i].children, x)
    decreases cs
  {
    if cs != [] { NothingEmptyAt(cs[1..], x); }
  }

  lemma {:induction false} CleanNothingEmpty(cs: seq<Segment>, x: int)
    requires Solid(cs) && !Dirty(cs, x, x + 1)
    ensures NothingEmpty(cs, x)
    decreases cs
  {
    if cs != [] {
      CleanNothingEmpty(cs[0].children, x);
      CleanNothingEmpty(cs[1..], x);
    }
  }

  lemma Neighbours(cs: seq<Segment>, lo: int, hi: int, p: Option<Context>, i: nat, j: nat, x: int)
    requires ValidForest(cs, lo, hi, p) && NothingEmpty(cs, x) && i < |cs| && j < |cs|
    requires cs[i].endAt == x && cs[j].Covers(x)
    ensures j == i + 1 && cs[j].startAt == x
    ensures Valid(cs[i]) && Valid(cs[j]) && NothingEmpty(cs[i].children, x) && NothingEmpty(cs[j].children, x)
  {
    ForestBounds(cs, lo, hi, p);
    NothingEmptyAt(cs, x);
    assert i < j;
    var k := i + 1;
    assert !EmptyAt(cs[k], x);
  }

  /** At the end `x` of a line the state and the next character's segment are in
      adjacent children of the toplevel segment. */
  lemma MergeApplies(t: Segment, p: Path, q: Path, x: int)
    requires ValidRoot(t) && Open(t, p, x, x) && IsPath(t, p) && p != [] && IsDeepest(t, q, x)
    requires At(t, p).context.Some? && At(t, p).context == At(t, q).context && NothingEmpty(t.children, x)
    ensures |q| == |p| && q[0] == p[0] + 1 < |t.children|
    ensures Joinable(t.children[p[0]], t.children[p[0] + 1], |p| - 1)
  {
    PathDepth(t, p);
    PathDepth(t, q);
    var l, r := t.children[p[0]], t.children[q[0]];
    DeepestCovers(t, q, x);
    Neighbours(t.children, 0, t.endAt, t.context, p[0], q[0], x);
    JoinableDown(l, r, p[1..], q[1..], x);
  }

  lemma DeepestCovers(s: Segment, q: Path, x: int)
    requires Valid(s) && q != [] && IsDeepest(s, q, x)
    ensures s.children[q[0]].Covers(x) && IsDeepest(s.children[q[0]], q[1..], x)
  {
    ForestBounds(s.children, s.startAt, s.endAt, s.context);
    WithinSegment(s.children[q[0]], q[1..]);
  }
}
