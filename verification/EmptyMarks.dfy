/** Empty invalid segments: where they are after `update_tree`.  Away from the region no new
    ones appear, so a line there is to be analyzed only if it was before, or if a character of
    it has lost its context. */
module EmptyMarks {
  import opened Wrappers
  import opened Contexts
  import opened SegmentTree
  import opened SegmentErase
  import opened SegmentInsert
  import opened SegmentCreate
  import opened Labelling
  import opened Dirt
  import opened TreeUpdate

  /** Some invalid segment of the forest, at any depth, is empty and at `q`. */
  predicate Hollow(cs: seq<Segment>, q: int) {
    cs != [] &&
    ( (cs[0].IsInvalid() && cs[0].startAt == q == cs[0].endAt)
      || Hollow(cs[0].children, q)
      || Hollow(cs[1..], q))
  }

  lemma HollowAppend(a: seq<Segment>, b: seq<Segment>, q: int)
    ensures Hollow(a + b, q) <==> Hollow(a, q) || Hollow(b, q)
    decreases a
  {
    if a == [] {
      assert a + b == b;
    } else {
      assert (a + b)[1..] == a[1..] + b;
      HollowAppend(a[1..], b, q);
    }
  }

  lemma HollowSingle(s: Segment, q: int)
    ensures Hollow([s], q) <==> (s.IsInvalid() && s.startAt == q == s.endAt) || Hollow(s.children, q)
  {
    assert [s][1..] == [];
  }

  lemma HollowNone(q: int)
    ensures !Hollow([], q)
  {
  }

  lemma {:induction false} HollowWithin(cs: seq<Segment>, lo: int, hi: int, p: Option<Context>, q: int)
    requires ValidForest(cs, lo, hi, p) && Hollow(cs, q)
    ensures lo <= q <= hi
    decreases cs
  {
    ForestBounds(cs, lo, hi, p);
    if Hollow(cs[0].children, q) {
      HollowWithin(cs[0].children, cs[0].startAt, cs[0].endAt, cs[0].context, q);
    } else if Hollow(cs[1..], q) {
      HollowWithin(cs[1..], cs[0].endAt, hi, p, q);
    }
  }

  lemma {:induction false} ShiftHollow(cs: seq<Segment>, d: int, q: int)
    ensures Hollow(ShiftAll(cs, d), q + d) <==> Hollow(cs, q)
    decreases cs
  {
    if cs != [] {
      assert ShiftAll(cs, d)[1..] == ShiftAll(cs[1..], d);
      ShiftHollow(cs[0].children, d, q);
      ShiftHollow(cs[1..], d, q);
    }
  }

  /** An invalid segment that meets a range is an empty one in it, or holds a character of it. */
  lemma {:induction false} DirtyCause(cs: seq<Segment>, lo: int, hi: int, p: Option<Context>, x: int, y: int, outer: Mark) returns (q: int)
    requires ValidForest(cs, lo, hi, p) && Dirty(cs, x, y) && x < y
    ensures x <= q < y && lo <= q <= hi
    ensures Hollow(cs, q) || (q < hi && Covered(cs, q) && MarkIn(cs, q, outer).context == None)
    decreases cs
  {
    var c := cs[0];
    ForestBounds(cs, lo, hi, p);
    assert cs == [c] + cs[1..];
    if c.IsInvalid() && Meets(c, x, y) {
      q := if x <= c.startAt then c.startAt else x;
      CoveredAppend([c], cs[1..], q);
      CoveredSingle(c, q);
      assert c.children == [];
      if c.startAt < c.endAt { assert MarkIn(cs, q, outer) == MarkAt(c, q) == Own(c); }
    } else if Dirty(c.children, x, y) {
      q := DirtyCause(c.children, c.startAt, c.endAt, c.context, x, y, Own(c));
      CoveredAppend([c], cs[1..], q);
      CoveredSingle(c, q);
    } else {
      q := DirtyCause(cs[1..], c.endAt, hi, p, x, y, outer);
      CoveredAppend([c], cs[1..], q);
    }
  }

  /** An empty invalid segment makes the ranges around it dirty. */
  lemma {:induction false} HollowIsDirty(cs: seq<Segment>, q: int, x: int, y: int)
    requires Hollow(cs, q) && x <= q < y
    ensures Dirty(cs, x, y)
    decreases cs
  {
    if cs[0].IsInvalid() && cs[0].startAt == q == cs[0].endAt {
    } else if Hollow(cs[0].children, q) {
      HollowIsDirty(cs[0].children, q, x, y);
    } else {
      HollowIsDirty(cs[1..], q, x, y);
    }
  }

  // ----- inserting -----

  ghost predicate InsertedHollow(before: seq<Segment>, after: seq<Segment>, offset: int, length: nat, q: int) {
    && (q < offset ==> Hollow(after, q) ==> Hollow(before, q))
    && (q > offset + length ==> Hollow(after, q) ==> Hollow(before, q - length))
  }

  lemma ListHollow(l: seq<Segment>, x: seq<Segment>, m: seq<Segment>, r: seq<Segment>,
                   lo: int, mid: int, end: int, hi: int, p: Option<Context>, offset: int, length: nat, q: int)
    requires ValidForest(l, lo, mid, p) && ValidForest(r, end, hi, p) && mid <= offset <= end
    requires InsertedHollow(x, m, offset, length, q)
    ensures InsertedHollow(l + x + r, l + m + ShiftAll(r, length), offset, length, q)
  {
    hide Hollow, ValidForest, ShiftAll;
    HollowAppend(l + m, ShiftAll(r, length), q);
    HollowAppend(l, m, q);
    HollowAppend(l + x, r, q);
    HollowAppend(l, x, q);
    HollowAppend(l + x, r, q - length);
    HollowAppend(l, x, q - length);
    ShiftHollow(r, length, q - length);
    if Hollow(l, q) { HollowWithin(l, lo, mid, p, q); }
    if Hollow(r, q - length) { HollowWithin(r, end, hi, p, q - length); }
  }

  lemma HereHollow(s: Segment, k: nat, offset: int, length: nat, q: int)
    requires Valid(s) && IsPlace(s, [], k, offset)
    ensures InsertedHollow([s], InsertHere(s, k, offset, length), offset, length, q)
  {
    hide Hollow, ValidForest, ShiftAll;
    HollowSingle(s, q);
    HollowSingle(s, q - length);
    HollowNone(q);
    HollowNone(q - length);
    if s.IsSimple() && s.startAt < offset < s.endAt {
      HollowSingle(InvalidSegment(offset, offset + length), q);
      ThreeHollow(s.(endAt := offset), InvalidSegment(offset, offset + length), Segment(s.context, offset + length, s.endAt + length, false, []), q);
    } else {
      HollowSingle(InsertHere(s, k, offset, length)[0], q);
      if s.IsContainer() { GapHollow(s, k, offset, length, q); }
    }
  }

  lemma ThreeHollow(x: Segment, i: Segment, y: Segment, q: int)
    requires x.context.Some? && y.context.Some? && x.children == [] && y.children == [] && i.children == []
    ensures Hollow([x, i, y], q) <==> Hollow([i], q)
  {
    hide Hollow;
    assert [x, i, y] == [x] + [i] + [y];
    HollowAppend([x] + [i], [y], q);
    HollowAppend([x], [i], q);
    HollowSingle(x, q);
    HollowSingle(y, q);
    HollowNone(q);
  }

  lemma GapHollow(s: Segment, k: nat, offset: int, length: nat, q: int)
    requires Valid(s) && IsPlace(s, [], k, offset)
    ensures InsertedHollow(s.children, s.children[..k] + [InvalidSegment(offset, offset + length)] + ShiftAll(s.children[k..], length), offset, length, q)
  {
    hide Hollow, ValidForest, ShiftAll;
    var i := InvalidSegment(offset, offset + length);
    SliceShape(s.children, s.startAt, s.endAt, s.context, k, k);
    ForestRebound(s.children[..k], s.startAt, s.endAt, s.startAt, offset, s.context);
    ForestRebound(s.children[k..], EndOf(s.children[..k], s.startAt), s.endAt, offset, s.endAt, s.context);
    HollowSingle(i, q);
    HollowNone(q);
    HollowNone(q - length);
    ListHollow(s.children[..k], [], [i], s.children[k..], s.startAt, offset, offset, s.endAt, s.context, offset, length, q);
    assert s.children == s.children[..k] + [] + s.children[k..];
  }

  lemma {:induction false} AlongHollow(s: Segment, path: Path, k: nat, offset: int, length: nat, q: int)
    requires Valid(s) && IsPlace(s, path, k, offset) && IsPath(s, path) && k <= |At(s, path).children|
    ensures InsertedHollow([s], InsertAlong(s, path, k, offset, length), offset, length, q)
    decreases path
  {
    if path == [] {
      HereHollow(s, k, offset, length, q);
    } else {
      var c := s.children[path[0]];
      ChildBounds(s, path[0]);
      AlongHollow(c, path[1..], k, offset, length, q);
      ChildHollow(s, path[0], InsertAlong(c, path[1..], k, offset, length), offset, length, q);
    }
  }

  lemma ChildHollow(s: Segment, i: nat, m: seq<Segment>, offset: int, length: nat, q: int)
    requires Valid(s) && i < |s.children| && s.children[i].Touches(offset)
    requires InsertedHollow([s.children[i]], m, offset, length, q)
    ensures InsertedHollow([s],
      [s.(endAt := s.endAt + length, children := s.children[..i] + m + ShiftAll(s.children[i + 1..], length))],
      offset, length, q)
  {
    var c, l, r := s.children[i], s.children[..i], s.children[i + 1..];
    SliceShape(s.children, s.startAt, s.endAt, s.context, i, i + 1);
    assert EndOf(s.children[..i + 1], s.startAt) == c.endAt;
    PrefixShape(s.children, s.startAt, s.endAt, s.context, i);
    ListHollow(l, [c], m, r, s.startAt, c.startAt, c.endAt, s.endAt, s.context, offset, length, q);
    assert s.children == l + [c] + r;
    HollowSingle(s, q);
    HollowSingle(s, q - length);
    HollowSingle(s.(endAt := s.endAt + length, children := l + m + ShiftAll(r, length)), q);
  }

  lemma InsertedHollowAt(root: Segment, r: Segment, offset: nat, length: nat, q: int)
    requires ValidRoot(root) && InsertedAt(root, r, offset, length)
    ensures InsertedHollow(root.children, r.children, offset, length, q)
  {
    hide Hollow, Innermost, HasInvalid;
    if r != root {
      var path: Path, k: nat :| IsPlace(root, path, k, offset) && IsPath(root, path) && Innermost(root, path, offset) && r == Inserted(root, path, k, offset, length);
      InsertedHollowPath(root, path, k, r, offset, length, q);
    }
  }

  lemma InsertedHollowPath(root: Segment, path: Path, k: nat, r: Segment, offset: nat, length: nat, q: int)
    requires ValidRoot(root) && IsPlace(root, path, k, offset) && IsPath(root, path) && r == Inserted(root, path, k, offset, length)
    ensures InsertedHollow(root.children, r.children, offset, length, q)
  {
    PlaceIsPath(root, path, k, offset);
    assert InsertAlong(root, path, k, offset, length) == [r];
    hide Hollow, Inserted, InsertAlong, IsPlace, ValidForest;
    AlongHollow(root, path, k, offset, length, q);
    HollowSingle(root, q);
    HollowSingle(root, q - length);
    HollowSingle(r, q);
  }

  // ----- erasing -----

  lemma {:induction false} EraseRangeHollow(s: Segment, a: int, b: int, p: Option<Context>, q: int)
    requires a < b && Valid(s) && Fits(s.context, p) && Hollow(EraseRange(s, a, b), q)
    ensures Hollow([s], q)
    decreases s, 1
  {
    HollowSingle(s, q);
    if s.startAt == s.endAt || s.startAt > b || s.endAt < a || (s.startAt >= a && s.endAt <= b) {
      assert EraseRange(s, a, b) == [] || EraseRange(s, a, b) == [s];
    } else {
      KidsOfErase(s, a, b);
      PartsHollow(s, Kids(s, a, b), a, b, q);
      EraseForestHollow(s.children, s.startAt, s.endAt, a, b, s.context, q);
    }
  }

  lemma PartsHollow(s: Segment, kids: seq<Segment>, a: int, b: int, q: int)
    requires a < b && s.startAt < s.endAt && s.startAt <= b && s.endAt >= a && !(s.startAt >= a && s.endAt <= b)
    requires Hollow(
      if s.startAt < a && s.endAt > b then EraseMiddle(s, kids, a, b)
      else if s.endAt > b then [s.(startAt := b, isStart := false, children := kids)]
      else [s.(endAt := a, children := kids)], q)
    ensures Hollow(kids, q)
  {
    hide Hollow;
    if s.startAt < a && s.endAt > b {
      var k := LeftCount(kids, a);
      var l, r := s.(endAt := a, children := kids[..k]), Segment(s.context, b, s.endAt, false, kids[k..]);
      assert EraseMiddle(s, kids, a, b) == [l] + [r];
      HollowAppend([l], [r], q);
      HollowSingle(l, q);
      HollowSingle(r, q);
      assert kids == kids[..k] + kids[k..];
      HollowAppend(kids[..k], kids[k..], q);
    } else if s.endAt > b {
      HollowSingle(s.(startAt := b, isStart := false, children := kids), q);
    } else {
      HollowSingle(s.(endAt := a, children := kids), q);
    }
  }

  lemma {:induction false} EraseForestHollow(cs: seq<Segment>, lo: int, hi: int, a: int, b: int, p: Option<Context>, q: int)
    requires a < b && ValidForest(cs, lo, hi, p)
    ensures Hollow(EraseForest(cs, a, b), q) ==> Hollow(cs, q)
    decreases cs, 0
  {
    if cs != [] && Hollow(EraseForest(cs, a, b), q) {
      HollowAppend(EraseRange(cs[0], a, b), EraseForest(cs[1..], a, b), q);
      HollowSingle(cs[0], q);
      if Hollow(EraseRange(cs[0], a, b), q) { EraseRangeHollow(cs[0], a, b, p, q); }
      EraseForestHollow(cs[1..], cs[0].endAt, hi, a, b, p, q);
    }
  }

  lemma DeletedHollow(root: Segment, a: int, b: int, q: int)
    requires ValidRoot(root) && 0 <= a < b <= root.endAt && Hollow(Deleted(root, a, b).children, q)
    ensures q < a ==> Hollow(root.children, q)
    ensures q > a ==> Hollow(root.children, q - (a - b))
  {
    hide Hollow, ValidForest, ShiftAll, EraseForest, Deleted;
    var l, r := DeletedParts(root, a, b);
    HollowAppend(l, ShiftAll(r, a - b), q);
    HollowAppend(l, r, q);
    HollowAppend(l, r, q + (b - a));
    if Hollow(l, q) { HollowWithin(l, 0, a, root.context, q); }
    ShiftHollow(r, a - b, q + (b - a));
    if Hollow(r, q + (b - a)) { HollowWithin(r, b, root.endAt, root.context, q + (b - a)); }
    EraseForestHollow(root.children, 0, root.endAt, a, b, root.context, q);
    EraseForestHollow(root.children, 0, root.endAt, a, b, root.context, q + (b - a));
  }

  lemma InvalidatedHollow(root: Segment, r: Segment, a: nat, b: nat, q: int)
    requires ValidRoot(root) && a < b <= root.endAt && InvalidatedAt(root, r, a, b) && Hollow(r.children, q)
    ensures Hollow(root.children, q)
  {
    var kids, i := EraseForest(root.children, a, b), InvalidSegment(a, b);
    var k: nat :| k <= |kids| && IsPosition(kids, k, a, b) && r == Invalidated(root, a, b, k);
    assert kids == kids[..k] + kids[k..] && r.children == kids[..k] + [i] + kids[k..];
    HollowAppend(kids[..k] + [i], kids[k..], q);
    HollowAppend(kids[..k], [i], q);
    HollowSingle(i, q);
    HollowAppend(kids[..k], kids[k..], q);
    EraseForestHollow(root.children, 0, root.endAt, a, b, root.context, q);
  }

  // ----- update_tree -----

  lemma AdjustedHollow(root: Segment, r: Segment, start: int, end: int, delta: int, q: int)
    requires ValidRoot(root) && IsRegion(root, start, end, delta) && AdjustedBy(root, r, start, end, delta) && Hollow(r.children, q)
    ensures q < start ==> Hollow(root.children, q)
    ensures q > end ==> Hollow(root.children, q - delta)
  {
    hide Hollow;
    if delta > 0 {
      InsertedHollowAt(root, r, start, delta, q);
    } else if delta < 0 {
      DeletedHollow(root, end, end - delta, q);
    }
  }

  lemma SettledHollow(middle: Segment, r: Segment, start: int, end: int, delta: int, q: int)
    requires ValidRoot(middle) && 0 <= start <= end <= middle.endAt && SettledBy(middle, r, start, end, delta)
    requires Hollow(r.children, q) && q != start
    ensures Hollow(middle.children, q)
  {
    hide Hollow;
    var e := if delta <= 0 then start else start + delta;
    if e < end { InvalidatedHollow(middle, r, e, end, q); } else { InsertedHollowAt(middle, r, start, 0, q); }
  }

  /** Away from the region every empty invalid segment was there before. */
  lemma UpdatedHollow(root: Segment, r: Segment, start: int, end: int, delta: int, q: int)
    requires ValidRoot(root) && IsRegion(root, start, end, delta) && UpdatedBy(root, r, start, end, delta) && Hollow(r.children, q)
    ensures q < start ==> Hollow(root.children, q)
    ensures q > end ==> Hollow(root.children, q - delta)
  {
    hide Hollow, AdjustedBy, SettledBy;
    var middle :| AdjustedBy(root, middle, start, end, delta) && ValidRoot(middle) && SettledBy(middle, r, start, end, delta);
    AdjustedFacts(root, middle, start, end, delta);
    AdjustedLength(root, middle, start, end, delta);
    if q < start || q > end {
      SettledHollow(middle, r, start, end, delta, q);
      AdjustedHollow(root, middle, start, end, delta, q);
    }
  }

  /** A range away from the region in which every character has a context is to be analyzed
      only if it was before. */
  lemma UpdatedClean(root: Segment, r: Segment, start: int, end: int, delta: int, x: int, y: int)
    requires ValidRoot(root) && IsRegion(root, start, end, delta) && UpdatedBy(root, r, start, end, delta) && ValidRoot(r)
    requires 0 <= x < y && (y <= start || end < x) && Dirty(r.children, x, y)
    requires forall o :: x <= o < y && o < r.endAt ==> ContextAt(r, o).Some?
    ensures y <= start ==> Dirty(root.children, x, y)
    ensures end < x ==> Dirty(root.children, x - delta, y - delta)
  {
    hide Hollow, UpdatedBy, Dirty;
    var q := DirtyCause(r.children, 0, r.endAt, r.context, x, y, Own(r));
    assert ContextAt(r, q) == None ==> q >= r.endAt;
    UpdatedHollow(root, r, start, end, delta, q);
    if y <= start { HollowIsDirty(root.children, q, x, y); } else { HollowIsDirty(root.children, q - delta, x - delta, y - delta); }
  }
}
