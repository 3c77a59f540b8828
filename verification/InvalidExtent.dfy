/** How far the invalid segments of an analyzed tree reach after one edit. */
module InvalidExtent {
  import opened Wrappers
  import opened Contexts
  import opened SegmentTree
  import opened SegmentErase
  import opened SegmentInsert
  import opened SegmentRemove
  import opened InvalidList
  import opened Labelling
  import opened Dirt

  /** No invalid segment of the forest, at any depth, is empty. */
  predicate Filled(cs: seq<Segment>) {
    cs != [] ==>
      && (cs[0].IsInvalid() ==> cs[0].startAt < cs[0].endAt)
      && Filled(cs[0].children)
      && Filled(cs[1..])
  }

  lemma FilledAppend(a: seq<Segment>, b: seq<Segment>)
    ensures Filled(a + b) <==> Filled(a) && Filled(b)
    decreases a
  {
    if a == [] {
      assert a + b == b;
    } else {
      assert (a + b)[1..] == a[1..] + b;
      FilledAppend(a[1..], b);
    }
  }

  lemma FilledSingle(s: Segment)
    ensures Filled([s]) <==> (s.IsInvalid() ==> s.startAt < s.endAt) && Filled(s.children)
  {
    assert [s][1..] == [];
  }

  // ----- erasing -----

  lemma {:induction false} EraseRangeFilled(s: Segment, a: int, b: int, p: Option<Context>)
    requires a < b && Valid(s) && Fits(s.context, p) && Filled([s])
    ensures Filled(EraseRange(s, a, b))
    decreases s, 1
  {
    FilledSingle(s);
    if s.startAt == s.endAt || s.startAt > b || s.endAt < a || (s.startAt >= a && s.endAt <= b) {
      assert EraseRange(s, a, b) == [] || EraseRange(s, a, b) == [s];
    } else {
      KidsOfErase(s, a, b);
      EraseForestFilled(s.children, s.startAt, s.endAt, a, b, s.context);
      if s.startAt < a && s.endAt > b {
        MiddleFilled(s, Kids(s, a, b), a, b);
      } else {
        FilledSingle(EraseRange(s, a, b)[0]);
      }
    }
  }

  lemma MiddleFilled(s: Segment, kids: seq<Segment>, a: int, b: int)
    requires s.startAt < a < b < s.endAt && Filled(kids)
    ensures Filled(EraseMiddle(s, kids, a, b))
  {
    var k := LeftCount(kids, a);
    var l, r := s.(endAt := a, children := kids[..k]), Segment(s.context, b, s.endAt, false, kids[k..]);
    assert EraseMiddle(s, kids, a, b) == [l] + [r];
    assert kids == kids[..k] + kids[k..];
    FilledAppend(kids[..k], kids[k..]);
    FilledAppend([l], [r]);
    FilledSingle(l);
    FilledSingle(r);
  }

  lemma {:induction false} EraseForestFilled(cs: seq<Segment>, lo: int, hi: int, a: int, b: int, p: Option<Context>)
    requires a < b && ValidForest(cs, lo, hi, p) && Filled(cs)
    ensures Filled(EraseForest(cs, a, b))
    decreases cs, 0
  {
    if cs != [] {
      FilledSingle(cs[0]);
      EraseRangeFilled(cs[0], a, b, p);
      EraseForestFilled(cs[1..], cs[0].endAt, hi, a, b, p);
      FilledAppend(EraseRange(cs[0], a, b), EraseForest(cs[1..], a, b));
    }
  }

  /** Erasing makes nothing invalid. */
  lemma {:induction false} EraseRangeCount(s: Segment, a: int, b: int, p: Option<Context>)
    requires a < b && Valid(s) && Fits(s.context, p) && InvalidCount([s]) == 0
    ensures InvalidCount(EraseRange(s, a, b)) == 0
    decreases s, 1
  {
    CountSingle(s);
    if s.startAt == s.endAt || s.startAt > b || s.endAt < a || (s.startAt >= a && s.endAt <= b) {
      assert EraseRange(s, a, b) == [] || EraseRange(s, a, b) == [s];
    } else {
      KidsOfErase(s, a, b);
      EraseForestCount(s.children, s.startAt, s.endAt, a, b, s.context);
      if s.startAt < a && s.endAt > b {
        MiddleCount(s, Kids(s, a, b), a, b);
      } else {
        CountSingle(EraseRange(s, a, b)[0]);
      }
    }
  }

  lemma MiddleCount(s: Segment, kids: seq<Segment>, a: int, b: int)
    requires s.startAt < a < b < s.endAt && InvalidCount(kids) == 0 && !s.IsInvalid()
    ensures InvalidCount(EraseMiddle(s, kids, a, b)) == 0
  {
    var k := LeftCount(kids, a);
    var l, r := s.(endAt := a, children := kids[..k]), Segment(s.context, b, s.endAt, false, kids[k..]);
    assert EraseMiddle(s, kids, a, b) == [l] + [r];
    assert kids == kids[..k] + kids[k..];
    CountAppend(kids[..k], kids[k..]);
    CountAppend([l], [r]);
    CountSingle(l);
    CountSingle(r);
  }

  lemma {:induction false} EraseForestCount(cs: seq<Segment>, lo: int, hi: int, a: int, b: int, p: Option<Context>)
    requires a < b && ValidForest(cs, lo, hi, p) && InvalidCount(cs) == 0
    ensures InvalidCount(EraseForest(cs, a, b)) == 0
    decreases cs, 0
  {
    if cs != [] {
      CountSingle(cs[0]);
      EraseRangeCount(cs[0], a, b, p);
      EraseForestCount(cs[1..], cs[0].endAt, hi, a, b, p);
      CountAppend(EraseRange(cs[0], a, b), EraseForest(cs[1..], a, b));
    }
  }

  lemma DeletedCount(root: Segment, a: int, b: int)
    requires ValidRoot(root) && 0 <= a < b <= root.endAt && InvalidCount(root.children) == 0
    ensures InvalidCount(Deleted(root, a, b).children) == 0
  {
    var l, r := DeletedParts(root, a, b);
    EraseForestCount(root.children, 0, root.endAt, a, b, root.context);
    CountAppend(l, r);
    CountShift(r, a - b);
    CountAppend(l, ShiftAll(r, a - b));
  }

  // ----- few invalid segments -----

  lemma {:induction false} NoneFilled(cs: seq<Segment>)
    requires InvalidCount(cs) == 0
    ensures Filled(cs)
    decreases cs
  {
    if cs != [] {
      NoneFilled(cs[0].children);
      NoneFilled(cs[1..]);
    }
  }

  lemma {:induction false} OneFilled(cs: seq<Segment>, x: int, y: int)
    requires InvalidCount(cs) == 1 && HasInvalid(cs, x, y) && x < y
    ensures Filled(cs)
    decreases cs
  {
    var c := cs[0];
    if c.IsInvalid() {
      NoneFilled(c.children);
      NoneFilled(cs[1..]);
      NoneHasNone(c.children, x, y);
      NoneHasNone(cs[1..], x, y);
    } else if HasInvalid(c.children, x, y) {
      if InvalidCount(c.children) == 0 { NoneHasNone(c.children, x, y); }
      OneFilled(c.children, x, y);
      NoneFilled(cs[1..]);
    } else {
      if InvalidCount(cs[1..]) == 0 { NoneHasNone(cs[1..], x, y); }
      NoneFilled(c.children);
      OneFilled(cs[1..], x, y);
    }
  }

  lemma {:induction false} NoneHasNone(cs: seq<Segment>, x: int, y: int)
    requires InvalidCount(cs) == 0
    ensures !HasInvalid(cs, x, y)
    decreases cs
  {
    if cs != [] {
      NoneHasNone(cs[0].children, x, y);
      NoneHasNone(cs[1..], x, y);
    }
  }

  /** When no invalid segment is empty a range to analyze has an invalid character. */
  lemma {:induction false} FilledChar(cs: seq<Segment>, lo: int, hi: int, p: Option<Context>, x: int, y: int, outer: Mark) returns (o: int)
    requires ValidForest(cs, lo, hi, p) && Filled(cs) && Dirty(cs, x, y) && x < y
    ensures x <= o < y && Covered(cs, o) && MarkIn(cs, o, outer).context == None
    decreases cs
  {
    var c := cs[0];
    assert cs == [c] + cs[1..];
    if c.IsInvalid() && Meets(c, x, y) {
      o := if x < c.startAt then c.startAt else x;
      assert MarkAt(c, o) == Own(c);
    } else if Dirty(c.children, x, y) {
      o := FilledChar(c.children, c.startAt, c.endAt, c.context, x, y, Own(c));
      ForestBounds(c.children, c.startAt, c.endAt, c.context);
    } else {
      o := FilledChar(cs[1..], c.endAt, hi, p, x, y, outer);
      ForestBounds(cs[1..], c.endAt, hi, p);
    }
    CoveredAppend([c], cs[1..], o);
    CoveredSingle(c, o);
  }

  /** What is to be analyzed is so because of the segment at `p` or of another one. */
  lemma {:induction false} DirtyRemoved(s: Segment, p: Path, x: int, y: int)
    requires p != [] && IsPath(s, p) && At(s, p).children == [] && Dirty(s.children, x, y)
    ensures Dirty(RemoveAt(s, p).children, x, y) || Meets(At(s, p), x, y)
    decreases p
  {
    var i, c := p[0], s.children[p[0]];
    var l, r := s.children[..i], s.children[i + 1..];
    assert s.children == l + [c] + r;
    DirtyAppend(l + [c], r, x, y);
    DirtyAppend(l, [c], x, y);
    DirtySingle(c, x, y);
    if p[1..] == [] {
      assert At(s, p) == c;
      DirtyAppend(l, r, x, y);
    } else {
      var m := RemoveAt(c, p[1..]);
      if Dirty(c.children, x, y) { DirtyRemoved(c, p[1..], x, y); }
      DirtySingle(m, x, y);
      DirtyAppend(l + [m], r, x, y);
      DirtyAppend(l, [m], x, y);
    }
  }

  /** A single invalid segment that begins before a range to analyze covers the
      beginning of the range. */
  lemma OneChar(t: Segment, p: Path, x: int, y: int)
    requires ValidRoot(t) && InvalidCount(t.children) == 1 && p != [] && IsPath(t, p) && At(t, p).IsInvalid()
    requires At(t, p).startAt < x < y && Dirty(t.children, x, y)
    ensures ContextAt(t, x) == None
  {
    WithinSegment(t, p);
    RemoveCount(t, p);
    DirtyRemoved(t, p, x, y);
    CountZero(RemoveAt(t, p).children, x, y);
    PathHasInvalid(t, p, x, x + 1);
    InvalidMarks(t.children, 0, t.endAt, t.context, x, x + 1, x, Own(t));
  }
}
