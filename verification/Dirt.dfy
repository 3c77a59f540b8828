/** Which lines have something to analyze, and which segments lost their start:
    what the tree operations do to them. */
module Dirt {
  import opened Wrappers
  import opened Contexts
  import opened SegmentTree
  import opened SegmentErase

  // ----- invalid segments that meet a range of offsets -----

  predicate Meets(s: Segment, x: int, y: int) {
    s.startAt < y && (x <= s.startAt || x < s.endAt)
  }

  /** Some invalid segment of the forest, at any depth, meets [x, y). */
  predicate Dirty(cs: seq<Segment>, x: int, y: int) {
    cs != [] &&
    ( (cs[0].IsInvalid() && Meets(cs[0], x, y))
      || Dirty(cs[0].children, x, y)
      || Dirty(cs[1..], x, y))
  }

  lemma DirtyAppend(a: seq<Segment>, b: seq<Segment>, x: int, y: int)
    ensures Dirty(a + b, x, y) <==> Dirty(a, x, y) || Dirty(b, x, y)
    decreases a
  {
    if a == [] {
      assert a + b == b;
    } else {
      assert (a + b)[1..] == a[1..] + b;
      DirtyAppend(a[1..], b, x, y);
    }
  }

  lemma DirtySingle(s: Segment, x: int, y: int)
    ensures Dirty([s], x, y) <==> (s.IsInvalid() && Meets(s, x, y)) || Dirty(s.children, x, y)
  {
    assert [s][1..] == [];
  }

  lemma {:induction false} DirtyWiden(cs: seq<Segment>, x: int, y: int, x': int, y': int)
    requires Dirty(cs, x, y) && x' <= x && y <= y'
    ensures Dirty(cs, x', y')
    decreases cs
  {
    if cs[0].IsInvalid() && Meets(cs[0], x, y) {
    } else if Dirty(cs[0].children, x, y) {
      DirtyWiden(cs[0].children, x, y, x', y');
    } else {
      DirtyWiden(cs[1..], x, y, x', y');
    }
  }

  /** A forest inside [lo, hi] has nothing to do with ranges away from it. */
  lemma {:induction false} DirtyWithin(cs: seq<Segment>, lo: int, hi: int, p: Option<Context>, x: int, y: int)
    requires ValidForest(cs, lo, hi, p) && Dirty(cs, x, y)
    ensures lo < y && x <= hi
    decreases cs
  {
    ForestBounds(cs, lo, hi, p);
    if cs[0].IsInvalid() && Meets(cs[0], x, y) {
    } else if Dirty(cs[0].children, x, y) {
      DirtyWithin(cs[0].children, cs[0].startAt, cs[0].endAt, cs[0].context, x, y);
    } else {
      DirtyWithin(cs[1..], cs[0].endAt, hi, p, x, y);
    }
  }

  // ----- valid container segments whose beginning was erased -----

  /** Some such segment of the forest, at any depth, starts at `q`. */
  predicate NonStart(cs: seq<Segment>, q: int) {
    cs != [] &&
    ( (cs[0].IsContainer() && !cs[0].isStart && cs[0].startAt == q)
      || NonStart(cs[0].children, q)
      || NonStart(cs[1..], q))
  }

  lemma NonStartAppend(a: seq<Segment>, b: seq<Segment>, q: int)
    ensures NonStart(a + b, q) <==> NonStart(a, q) || NonStart(b, q)
    decreases a
  {
    if a == [] {
      assert a + b == b;
    } else {
      assert (a + b)[1..] == a[1..] + b;
      NonStartAppend(a[1..], b, q);
    }
  }

  lemma NonStartSingle(s: Segment, q: int)
    ensures NonStart([s], q) <==> (s.IsContainer() && !s.isStart && s.startAt == q) || NonStart(s.children, q)
  {
    assert [s][1..] == [];
  }

  lemma {:induction false} NonStartWithin(cs: seq<Segment>, lo: int, hi: int, p: Option<Context>, q: int)
    requires ValidForest(cs, lo, hi, p) && NonStart(cs, q)
    ensures lo <= q <= hi
    decreases cs
  {
    ForestBounds(cs, lo, hi, p);
    if NonStart(cs[0].children, q) {
      NonStartWithin(cs[0].children, cs[0].startAt, cs[0].endAt, cs[0].context, q);
    } else if NonStart(cs[1..], q) {
      NonStartWithin(cs[1..], cs[0].endAt, hi, p, q);
    }
  }

  // ----- no valid segment is empty -----

  predicate Solid(cs: seq<Segment>) {
    cs != [] ==>
      && (cs[0].context.Some? ==> cs[0].startAt < cs[0].endAt)
      && Solid(cs[0].children)
      && Solid(cs[1..])
  }

  lemma SolidAppend(a: seq<Segment>, b: seq<Segment>)
    ensures Solid(a + b) <==> Solid(a) && Solid(b)
    decreases a
  {
    if a == [] {
      assert a + b == b;
    } else {
      assert (a + b)[1..] == a[1..] + b;
      SolidAppend(a[1..], b);
    }
  }

  lemma SolidSingle(s: Segment)
    ensures Solid([s]) <==> (s.context.Some? ==> s.startAt < s.endAt) && Solid(s.children)
  {
    assert [s][1..] == [];
  }

  // ----- erasing [a, b) -----

  /** What meets a range before `a` or after `b` stays; a range that begins at `b`
      can only lose empty segments. */
  ghost predicate ErasedDirt(before: seq<Segment>, after: seq<Segment>, a: int, b: int, x: int, y: int) {
    && (x < y && (y <= a || b < x) ==> (Dirty(after, x, y) <==> Dirty(before, x, y)))
    && (x == b && x < y ==> Dirty(after, x, y) ==> Dirty(before, x, y))
  }

  lemma {:induction false} EraseRangeDirt(s: Segment, a: int, b: int, p: Option<Context>, x: int, y: int)
    requires a < b && Valid(s) && Fits(s.context, p)
    ensures ErasedDirt([s], EraseRange(s, a, b), a, b, x, y)
    decreases s, 1
  {
    DirtySingle(s, x, y);
    if s.startAt == s.endAt || s.startAt > b || s.endAt < a || (s.startAt >= a && s.endAt <= b) {
      if Dirty(s.children, x, y) {
        DirtyWithin(s.children, s.startAt, s.endAt, s.context, x, y);
      }
      assert EraseRange(s, a, b) == [] || EraseRange(s, a, b) == [s];
    } else {
      KidsOfErase(s, a, b);
      EraseForestDirt(s.children, s.startAt, s.endAt, a, b, s.context, x, y);
      PartsDirt(s, Kids(s, a, b), a, b, x, y);
    }
  }

  lemma PartsDirt(s: Segment, kids: seq<Segment>, a: int, b: int, x: int, y: int)
    requires a < b && s.startAt < s.endAt && s.startAt <= b && s.endAt >= a && !(s.startAt >= a && s.endAt <= b)
    requires ErasedDirt(s.children, kids, a, b, x, y)
    ensures s.startAt < a && s.endAt > b ==> ErasedDirt([s], EraseMiddle(s, kids, a, b), a, b, x, y)
    ensures s.startAt >= a ==> ErasedDirt([s], [s.(startAt := b, isStart := false, children := kids)], a, b, x, y)
    ensures s.endAt <= b ==> ErasedDirt([s], [s.(endAt := a, children := kids)], a, b, x, y)
  {
    DirtySingle(s, x, y);
    if s.startAt < a && s.endAt > b {
      var k := LeftCount(kids, a);
      var l, r := s.(endAt := a, children := kids[..k]), Segment(s.context, b, s.endAt, false, kids[k..]);
      assert EraseMiddle(s, kids, a, b) == [l] + [r];
      DirtyAppend([l], [r], x, y);
      DirtySingle(l, x, y);
      DirtySingle(r, x, y);
      assert kids == kids[..k] + kids[k..];
      DirtyAppend(kids[..k], kids[k..], x, y);
    } else if s.startAt >= a {
      DirtySingle(s.(startAt := b, isStart := false, children := kids), x, y);
    } else {
      DirtySingle(s.(endAt := a, children := kids), x, y);
    }
  }

  lemma {:induction false} EraseForestDirt(cs: seq<Segment>, lo: int, hi: int, a: int, b: int, p: Option<Context>, x: int, y: int)
    requires a < b && ValidForest(cs, lo, hi, p)
    ensures ErasedDirt(cs, EraseForest(cs, a, b), a, b, x, y)
    decreases cs, 0
  {
    if cs != [] {
      assert cs == [cs[0]] + cs[1..];
      EraseRangeDirt(cs[0], a, b, p, x, y);
      EraseForestDirt(cs[1..], cs[0].endAt, hi, a, b, p, x, y);
      DirtyAppend([cs[0]], cs[1..], x, y);
      DirtyAppend(EraseRange(cs[0], a, b), EraseForest(cs[1..], a, b), x, y);
    }
  }

  /** Some invalid segment of the forest, at any depth, meets [b, y) and is not just an
      empty one at `b`. */
  predicate DirtyPast(cs: seq<Segment>, b: int, y: int) {
    cs != [] &&
    ( (cs[0].IsInvalid() && Meets(cs[0], b, y) && b < cs[0].endAt)
      || DirtyPast(cs[0].children, b, y)
      || DirtyPast(cs[1..], b, y))
  }

  lemma PastAppend(p: seq<Segment>, q: seq<Segment>, b: int, y: int)
    ensures DirtyPast(p + q, b, y) <==> DirtyPast(p, b, y) || DirtyPast(q, b, y)
    decreases p
  {
    if p == [] {
      assert p + q == q;
    } else {
      assert (p + q)[1..] == p[1..] + q;
      PastAppend(p[1..], q, b, y);
    }
  }

  lemma PastSingle(s: Segment, b: int, y: int)
    ensures DirtyPast([s], b, y) <==> (s.IsInvalid() && Meets(s, b, y) && b < s.endAt) || DirtyPast(s.children, b, y)
  {
    assert [s][1..] == [];
  }

  /** That is so if the character at `b` is invalid, or something after it is to be
      analyzed. */
  lemma {:induction false} PastSplit(cs: seq<Segment>, lo: int, hi: int, p: Option<Context>, b: int, y: int, outer: Mark)
    requires ValidForest(cs, lo, hi, p) && b < y && outer.context.Some?
    ensures DirtyPast(cs, b, y) <==> MarkIn(cs, b, outer).context == None || (b + 1 < y && Dirty(cs, b + 1, y))
    decreases cs
  {
    if cs != [] {
      var c := cs[0];
      ForestBounds(cs, lo, hi, p);
      ForestBounds(c.children, c.startAt, c.endAt, c.context);
      PastSplit(cs[1..], c.endAt, hi, p, b, y, outer);
      if c.context.Some? { PastSplit(c.children, c.startAt, c.endAt, c.context, b, y, Own(c)); }
      if c.Covers(b) {
        assert forall i :: 0 <= i < |cs[1..]| ==> cs[1..][i] == cs[i + 1];
        MarkUncovered(cs[1..], b, outer);
        assert MarkIn(cs, b, outer) == MarkAt(c, b) == MarkIn(c.children, b, Own(c));
      } else {
        MarkUncovered(c.children, b, Own(c));
      }
    }
  }

  /** Exactly those marks survive the erasing of [a, b] at its end. */
  lemma {:induction false} ErasePast(s: Segment, a: int, b: int, p: Option<Context>, y: int)
    requires a < b < y && Valid(s) && Fits(s.context, p)
    ensures Dirty(EraseRange(s, a, b), b, y) <==> DirtyPast([s], b, y)
    decreases s, 1
  {
    PastSingle(s, b, y);
    DirtySingle(s, b, y);
    if s.startAt == s.endAt || s.startAt > b || s.endAt < a || (s.startAt >= a && s.endAt <= b) {
      assert EraseRange(s, a, b) == [] || EraseRange(s, a, b) == [s];
      PastWithin(s.children, s.startAt, s.endAt, s.context, b, y);
      if s.endAt < a && Dirty(s.children, b, y) { DirtyWithin(s.children, s.startAt, s.endAt, s.context, b, y); }
    } else {
      KidsOfErase(s, a, b);
      EraseForestPast(s.children, s.startAt, s.endAt, a, b, s.context, y);
      PartsPast(s, Kids(s, a, b), a, b, y);
    }
  }

  /** A forest inside [lo, hi]. */
  lemma {:induction false} PastWithin(cs: seq<Segment>, lo: int, hi: int, p: Option<Context>, b: int, y: int)
    requires ValidForest(cs, lo, hi, p) && (hi <= b || b < lo)
    ensures DirtyPast(cs, b, y) <==> b < lo && Dirty(cs, b, y)
    decreases cs
  {
    if cs != [] {
      ForestBounds(cs, lo, hi, p);
      PastWithin(cs[0].children, cs[0].startAt, cs[0].endAt, cs[0].context, b, y);
      PastWithin(cs[1..], cs[0].endAt, hi, p, b, y);
    }
  }

  lemma PartsPast(s: Segment, kids: seq<Segment>, a: int, b: int, y: int)
    requires a < b < y && s.startAt < s.endAt && s.startAt <= b && s.endAt >= a && !(s.startAt >= a && s.endAt <= b)
    requires Dirty(kids, b, y) <==> DirtyPast(s.children, b, y)
    ensures s.startAt < a && s.endAt > b ==> (Dirty(EraseMiddle(s, kids, a, b), b, y) <==> DirtyPast([s], b, y))
    ensures s.startAt >= a ==> (Dirty([s.(startAt := b, isStart := false, children := kids)], b, y) <==> DirtyPast([s], b, y))
    ensures s.endAt <= b ==> (Dirty([s.(endAt := a, children := kids)], b, y) <==> DirtyPast([s], b, y))
  {
    PastSingle(s, b, y);
    if s.startAt < a && s.endAt > b {
      var k := LeftCount(kids, a);
      var l, r := s.(endAt := a, children := kids[..k]), Segment(s.context, b, s.endAt, false, kids[k..]);
      assert EraseMiddle(s, kids, a, b) == [l] + [r];
      DirtyAppend([l], [r], b, y);
      DirtySingle(l, b, y);
      DirtySingle(r, b, y);
      assert kids == kids[..k] + kids[k..];
      DirtyAppend(kids[..k], kids[k..], b, y);
    } else if s.startAt >= a {
      DirtySingle(s.(startAt := b, isStart := false, children := kids), b, y);
    } else {
      DirtySingle(s.(endAt := a, children := kids), b, y);
    }
  }

  lemma {:induction false} EraseForestPast(cs: seq<Segment>, lo: int, hi: int, a: int, b: int, p: Option<Context>, y: int)
    requires a < b < y && ValidForest(cs, lo, hi, p)
    ensures Dirty(EraseForest(cs, a, b), b, y) <==> DirtyPast(cs, b, y)
    decreases cs, 0
  {
    if cs != [] {
      assert cs == [cs[0]] + cs[1..];
      ErasePast(cs[0], a, b, p, y);
      EraseForestPast(cs[1..], cs[0].endAt, hi, a, b, p, y);
      PastAppend([cs[0]], cs[1..], b, y);
      DirtyAppend(EraseRange(cs[0], a, b), EraseForest(cs[1..], a, b), b, y);
    }
  }

  /** Every segment of the forest, at any depth, is clear of [a, b]. */
  predicate DeepClear(cs: seq<Segment>, a: int, b: int) {
    cs != [] ==> Clear(cs[0], a, b) && DeepClear(cs[0].children, a, b) && DeepClear(cs[1..], a, b)
  }

  lemma DeepClearAppend(x: seq<Segment>, y: seq<Segment>, a: int, b: int)
    ensures DeepClear(x + y, a, b) <==> DeepClear(x, a, b) && DeepClear(y, a, b)
    decreases x
  {
    if x == [] {
      assert x + y == y;
    } else {
      assert (x + y)[1..] == x[1..] + y;
      DeepClearAppend(x[1..], y, a, b);
    }
  }

  lemma DeepClearSingle(s: Segment, a: int, b: int)
    ensures DeepClear([s], a, b) <==> Clear(s, a, b) && DeepClear(s.children, a, b)
  {
    assert [s][1..] == [];
  }

  lemma {:induction false} ClearOutside(cs: seq<Segment>, lo: int, hi: int, a: int, b: int, p: Option<Context>)
    requires ValidForest(cs, lo, hi, p) && a < b && (hi < a || b < lo)
    ensures DeepClear(cs, a, b)
    decreases cs
  {
    if cs != [] {
      ForestBounds(cs, lo, hi, p);
      ClearOutside(cs[0].children, cs[0].startAt, cs[0].endAt, a, b, cs[0].context);
      ClearOutside(cs[1..], cs[0].endAt, hi, a, b, p);
    }
  }

  lemma {:induction false} EraseRangeClears(s: Segment, a: int, b: int, p: Option<Context>)
    requires a < b && Valid(s) && Fits(s.context, p)
    ensures DeepClear(EraseRange(s, a, b), a, b)
    decreases s, 1
  {
    hide ValidForest, EraseForest;
    if s.startAt == s.endAt || s.startAt > b || s.endAt < a || (s.startAt >= a && s.endAt <= b) {
      assert EraseRange(s, a, b) == [] || EraseRange(s, a, b) == [s];
      if EraseRange(s, a, b) == [s] {
        ClearOutside(s.children, s.startAt, s.endAt, a, b, s.context);
        DeepClearSingle(s, a, b);
      }
    } else {
      KidsOfErase(s, a, b);
      EraseForestClears(s.children, s.startAt, s.endAt, a, b, s.context);
      var kids := Kids(s, a, b);
      if s.startAt < a && s.endAt > b {
        var k := LeftCount(kids, a);
        var l, r := s.(endAt := a, children := kids[..k]), Segment(s.context, b, s.endAt, false, kids[k..]);
        assert EraseMiddle(s, kids, a, b) == [l] + [r];
        assert kids == kids[..k] + kids[k..];
        DeepClearAppend(kids[..k], kids[k..], a, b);
        DeepClearAppend([l], [r], a, b);
        DeepClearSingle(l, a, b);
        DeepClearSingle(r, a, b);
      } else {
        DeepClearSingle(EraseRange(s, a, b)[0], a, b);
      }
    }
  }

  lemma {:induction false} EraseForestClears(cs: seq<Segment>, lo: int, hi: int, a: int, b: int, p: Option<Context>)
    requires a < b && ValidForest(cs, lo, hi, p)
    ensures DeepClear(EraseForest(cs, a, b), a, b)
    decreases cs, 0
  {
    if cs != [] {
      EraseRangeClears(cs[0], a, b, p);
      EraseForestClears(cs[1..], cs[0].endAt, hi, a, b, p);
      DeepClearAppend(EraseRange(cs[0], a, b), EraseForest(cs[1..], a, b), a, b);
    }
  }

  /** Nothing is left to analyze in an erased line, nor at the end of the text when
      the line runs up to it. */
  lemma {:induction false} ClearIsClean(cs: seq<Segment>, lo: int, hi: int, p: Option<Context>, a: int, b: int, y: int)
    requires ValidForest(cs, lo, hi, p) && DeepClear(cs, a, b) && a < b
    requires y <= b || (y == b + 1 && hi <= b)
    ensures !Dirty(cs, a, y)
    decreases cs
  {
    if cs != [] {
      ForestBounds(cs, lo, hi, p);
      ClearIsClean(cs[0].children, cs[0].startAt, cs[0].endAt, cs[0].context, a, b, y);
      ClearIsClean(cs[1..], cs[0].endAt, hi, p, a, b, y);
    }
  }

  // ----- lost beginnings after erasing -----

  lemma {:induction false} EraseRangeNonStart(s: Segment, a: int, b: int, p: Option<Context>, q: int)
    requires a < b && Valid(s) && Fits(s.context, p) && NonStart(EraseRange(s, a, b), q) && q != b
    ensures NonStart([s], q) && (q < a || b < q)
    decreases s, 1
  {
    NonStartSingle(s, q);
    if s.startAt == s.endAt || s.startAt > b || s.endAt < a || (s.startAt >= a && s.endAt <= b) {
      if NonStart(s.children, q) { NonStartWithin(s.children, s.startAt, s.endAt, s.context, q); }
    } else {
      KidsOfErase(s, a, b);
      PartsNonStart(s, Kids(s, a, b), a, b, q);
      if NonStart(Kids(s, a, b), q) {
        EraseForestNonStart(s.children, s.startAt, s.endAt, a, b, s.context, q);
      }
    }
  }

  lemma PartsNonStart(s: Segment, kids: seq<Segment>, a: int, b: int, q: int)
    requires a < b && s.startAt < s.endAt && s.startAt <= b && s.endAt >= a && !(s.startAt >= a && s.endAt <= b)
    requires q != b
    requires NonStart(
      if s.startAt < a && s.endAt > b then EraseMiddle(s, kids, a, b)
      else if s.endAt > b then [s.(startAt := b, isStart := false, children := kids)]
      else [s.(endAt := a, children := kids)], q)
    ensures NonStart(kids, q) || (s.IsContainer() && !s.isStart && s.startAt == q < a)
  {
    if s.startAt < a && s.endAt > b {
      var k := LeftCount(kids, a);
      var l, r := s.(endAt := a, children := kids[..k]), Segment(s.context, b, s.endAt, false, kids[k..]);
      assert EraseMiddle(s, kids, a, b) == [l] + [r];
      NonStartAppend([l], [r], q);
      NonStartSingle(l, q);
      NonStartSingle(r, q);
      assert kids == kids[..k] + kids[k..];
      NonStartAppend(kids[..k], kids[k..], q);
    } else if s.endAt > b {
      NonStartSingle(s.(startAt := b, isStart := false, children := kids), q);
    } else {
      NonStartSingle(s.(endAt := a, children := kids), q);
    }
  }

  /** A lost beginning is at `b` or was one outside [a, b] before. */
  lemma {:induction false} EraseForestNonStart(cs: seq<Segment>, lo: int, hi: int, a: int, b: int, p: Option<Context>, q: int)
    requires a < b && ValidForest(cs, lo, hi, p) && NonStart(EraseForest(cs, a, b), q) && q != b
    ensures NonStart(cs, q) && (q < a || b < q)
    decreases cs, 0
  {
    NonStartAppend(EraseRange(cs[0], a, b), EraseForest(cs[1..], a, b), q);
    NonStartSingle(cs[0], q);
    if NonStart(EraseRange(cs[0], a, b), q) {
      EraseRangeNonStart(cs[0], a, b, p, q);
    } else {
      EraseForestNonStart(cs[1..], cs[0].endAt, hi, a, b, p, q);
    }
  }

  lemma {:induction false} EraseRangeSolid(s: Segment, a: int, b: int, p: Option<Context>)
    requires a < b && Valid(s) && Fits(s.context, p) && Solid([s])
    ensures Solid(EraseRange(s, a, b))
    decreases s, 1
  {
    SolidSingle(s);
    if s.startAt == s.endAt || s.startAt > b || s.endAt < a || (s.startAt >= a && s.endAt <= b) {
      assert EraseRange(s, a, b) == [] || EraseRange(s, a, b) == [s];
    } else {
      KidsOfErase(s, a, b);
      EraseForestSolid(s.children, s.startAt, s.endAt, a, b, s.context);
      if s.startAt < a && s.endAt > b {
        MiddleSolid(s, Kids(s, a, b), a, b);
      } else {
        SolidSingle(EraseRange(s, a, b)[0]);
      }
    }
  }

  lemma MiddleSolid(s: Segment, kids: seq<Segment>, a: int, b: int)
    requires s.startAt < a < b < s.endAt && Solid(kids)
    ensures Solid(EraseMiddle(s, kids, a, b))
  {
    var k := LeftCount(kids, a);
    var l, r := s.(endAt := a, children := kids[..k]), Segment(s.context, b, s.endAt, false, kids[k..]);
    assert EraseMiddle(s, kids, a, b) == [l] + [r];
    assert kids == kids[..k] + kids[k..];
    SolidAppend(kids[..k], kids[k..]);
    SolidAppend([l], [r]);
    SolidSingle(l);
    SolidSingle(r);
  }

  lemma {:induction false} EraseForestSolid(cs: seq<Segment>, lo: int, hi: int, a: int, b: int, p: Option<Context>)
    requires a < b && ValidForest(cs, lo, hi, p) && Solid(cs)
    ensures Solid(EraseForest(cs, a, b))
    decreases cs, 0
  {
    if cs != [] {
      SolidSingle(cs[0]);
      EraseRangeSolid(cs[0], a, b, p);
      EraseForestSolid(cs[1..], cs[0].endAt, hi, a, b, p);
      SolidAppend(EraseRange(cs[0], a, b), EraseForest(cs[1..], a, b));
    }
  }
}
