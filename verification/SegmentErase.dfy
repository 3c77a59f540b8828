/** Erasing a range of offsets from the tree (`segment_erase_range_`,
    `segment_erase_middle_`, `erase_segments`). */
module SegmentErase {
  import opened Wrappers
  import opened Contexts
  import opened SegmentTree

  /** What is left of `s`: nothing, the segment with an end moved, or two parts. */
  function EraseRange(s: Segment, a: int, b: int): seq<Segment>
    decreases s, 1
  {
    if s.startAt == s.endAt then
      if a <= s.startAt <= b then [] else [s]
    else if s.startAt > b || s.endAt < a then
      [s]
    else if s.startAt >= a && s.endAt <= b then
      []
    else
      var kids :=
        if s.startAt == b then EraseFront(s.children, a, b)
        else if s.endAt == a then EraseBack(s.children, a, b)
        else EraseForest(s.children, a, b);
      if s.startAt < a && s.endAt > b then
        EraseMiddle(s, kids, a, b)
      else if s.endAt > b then
        [s.(startAt := b, isStart := false, children := kids)]
      else
        [s.(endAt := a, children := kids)]
  }

  function EraseForest(cs: seq<Segment>, a: int, b: int): seq<Segment>
    decreases cs, 0
  {
    if cs == [] then [] else EraseRange(cs[0], a, b) + EraseForest(cs[1..], a, b)
  }

  /** The loop over the leading children that start at `b`. */
  function EraseFront(cs: seq<Segment>, a: int, b: int): seq<Segment>
    decreases cs, 0
  {
    if cs == [] || cs[0].startAt != b then cs
    else EraseRange(cs[0], a, b) + EraseFront(cs[1..], a, b)
  }

  /** The loop over the trailing children that end at `a`. */
  function EraseBack(cs: seq<Segment>, a: int, b: int): seq<Segment>
    decreases cs, 0
  {
    if cs == [] || cs[|cs| - 1].endAt != a then cs
    else
      EraseBack(cs[..|cs| - 1], a, b) + EraseRange(cs[|cs| - 1], a, b)
  }

  /** The split of a segment that contains the whole range: its cleaned children
      go to the part they lie in. */
  function EraseMiddle(s: Segment, kids: seq<Segment>, a: int, b: int): seq<Segment> {
    var k := LeftCount(kids, a);
    [s.(endAt := a, children := kids[..k]),
     Segment(s.context, b, s.endAt, false, kids[k..])]
  }

  /** How many leading children start before `a`. */
  function LeftCount(cs: seq<Segment>, a: int): (k: nat)
    ensures k <= |cs|
    ensures forall i :: 0 <= i < k ==> cs[i].startAt < a
    ensures k < |cs| ==> cs[k].startAt >= a
  {
    if cs == [] || cs[0].startAt >= a then 0 else 1 + LeftCount(cs[1..], a)
  }

  // ----- the shortcuts erase the same segments as a full pass -----

  lemma EraseAppend(x: seq<Segment>, y: seq<Segment>, a: int, b: int)
    ensures EraseForest(x + y, a, b) == EraseForest(x, a, b) + EraseForest(y, a, b)
    decreases x
  {
    if x == [] {
      assert x + y == y;
    } else {
      assert (x + y)[1..] == x[1..] + y;
      EraseAppend(x[1..], y, a, b);
    }
  }

  lemma EraseSingle(s: Segment, a: int, b: int)
    ensures EraseForest([s], a, b) == EraseRange(s, a, b)
  {
    assert [s][1..] == [];
  }

  /** Siblings that do not touch [a, b] stay as they are. */
  lemma EraseOutside(cs: seq<Segment>, a: int, b: int)
    requires forall i :: 0 <= i < |cs| ==> cs[i].startAt > b || cs[i].endAt < a
    requires forall i :: 0 <= i < |cs| ==> cs[i].startAt <= cs[i].endAt
    requires a < b
    ensures EraseForest(cs, a, b) == cs
    decreases cs
  {
    if cs != [] {
      assert forall i :: 0 <= i < |cs[1..]| ==> cs[1..][i] == cs[i + 1];
      EraseOutside(cs[1..], a, b);
    }
  }

  lemma EraseFrontIsForest(cs: seq<Segment>, a: int, b: int, hi: int, p: Option<Context>)
    requires a < b && ValidForest(cs, b, hi, p)
    ensures EraseFront(cs, a, b) == EraseForest(cs, a, b)
    decreases cs
  {
    ForestBounds(cs, b, hi, p);
    if cs == [] {
    } else if cs[0].startAt != b {
      EraseOutside(cs, a, b);
    } else {
      ForestRebound(cs[1..], cs[0].endAt, hi, b, hi, p);
      EraseFrontIsForest(cs[1..], a, b, hi, p);
    }
  }

  lemma EraseBackIsForest(cs: seq<Segment>, a: int, b: int, lo: int, p: Option<Context>)
    requires a < b && ValidForest(cs, lo, a, p)
    ensures EraseBack(cs, a, b) == EraseForest(cs, a, b)
    decreases cs
  {
    ForestBounds(cs, lo, a, p);
    if cs == [] {
    } else if cs[|cs| - 1].endAt != a {
      EraseOutside(cs, a, b);
    } else {
      var n := |cs| - 1;
      assert cs == cs[..n] + [cs[n]];
      ForestAppend(cs[..n], [cs[n]], lo, a, p);
      ForestRebound(cs[..n], lo, a, lo, a, p);
      EraseBackIsForest(cs[..n], a, b, lo, p);
      EraseAppend(cs[..n], [cs[n]], a, b);
      EraseSingle(cs[n], a, b);
    }
  }

  /** In a well-formed segment all three child loops do the same. */
  function Kids(s: Segment, a: int, b: int): seq<Segment> {
    EraseForest(s.children, a, b)
  }

  lemma KidsOfErase(s: Segment, a: int, b: int)
    requires a < b && Valid(s)
    requires s.startAt != s.endAt && s.startAt <= b && s.endAt >= a
    requires !(s.startAt >= a && s.endAt <= b)
    ensures EraseRange(s, a, b) ==
      if s.startAt < a && s.endAt > b then EraseMiddle(s, Kids(s, a, b), a, b)
      else if s.endAt > b then [s.(startAt := b, isStart := false, children := Kids(s, a, b))]
      else [s.(endAt := a, children := Kids(s, a, b))]
  {
    if s.startAt == b {
      EraseFrontIsForest(s.children, a, b, s.endAt, s.context);
    } else if s.endAt == a {
      EraseBackIsForest(s.children, a, b, s.startAt, s.context);
    }
  }

  // ----- what erasing keeps and what it removes -----

  /** `c` has nothing inside [a, b]: it ends at or before `a` or starts at or
      after `b`, and an empty one is not on the boundary either. */
  predicate Clear(c: Segment, a: int, b: int) {
    (c.endAt <= a || c.startAt >= b) &&
    (c.startAt == c.endAt ==> c.startAt < a || c.startAt > b)
  }

  predicate AllClear(cs: seq<Segment>, a: int, b: int) {
    forall i :: 0 <= i < |cs| ==> Clear(cs[i], a, b)
  }

  ghost predicate ErasedWell(r: seq<Segment>, lo: int, hi: int, a: int, b: int, p: Option<Context>) {
    ValidForest(r, lo, hi, p) && AllClear(r, a, b)
  }

  lemma {:induction false} EraseRangeShape(s: Segment, a: int, b: int, p: Option<Context>)
    requires a < b && Valid(s) && Fits(s.context, p)
    ensures ErasedWell(EraseRange(s, a, b), s.startAt, s.endAt, a, b, p)
    decreases s, 1
  {
    if s.startAt == s.endAt || s.startAt > b || s.endAt < a || (s.startAt >= a && s.endAt <= b) {
      assert EraseRange(s, a, b) == [] || EraseRange(s, a, b) == [s];
    } else {
      KidsOfErase(s, a, b);
      EraseForestShape(s.children, s.startAt, s.endAt, a, b, s.context);
      if s.startAt < a && s.endAt > b {
        MiddleShape(s, Kids(s, a, b), a, b, p);
      } else if s.endAt > b {
        TailShape(s, Kids(s, a, b), a, b, p);
      } else {
        HeadShape(s, Kids(s, a, b), a, b, p);
      }
    }
  }

  /** The two parts the surviving children are put into are well formed. */
  lemma SplitShape(kids: seq<Segment>, lo: int, hi: int, a: int, b: int, p: Option<Context>)
    requires lo <= a < b <= hi && ErasedWell(kids, lo, hi, a, b, p)
    ensures ValidForest(kids[..LeftCount(kids, a)], lo, a, p)
    ensures ValidForest(kids[LeftCount(kids, a)..], b, hi, p)
  {
    var k := LeftCount(kids, a);
    ForestBounds(kids, lo, hi, p);
    assert k > 0 ==> Clear(kids[k - 1], a, b);
    assert k < |kids| ==> Clear(kids[k], a, b);
    SliceShape(kids, lo, hi, p, k, k);
    ForestRebound(kids[..k], lo, hi, lo, a, p);
    ForestRebound(kids[k..], EndOf(kids[..k], lo), hi, b, hi, p);
  }

  lemma MiddleShape(s: Segment, kids: seq<Segment>, a: int, b: int, p: Option<Context>)
    requires a < b && Fits(s.context, p) && s.startAt < a && b < s.endAt
    requires kids != [] ==> s.IsContainer()
    requires ErasedWell(kids, s.startAt, s.endAt, a, b, s.context)
    ensures ErasedWell(EraseMiddle(s, kids, a, b), s.startAt, s.endAt, a, b, p)
  {
    var k := LeftCount(kids, a);
    var l, r := kids[..k], kids[k..];
    SplitShape(kids, s.startAt, s.endAt, a, b, s.context);
    PairShape(s.(endAt := a, children := l), Segment(s.context, b, s.endAt, false, r), a, b, p);
  }

  lemma TailShape(s: Segment, kids: seq<Segment>, a: int, b: int, p: Option<Context>)
    requires a < b && Fits(s.context, p) && a <= s.startAt <= b < s.endAt
    requires kids != [] ==> s.IsContainer()
    requires ErasedWell(kids, s.startAt, s.endAt, a, b, s.context)
    ensures ErasedWell([s.(startAt := b, isStart := false, children := kids)], s.startAt, s.endAt, a, b, p)
  {
    ForestBounds(kids, s.startAt, s.endAt, s.context);
    assert kids != [] ==> Clear(kids[0], a, b);
    ForestRebound(kids, s.startAt, s.endAt, b, s.endAt, s.context);
    SingleShape(s.(startAt := b, isStart := false, children := kids), s.startAt, s.endAt, p);
  }

  lemma HeadShape(s: Segment, kids: seq<Segment>, a: int, b: int, p: Option<Context>)
    requires a < b && Fits(s.context, p) && s.startAt < a <= s.endAt <= b
    requires kids != [] ==> s.IsContainer()
    requires ErasedWell(kids, s.startAt, s.endAt, a, b, s.context)
    ensures ErasedWell([s.(endAt := a, children := kids)], s.startAt, s.endAt, a, b, p)
  {
    ForestBounds(kids, s.startAt, s.endAt, s.context);
    assert kids != [] ==> Clear(kids[|kids| - 1], a, b);
    ForestRebound(kids, s.startAt, s.endAt, s.startAt, a, s.context);
    SingleShape(s.(endAt := a, children := kids), s.startAt, s.endAt, p);
  }

  lemma PairShape(l: Segment, r: Segment, a: int, b: int, p: Option<Context>)
    requires Valid(l) && Fits(l.context, p) && l.endAt == a < b == r.startAt
    requires Valid(r) && Fits(r.context, p)
    ensures ValidForest([l, r], l.startAt, r.endAt, p)
  {
    assert [l, r][1..] == [r];
    SingleShape(r, a, r.endAt, p);
  }

  lemma {:induction false} EraseForestShape(cs: seq<Segment>, lo: int, hi: int, a: int, b: int, p: Option<Context>)
    requires a < b && ValidForest(cs, lo, hi, p)
    ensures ErasedWell(EraseForest(cs, a, b), lo, hi, a, b, p)
    ensures cs == [] ==> EraseForest(cs, a, b) == []
    decreases cs, 0
  {
    if cs != [] {
      var r, t := EraseRange(cs[0], a, b), EraseForest(cs[1..], a, b);
      EraseRangeShape(cs[0], a, b, p);
      EraseForestShape(cs[1..], cs[0].endAt, hi, a, b, p);
      JoinShape(r, cs[0].startAt, cs[0].endAt, t, hi, lo, p);
    }
  }

  // ----- what erasing does to the marks -----

  /** A segment whose start is cut off starts at `b` and is no longer a whole
      segment. */
  function Clip(m: Mark, b: int): Mark {
    if m.startAt <= b then Mark(m.context, b, false) else m
  }

  /** Before the range nothing changes; after it only cut-off starts do. */
  function ErasedMark(m: Mark, o: int, b: int): Mark {
    if o < b then m else Clip(m, b)
  }

  lemma {:induction false} EraseRangeMarks(s: Segment, a: int, b: int, p: Option<Context>, o: int, outer: Mark)
    requires a < b && Valid(s) && Fits(s.context, p) && (o < a || b <= o)
    ensures MarkIn(EraseRange(s, a, b), o, ErasedMark(outer, o, b)) ==
            ErasedMark(if s.Covers(o) then MarkAt(s, o) else outer, o, b)
    ensures Covered(EraseRange(s, a, b), o) <==> s.Covers(o)
    decreases s, 1
  {
    MarkSingle(s, o, ErasedMark(outer, o, b));
    CoveredSingle(s, o);
    if s.startAt == s.endAt || s.startAt > b || s.endAt < a || (s.startAt >= a && s.endAt <= b) {
      if s.startAt > b && s.Covers(o) {
        BeyondMarks(s.children, s.startAt, s.endAt, s.context, b, o, Own(s));
      }
    } else {
      KidsOfErase(s, a, b);
      var kids := Kids(s, a, b);
      EraseForestMarks(s.children, s.startAt, s.endAt, a, b, s.context, o, Own(s));
      EraseForestShape(s.children, s.startAt, s.endAt, a, b, s.context);
      if s.startAt < a && s.endAt > b {
        MiddleMarks(s, kids, a, b, o, ErasedMark(outer, o, b));
      } else {
        var s' := if s.endAt > b then s.(startAt := b, isStart := false, children := kids)
                  else s.(endAt := a, children := kids);
        MarkSingle(s', o, ErasedMark(outer, o, b));
        CoveredSingle(s', o);
      }
    }
  }

  /** Nothing that starts after `b` is clipped. */
  lemma BeyondMarks(cs: seq<Segment>, lo: int, hi: int, p: Option<Context>, b: int, o: int, outer: Mark)
    requires ValidForest(cs, lo, hi, p) && b < lo && b < outer.startAt
    ensures b < MarkIn(cs, o, outer).startAt
    decreases cs
  {
    if cs != [] {
      if cs[0].Covers(o) {
        BeyondMarks(cs[0].children, cs[0].startAt, cs[0].endAt, cs[0].context, b, o, Own(cs[0]));
      } else {
        BeyondMarks(cs[1..], cs[0].endAt, hi, p, b, o, outer);
      }
    }
  }

  lemma SplitCovers(kids: seq<Segment>, lo: int, hi: int, a: int, b: int, p: Option<Context>, o: int)
    requires a < b && AllClear(kids, a, b) && ValidForest(kids, lo, hi, p)
    ensures o < a ==> !Covered(kids[LeftCount(kids, a)..], o)
    ensures b <= o ==> !Covered(kids[..LeftCount(kids, a)], o)
  {
    var k := LeftCount(kids, a);
    ForestBounds(kids, lo, hi, p);
    forall i | 0 <= i < k ensures kids[i].endAt <= b {
      assert Clear(kids[i], a, b);
    }
    forall i | k <= i < |kids| ensures kids[i].startAt >= a {
    }
  }

  /** Each part answers for its own side of the range. */
  lemma SplitMarks(kids: seq<Segment>, lo: int, hi: int, a: int, b: int, p: Option<Context>, o: int, m: Mark)
    requires a < b && AllClear(kids, a, b) && ValidForest(kids, lo, hi, p)
    ensures o < a ==> MarkIn(kids[..LeftCount(kids, a)], o, m) == MarkIn(kids, o, m)
    ensures b <= o ==> MarkIn(kids[LeftCount(kids, a)..], o, m) == MarkIn(kids, o, m)
  {
    var k := LeftCount(kids, a);
    var l, r := kids[..k], kids[k..];
    SplitCovers(kids, lo, hi, a, b, p, o);
    assert kids == l + r;
    MarkAppend(l, r, o, m);
    if o < a {
      MarkUncovered(r, o, m);
    } else if b <= o {
      MarkUncovered(l, o, MarkIn(r, o, m));
    }
  }

  lemma PairMarks(l: Segment, r: Segment, o: int, outer: Mark)
    ensures MarkIn([l, r], o, outer) ==
      if l.Covers(o) then MarkAt(l, o) else if r.Covers(o) then MarkAt(r, o) else outer
    ensures Covered([l, r], o) <==> l.Covers(o) || r.Covers(o)
  {
    assert [l, r] == [l] + [r];
    MarkAppend([l], [r], o, outer);
    CoveredAppend([l], [r], o);
    MarkSingle(l, o, MarkIn([r], o, outer));
    MarkSingle(r, o, outer);
    CoveredSingle(l, o);
    CoveredSingle(r, o);
  }

  lemma MiddleMarks(s: Segment, kids: seq<Segment>, a: int, b: int, o: int, outer: Mark)
    requires a < b && s.startAt < a && b < s.endAt && (o < a || b <= o)
    requires AllClear(kids, a, b)
    requires ValidForest(kids, s.startAt, s.endAt, s.context)
    ensures MarkIn(EraseMiddle(s, kids, a, b), o, outer) ==
      if s.Covers(o) then MarkIn(kids, o, ErasedMark(Own(s), o, b)) else outer
    ensures Covered(EraseMiddle(s, kids, a, b), o) <==> s.Covers(o)
  {
    var k := LeftCount(kids, a);
    var l, r := s.(endAt := a, children := kids[..k]), Segment(s.context, b, s.endAt, false, kids[k..]);
    PairMarks(l, r, o, outer);
    SplitMarks(kids, s.startAt, s.endAt, a, b, s.context, o, ErasedMark(Own(s), o, b));
  }

  lemma {:induction false} EraseForestMarks(cs: seq<Segment>, lo: int, hi: int, a: int, b: int, p: Option<Context>, o: int, outer: Mark)
    requires a < b && ValidForest(cs, lo, hi, p) && (o < a || b <= o)
    ensures MarkIn(EraseForest(cs, a, b), o, ErasedMark(outer, o, b)) ==
            ErasedMark(MarkIn(cs, o, outer), o, b)
    ensures Covered(EraseForest(cs, a, b), o) <==> Covered(cs, o)
    decreases cs, 0
  {
    if cs != [] {
      var r, t := EraseRange(cs[0], a, b), EraseForest(cs[1..], a, b);
      assert cs == [cs[0]] + cs[1..];
      EraseForestMarks(cs[1..], cs[0].endAt, hi, a, b, p, o, outer);
      EraseRangeMarks(cs[0], a, b, p, o, MarkIn(cs[1..], o, outer));
      MarkAppend(r, t, o, ErasedMark(outer, o, b));
      MarkAppend([cs[0]], cs[1..], o, outer);
      CoveredAppend(r, t, o);
      CoveredAppend([cs[0]], cs[1..], o);
      CoveredSingle(cs[0], o);
      MarkSingle(cs[0], o, MarkIn(cs[1..], o, outer));
    }
  }
}
