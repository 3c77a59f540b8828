/** Lines to analyze and lost beginnings under insertion, deletion and linking. */
module DirtMoves {
  import opened Wrappers
  import opened Contexts
  import opened SegmentTree
  import opened SegmentErase
  import opened SegmentInsert
  import opened Labelling
  import opened Dirt

  // ----- moved siblings -----

  lemma {:induction false} ShiftDirty(cs: seq<Segment>, d: int, x: int, y: int)
    ensures Dirty(ShiftAll(cs, d), x + d, y + d) <==> Dirty(cs, x, y)
    decreases cs
  {
    if cs != [] {
      assert ShiftAll(cs, d)[1..] == ShiftAll(cs[1..], d);
      ShiftDirty(cs[0].children, d, x, y);
      ShiftDirty(cs[1..], d, x, y);
    }
  }

  lemma {:induction false} ShiftNonStart(cs: seq<Segment>, d: int, q: int)
    ensures NonStart(ShiftAll(cs, d), q + d) <==> NonStart(cs, q)
    decreases cs
  {
    if cs != [] {
      assert ShiftAll(cs, d)[1..] == ShiftAll(cs[1..], d);
      ShiftNonStart(cs[0].children, d, q);
      ShiftNonStart(cs[1..], d, q);
    }
  }

  lemma {:induction false} ShiftSolid(cs: seq<Segment>, d: int)
    ensures Solid(ShiftAll(cs, d)) <==> Solid(cs)
    decreases cs
  {
    if cs != [] {
      assert ShiftAll(cs, d)[1..] == ShiftAll(cs[1..], d);
      ShiftSolid(cs[0].children, d);
      ShiftSolid(cs[1..], d);
    }
  }

  // ----- inserting -----

  /** What was to be analyzed before the insertion or after it still is, at its new
      place. */
  ghost predicate InsertedDirt(before: seq<Segment>, after: seq<Segment>, offset: int, length: nat, x: int, y: int) {
    && (x < y <= offset ==> Dirty(before, x, y) ==> Dirty(after, x, y))
    && (offset < x < y ==> Dirty(before, x, y) ==> Dirty(after, x + length, y + length))
  }

  lemma ListDirt(l: seq<Segment>, x: seq<Segment>, m: seq<Segment>, r: seq<Segment>,
                 lo: int, mid: int, end: int, hi: int, p: Option<Context>,
                 offset: int, length: nat, u: int, v: int)
    requires ValidForest(l, lo, mid, p) && ValidForest(r, end, hi, p) && mid <= offset <= end
    requires InsertedDirt(x, m, offset, length, u, v)
    ensures InsertedDirt(l + x + r, l + m + ShiftAll(r, length), offset, length, u, v)
  {
    hide Dirty, ValidForest, ShiftAll;
    DirtyAppend(l + x, r, u, v);
    DirtyAppend(l, x, u, v);
    if Dirty(l, u, v) { DirtyWithin(l, lo, mid, p, u, v); }
    if Dirty(r, u, v) { DirtyWithin(r, end, hi, p, u, v); }
    if u < v <= offset {
      DirtyAppend(l + m, ShiftAll(r, length), u, v);
      DirtyAppend(l, m, u, v);
    } else if offset < u < v {
      DirtyAppend(l + m, ShiftAll(r, length), u + length, v + length);
      DirtyAppend(l, m, u + length, v + length);
      ShiftDirty(r, length, u, v);
    }
  }

  lemma DirtyNone(u: int, v: int)
    ensures !Dirty([], u, v)
  {
  }

  lemma HereDirt(s: Segment, k: nat, offset: int, length: nat, u: int, v: int)
    requires Valid(s) && IsPlace(s, [], k, offset)
    ensures InsertedDirt([s], InsertHere(s, k, offset, length), offset, length, u, v)
  {
    hide Dirty, ValidForest, ShiftAll;
    DirtyNone(u, v);
    DirtySingle(s, u, v);
    if s.IsInvalid() {
      var s' := s.(endAt := s.endAt + length);
      DirtySingle(s', u, v);
      DirtySingle(s', u + length, v + length);
    } else if s.IsContainer() {
      var i := InvalidSegment(offset, offset + length);
      var s' := InsertHere(s, k, offset, length)[0];
      SliceShape(s.children, s.startAt, s.endAt, s.context, k, k);
      ForestRebound(s.children[..k], s.startAt, s.endAt, s.startAt, offset, s.context);
      ForestRebound(s.children[k..], EndOf(s.children[..k], s.startAt), s.endAt, offset, s.endAt, s.context);
      ListDirt(s.children[..k], [], [i], s.children[k..], s.startAt, offset, offset, s.endAt, s.context, offset, length, u, v);
      assert s.children == s.children[..k] + [] + s.children[k..];
      DirtySingle(s', u, v);
      DirtySingle(s', u + length, v + length);
    }
  }

  lemma {:induction false} AlongDirt(s: Segment, path: Path, k: nat, offset: int, length: nat, u: int, v: int)
    requires Valid(s) && IsPlace(s, path, k, offset) && IsPath(s, path) && k <= |At(s, path).children|
    ensures InsertedDirt([s], InsertAlong(s, path, k, offset, length), offset, length, u, v)
    decreases path
  {
    if path == [] {
      HereDirt(s, k, offset, length, u, v);
    } else {
      var c := s.children[path[0]];
      ChildBounds(s, path[0]);
      AlongDirt(c, path[1..], k, offset, length, u, v);
      ChildDirt(s, path[0], InsertAlong(c, path[1..], k, offset, length), offset, length, u, v);
    }
  }

  lemma ChildDirt(s: Segment, i: nat, m: seq<Segment>, offset: int, length: nat, u: int, v: int)
    requires Valid(s) && i < |s.children| && s.children[i].Touches(offset)
    requires InsertedDirt([s.children[i]], m, offset, length, u, v)
    ensures InsertedDirt([s],
      [s.(endAt := s.endAt + length, children := s.children[..i] + m + ShiftAll(s.children[i + 1..], length))],
      offset, length, u, v)
  {
    var c, l, r := s.children[i], s.children[..i], s.children[i + 1..];
    var s' := s.(endAt := s.endAt + length, children := l + m + ShiftAll(r, length));
    SliceShape(s.children, s.startAt, s.endAt, s.context, i, i + 1);
    assert EndOf(s.children[..i + 1], s.startAt) == c.endAt;
    PrefixShape(s.children, s.startAt, s.endAt, s.context, i);
    ListDirt(l, [c], m, r, s.startAt, c.startAt, c.endAt, s.endAt, s.context, offset, length, u, v);
    assert s.children == l + [c] + r;
    DirtySingle(s, u, v);
    DirtySingle(s', u, v);
    DirtySingle(s', u + length, v + length);
  }

  // ----- lost beginnings -----

  /** A lost beginning left of the insertion was there before, and so was one right
      of the inserted text, at its old place. */
  ghost predicate InsertedNonStart(before: seq<Segment>, after: seq<Segment>, offset: int, length: nat, q: int) {
    && (q < offset ==> NonStart(after, q) ==> NonStart(before, q))
    && (q > offset + length ==> NonStart(after, q) ==> NonStart(before, q - length))
  }

  lemma ListNonStart(l: seq<Segment>, x: seq<Segment>, m: seq<Segment>, r: seq<Segment>,
                     lo: int, mid: int, end: int, hi: int, p: Option<Context>,
                     offset: int, length: nat, q: int)
    requires ValidForest(l, lo, mid, p) && ValidForest(r, end, hi, p) && mid <= offset <= end
    requires InsertedNonStart(x, m, offset, length, q)
    ensures InsertedNonStart(l + x + r, l + m + ShiftAll(r, length), offset, length, q)
  {
    hide NonStart, ValidForest, ShiftAll;
    NonStartAppend(l + m, ShiftAll(r, length), q);
    NonStartAppend(l, m, q);
    NonStartAppend(l + x, r, q);
    NonStartAppend(l, x, q);
    NonStartAppend(l + x, r, q - length);
    NonStartAppend(l, x, q - length);
    ShiftNonStart(r, length, q - length);
    if NonStart(l, q) { NonStartWithin(l, lo, mid, p, q); }
    if NonStart(r, q - length) { NonStartWithin(r, end, hi, p, q - length); }
  }

  lemma NonStartNone(q: int)
    ensures !NonStart([], q)
  {
  }

  lemma HereNonStart(s: Segment, k: nat, offset: int, length: nat, q: int)
    requires Valid(s) && IsPlace(s, [], k, offset)
    ensures InsertedNonStart([s], InsertHere(s, k, offset, length), offset, length, q)
  {
    hide NonStart, ValidForest, ShiftAll;
    NonStartSingle(s, q);
    NonStartSingle(s, q - length);
    NonStartNone(q);
    NonStartNone(q - length);
    if s.IsSimple() && s.startAt < offset < s.endAt {
      var x, i, y := s.(endAt := offset), InvalidSegment(offset, offset + length),
                     Segment(s.context, offset + length, s.endAt + length, false, []);
      assert InsertHere(s, k, offset, length) == [x] + [i] + [y];
      NonStartAppend([x] + [i], [y], q);
      NonStartAppend([x], [i], q);
      NonStartSingle(x, q);
      NonStartSingle(i, q);
      NonStartSingle(y, q);
    } else {
      NonStartSingle(InsertHere(s, k, offset, length)[0], q);
      if s.IsContainer() {
        var i := InvalidSegment(offset, offset + length);
        SliceShape(s.children, s.startAt, s.endAt, s.context, k, k);
        ForestRebound(s.children[..k], s.startAt, s.endAt, s.startAt, offset, s.context);
        ForestRebound(s.children[k..], EndOf(s.children[..k], s.startAt), s.endAt, offset, s.endAt, s.context);
        NonStartSingle(i, q);
        ListNonStart(s.children[..k], [], [i], s.children[k..], s.startAt, offset, offset, s.endAt, s.context, offset, length, q);
        assert s.children == s.children[..k] + [] + s.children[k..];
      }
    }
  }

  lemma {:induction false} AlongNonStart(s: Segment, path: Path, k: nat, offset: int, length: nat, q: int)
    requires Valid(s) && IsPlace(s, path, k, offset) && IsPath(s, path) && k <= |At(s, path).children|
    ensures InsertedNonStart([s], InsertAlong(s, path, k, offset, length), offset, length, q)
    decreases path
  {
    if path == [] {
      HereNonStart(s, k, offset, length, q);
    } else {
      var c := s.children[path[0]];
      ChildBounds(s, path[0]);
      AlongNonStart(c, path[1..], k, offset, length, q);
      ChildNonStart(s, path[0], InsertAlong(c, path[1..], k, offset, length), offset, length, q);
    }
  }

  lemma ChildNonStart(s: Segment, i: nat, m: seq<Segment>, offset: int, length: nat, q: int)
    requires Valid(s) && s.Touches(offset) && i < |s.children| && s.children[i].Touches(offset)
    requires InsertedNonStart([s.children[i]], m, offset, length, q)
    ensures InsertedNonStart([s],
      [s.(endAt := s.endAt + length, children := s.children[..i] + m + ShiftAll(s.children[i + 1..], length))],
      offset, length, q)
  {
    var c, l, r := s.children[i], s.children[..i], s.children[i + 1..];
    SliceShape(s.children, s.startAt, s.endAt, s.context, i, i + 1);
    assert EndOf(s.children[..i + 1], s.startAt) == c.endAt;
    PrefixShape(s.children, s.startAt, s.endAt, s.context, i);
    ListNonStart(l, [c], m, r, s.startAt, c.startAt, c.endAt, s.endAt, s.context, offset, length, q);
    assert s.children == l + [c] + r;
    NonStartSingle(s, q);
    NonStartSingle(s, q - length);
    NonStartSingle(s.(endAt := s.endAt + length, children := l + m + ShiftAll(r, length)), q);
  }

  lemma {:induction false} AlongSolid(s: Segment, path: Path, k: nat, offset: int, length: nat)
    requires IsPlace(s, path, k, offset) && IsPath(s, path) && k <= |At(s, path).children| && Solid([s])
    ensures Solid(InsertAlong(s, path, k, offset, length))
    decreases path
  {
    SolidSingle(s);
    if path == [] {
      HereSolid(s, k, offset, length);
    } else {
      var i, c := path[0], s.children[path[0]];
      var l, r := s.children[..i], s.children[i + 1..];
      assert s.children == l + ([c] + r);
      SolidAppend(l, [c] + r);
      SolidAppend([c], r);
      AlongSolid(c, path[1..], k, offset, length);
      var m := InsertAlong(c, path[1..], k, offset, length);
      ShiftSolid(r, length);
      SolidAppend(l + m, ShiftAll(r, length));
      SolidAppend(l, m);
      SolidSingle(InsertAlong(s, path, k, offset, length)[0]);
    }
  }

  lemma HereSolid(s: Segment, k: nat, offset: int, length: nat)
    requires IsPlace(s, [], k, offset) && Solid([s])
    ensures Solid(InsertHere(s, k, offset, length))
  {
    SolidSingle(s);
    if s.IsSimple() && s.startAt < offset < s.endAt {
      var x, i, y := s.(endAt := offset), InvalidSegment(offset, offset + length),
                     Segment(s.context, offset + length, s.endAt + length, false, []);
      assert InsertHere(s, k, offset, length) == [x] + [i] + [y];
      SolidAppend([x] + [i], [y]);
      SolidAppend([x], [i]);
      SolidSingle(x);
      SolidSingle(i);
      SolidSingle(y);
    } else {
      if s.IsContainer() {
        var i := InvalidSegment(offset, offset + length);
        var l, r := s.children[..k], s.children[k..];
        assert s.children == l + r;
        SolidAppend(l, r);
        ShiftSolid(r, length);
        SolidSingle(i);
        SolidAppend(l + [i], ShiftAll(r, length));
        SolidAppend(l, [i]);
      }
      SolidSingle(InsertHere(s, k, offset, length)[0]);
    }
  }

  // ----- removing an erased range [a, b) -----

  lemma FixSplitDirty(l: seq<Segment>, r: seq<Segment>, lo: int, hi: int, a: int, b: int, p: Option<Context>, x: int, y: int)
    requires a < b && ValidForest(l, lo, a, p) && ValidForest(r, b, hi, p)
    ensures x < y <= a ==> Dirty(l + r, x, y) ==> Dirty(l + ShiftAll(r, a - b), x, y)
    ensures b < x < y ==> Dirty(l + r, x, y) ==> Dirty(l + ShiftAll(r, a - b), x + (a - b), y + (a - b))
  {
    DirtyAppend(l, r, x, y);
    if Dirty(l, x, y) { DirtyWithin(l, lo, a, p, x, y); }
    if Dirty(r, x, y) { DirtyWithin(r, b, hi, p, x, y); }
    DirtyAppend(l, ShiftAll(r, a - b), x, y);
    DirtyAppend(l, ShiftAll(r, a - b), x + (a - b), y + (a - b));
    ShiftDirty(r, a - b, x, y);
  }

  lemma FixSplitNonStart(l: seq<Segment>, r: seq<Segment>, lo: int, hi: int, a: int, b: int, p: Option<Context>, q: int)
    requires a < b && ValidForest(l, lo, a, p) && ValidForest(r, b, hi, p)
    ensures q < a ==> NonStart(l + ShiftAll(r, a - b), q) ==> NonStart(l + r, q)
    ensures q > a ==> NonStart(l + ShiftAll(r, a - b), q) ==> NonStart(l + r, q + (b - a))
  {
    NonStartAppend(l, ShiftAll(r, a - b), q);
    NonStartAppend(l, r, q);
    NonStartAppend(l, r, q + (b - a));
    if NonStart(l, q) { NonStartWithin(l, lo, a, p, q); }
    ShiftNonStart(r, a - b, q + (b - a));
    if NonStart(r, q + (b - a)) { NonStartWithin(r, b, hi, p, q + (b - a)); }
  }

  // ----- whole trees -----

  /** An edit of the old range [lo, hi] that changes the length by `delta`: outside
      it whatever was to be analyzed still is, and every lost beginning was there
      before. */
  ghost predicate Follows(before: Segment, after: Segment, lo: int, hi: int, delta: int) {
    && (forall x, y :: x < y <= lo && Dirty(before.children, x, y) ==> Dirty(after.children, x, y))
    && (forall x, y :: hi < x < y && Dirty(before.children, x, y) ==> Dirty(after.children, x + delta, y + delta))
    && (forall q :: q < lo && NonStart(after.children, q) ==> NonStart(before.children, q))
    && (forall q :: q > hi + delta && NonStart(after.children, q) ==> NonStart(before.children, q - delta))
    && (Solid(before.children) ==> Solid(after.children))
  }

  lemma FollowsTwice(a: Segment, b: Segment, c: Segment, lo1: int, hi1: int, d1: int, lo2: int, hi2: int, d2: int, lo: int, hi: int)
    requires Follows(a, b, lo1, hi1, d1) && Follows(b, c, lo2, hi2, d2)
    requires lo <= lo1 && lo <= lo2 && hi1 <= hi && hi2 <= hi + d1
    ensures Follows(a, c, lo, hi, d1 + d2)
  {
    forall x, y | hi < x < y && Dirty(a.children, x, y) ensures Dirty(c.children, x + (d1 + d2), y + (d1 + d2)) {
      assert Dirty(b.children, x + d1, y + d1);
      assert x + d1 + d2 == x + (d1 + d2) && y + d1 + d2 == y + (d1 + d2);
    }
    forall q | q > hi + (d1 + d2) && NonStart(c.children, q) ensures NonStart(a.children, q - (d1 + d2)) {
      assert NonStart(b.children, q - d2);
      assert q - d2 - d1 == q - (d1 + d2);
    }
  }

  lemma FollowsSame(a: Segment, lo: int, hi: int)
    ensures Follows(a, a, lo, hi, 0)
  {
    forall x, y | hi < x < y && Dirty(a.children, x, y) ensures Dirty(a.children, x + 0, y + 0) {
      assert x + 0 == x && y + 0 == y;
    }
  }

  lemma InsertedFollows(root: Segment, path: Path, k: nat, offset: int, length: nat)
    requires ValidRoot(root) && IsPlace(root, path, k, offset)
    ensures Follows(root, Inserted(root, path, k, offset, length), offset, offset, length)
  {
    PlaceIsPath(root, path, k, offset);
    var r := Inserted(root, path, k, offset, length);
    assert InsertAlong(root, path, k, offset, length) == [r];
    forall x, y | x < y <= offset && Dirty(root.children, x, y) ensures Dirty(r.children, x, y) {
      AlongDirt(root, path, k, offset, length, x, y);
      DirtySingle(root, x, y);
      DirtySingle(r, x, y);
    }
    forall x, y | offset < x < y && Dirty(root.children, x, y) ensures Dirty(r.children, x + length, y + length) {
      AlongDirt(root, path, k, offset, length, x, y);
      DirtySingle(root, x, y);
      DirtySingle(r, x + length, y + length);
    }
    forall q | NonStart(r.children, q)
      ensures (q < offset ==> NonStart(root.children, q)) && (q > offset + length ==> NonStart(root.children, q - length))
    {
      AlongNonStart(root, path, k, offset, length, q);
      NonStartSingle(root, q);
      NonStartSingle(root, q - length);
      NonStartSingle(r, q);
    }
    if Solid(root.children) { RootSolid(root, path, k, offset, length); }
  }

  lemma SolidGap(cs: seq<Segment>, k: nat, i: Segment, length: nat)
    requires k <= |cs| && Solid(cs) && i.IsInvalid() && i.children == []
    ensures Solid(cs[..k] + [i] + ShiftAll(cs[k..], length))
  {
    var l, r := cs[..k], cs[k..];
    assert cs == l + r && Solid([]);
    hide Solid, ShiftAll;
    SolidAppend(l, r);
    ShiftSolid(r, length);
    SolidSingle(i);
    SolidAppend(l + [i], ShiftAll(r, length));
    SolidAppend(l, [i]);
  }

  lemma RootSolid(s: Segment, path: Path, k: nat, offset: int, length: nat)
    requires s.IsContainer() && IsPlace(s, path, k, offset) && IsPath(s, path) && k <= |At(s, path).children|
    requires Solid(s.children)
    ensures Solid(InsertAlong(s, path, k, offset, length)[0].children)
  {
    hide Solid, ShiftAll;
    if path == [] {
      SolidGap(s.children, k, InvalidSegment(offset, offset + length), length);
    } else {
      var i, c := path[0], s.children[path[0]];
      var l, r := s.children[..i], s.children[i + 1..];
      assert s.children == l + ([c] + r);
      SolidAppend(l, [c] + r);
      SolidAppend([c], r);
      AlongSolid(c, path[1..], k, offset, length);
      var m := InsertAlong(c, path[1..], k, offset, length);
      ShiftSolid(r, length);
      SolidAppend(l + m, ShiftAll(r, length));
      SolidAppend(l, m);
    }
  }

  lemma DeletedDirty(root: Segment, a: int, b: int, x: int, y: int)
    requires ValidRoot(root) && 0 <= a < b <= root.endAt && x < y && Dirty(root.children, x, y)
    ensures y <= a ==> Dirty(Deleted(root, a, b).children, x, y)
    ensures b < x ==> Dirty(Deleted(root, a, b).children, x + (a - b), y + (a - b))
  {
    var l, r := DeletedParts(root, a, b);
    EraseForestDirt(root.children, 0, root.endAt, a, b, root.context, x, y);
    FixSplitDirty(l, r, 0, root.endAt, a, b, root.context, x, y);
  }

  lemma DeletedNonStart(root: Segment, a: int, b: int, q: int)
    requires ValidRoot(root) && 0 <= a < b <= root.endAt && NonStart(Deleted(root, a, b).children, q)
    ensures q < a ==> NonStart(root.children, q)
    ensures q > a ==> NonStart(root.children, q - (a - b))
  {
    var l, r := DeletedParts(root, a, b);
    FixSplitNonStart(l, r, 0, root.endAt, a, b, root.context, q);
    if q < a {
      EraseForestNonStart(root.children, 0, root.endAt, a, b, root.context, q);
    } else if q > a {
      assert q + (b - a) == q - (a - b);
      EraseForestNonStart(root.children, 0, root.endAt, a, b, root.context, q - (a - b));
    }
  }

  lemma DeletedSolid(root: Segment, a: int, b: int)
    requires ValidRoot(root) && 0 <= a < b <= root.endAt && Solid(root.children)
    ensures Solid(Deleted(root, a, b).children)
  {
    var l, r := DeletedParts(root, a, b);
    EraseForestSolid(root.children, 0, root.endAt, a, b, root.context);
    SolidAppend(l, r);
    ShiftSolid(r, a - b);
    SolidAppend(l, ShiftAll(r, a - b));
  }

  lemma DeletedFollows(root: Segment, a: int, b: int)
    requires ValidRoot(root) && 0 <= a < b <= root.endAt
    ensures Follows(root, Deleted(root, a, b), a, b, a - b)
  {
    var after := Deleted(root, a, b);
    forall x, y | x < y <= a && Dirty(root.children, x, y) ensures Dirty(after.children, x, y) {
      DeletedDirty(root, a, b, x, y);
    }
    forall x, y | b < x < y && Dirty(root.children, x, y) ensures Dirty(after.children, x + (a - b), y + (a - b)) {
      DeletedDirty(root, a, b, x, y);
    }
    forall q | q < a && NonStart(after.children, q) ensures NonStart(root.children, q) {
      DeletedNonStart(root, a, b, q);
    }
    forall q | q > b + (a - b) && NonStart(after.children, q) ensures NonStart(root.children, q - (a - b)) {
      DeletedNonStart(root, a, b, q);
    }
    if Solid(root.children) { DeletedSolid(root, a, b); }
  }

  lemma InvalidatedFollows(root: Segment, a: int, b: int, k: nat)
    requires ValidRoot(root) && 0 <= a < b <= root.endAt && k <= |EraseForest(root.children, a, b)|
    ensures Follows(root, Invalidated(root, a, b, k), a, b, 0)
  {
    var kids, i := EraseForest(root.children, a, b), InvalidSegment(a, b);
    var after := Invalidated(root, a, b, k);
    var l, r := kids[..k], kids[k..];
    assert kids == l + r && after.children == l + [i] + r;
    forall x, y | x < y && (y <= a || b < x) && Dirty(root.children, x, y) ensures Dirty(after.children, x, y) {
      EraseForestDirt(root.children, 0, root.endAt, a, b, root.context, x, y);
      DirtyAppend(l, r, x, y);
      DirtyAppend(l + [i], r, x, y);
      DirtyAppend(l, [i], x, y);
    }
    forall x, y | b < x < y && Dirty(root.children, x, y) ensures Dirty(after.children, x + 0, y + 0) {
      assert x + 0 == x && y + 0 == y;
    }
    forall q | NonStart(after.children, q) && q != b ensures NonStart(root.children, q) {
      NonStartAppend(l + [i], r, q);
      NonStartAppend(l, [i], q);
      NonStartSingle(i, q);
      NonStartAppend(l, r, q);
      EraseForestNonStart(root.children, 0, root.endAt, a, b, root.context, q);
    }
    if Solid(root.children) {
      EraseForestSolid(root.children, 0, root.endAt, a, b, root.context);
      SolidAppend(l, r);
      SolidSingle(i);
      SolidAppend(l + [i], r);
      SolidAppend(l, [i]);
    }
  }
}
