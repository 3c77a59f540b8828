/** Inserting text into the tree (`insert_range`, `find_insertion_place`,
    `fix_offsets_insert_`, `simple_segment_split_`, `segment_make_invalid_`). */
module SegmentInsert {
  import opened Wrappers
  import opened Contexts
  import opened SegmentTree

  // ----- moving everything to the right of the insertion -----

  function Shift(s: Segment, delta: int): Segment
    decreases s, 1
  {
    s.(startAt := s.startAt + delta, endAt := s.endAt + delta, children := ShiftAll(s.children, delta))
  }

  function ShiftAll(cs: seq<Segment>, delta: int): (r: seq<Segment>)
    ensures |r| == |cs|
    ensures forall i :: 0 <= i < |cs| ==> r[i] == Shift(cs[i], delta)
    decreases cs, 0
  {
    if cs == [] then [] else [Shift(cs[0], delta)] + ShiftAll(cs[1..], delta)
  }

  function ShiftMark(m: Mark, delta: int): Mark {
    m.(startAt := m.startAt + delta)
  }

  lemma {:induction false} ShiftShape(cs: seq<Segment>, lo: int, hi: int, p: Option<Context>, delta: int)
    requires ValidForest(cs, lo, hi, p)
    ensures ValidForest(ShiftAll(cs, delta), lo + delta, hi + delta, p)
    decreases cs
  {
    if cs != [] {
      ShiftShape(cs[0].children, cs[0].startAt, cs[0].endAt, cs[0].context, delta);
      ShiftShape(cs[1..], cs[0].endAt, hi, p, delta);
      assert ShiftAll(cs, delta)[1..] == ShiftAll(cs[1..], delta);
    }
  }

  lemma {:induction false} ShiftMarks(cs: seq<Segment>, delta: int, o: int, outer: Mark)
    ensures MarkIn(ShiftAll(cs, delta), o + delta, ShiftMark(outer, delta)) ==
            ShiftMark(MarkIn(cs, o, outer), delta)
    decreases cs
  {
    if cs != [] {
      assert ShiftAll(cs, delta)[1..] == ShiftAll(cs[1..], delta);
      ShiftMarks(cs[0].children, delta, o, Own(cs[0]));
      ShiftMarks(cs[1..], delta, o, outer);
    }
  }

  lemma ShiftCovered(cs: seq<Segment>, delta: int, o: int)
    ensures Covered(ShiftAll(cs, delta), o + delta) <==> Covered(cs, o)
  {
    forall i | 0 <= i < |cs| ensures ShiftAll(cs, delta)[i].Covers(o + delta) <==> cs[i].Covers(o) {
    }
    if Covered(cs, o) {
      var i :| 0 <= i < |cs| && cs[i].Covers(o);
      assert ShiftAll(cs, delta)[i].Covers(o + delta);
    }
  }

  // ----- the insertion -----

  /** Insertion of `length` characters at `offset` into the segment that is the
      insertion place; `k` children of it lie to the left. */
  function InsertHere(s: Segment, k: nat, offset: int, length: nat): seq<Segment>
    requires k <= |s.children|
  {
    if s.IsInvalid() then
      [s.(endAt := s.endAt + length)]
    else if s.IsSimple() then
      if s.startAt < offset < s.endAt then
        [s.(endAt := offset),
         InvalidSegment(offset, offset + length),
         Segment(s.context, offset + length, s.endAt + length, false, [])]
      else
        [s.(context := None, isStart := false, endAt := s.endAt + length)]
    else
      [s.(endAt := s.endAt + length,
          children := s.children[..k] + [InvalidSegment(offset, offset + length)]
                      + ShiftAll(s.children[k..], length))]
  }

  /** The same below the segment `s`, down `path`: later siblings on every level
      are moved and every segment on the way is extended. */
  function InsertAlong(s: Segment, path: Path, k: nat, offset: int, length: nat): seq<Segment>
    requires IsPath(s, path) && k <= |At(s, path).children|
    decreases path
  {
    if path == [] then InsertHere(s, k, offset, length)
    else
      var i := path[0];
      [s.(endAt := s.endAt + length,
          children := s.children[..i] + InsertAlong(s.children[i], path[1..], k, offset, length)
                      + ShiftAll(s.children[i + 1..], length))]
  }

  /** What the search for the insertion place promises, whatever the hint. */
  predicate IsPlace(s: Segment, path: Path, k: nat, offset: int)
    decreases path
  {
    && s.Touches(offset)
    && if path == [] then
         && k <= |s.children|
         && (forall i :: 0 <= i < k ==> s.children[i].endAt <= offset)
         && (forall i :: k <= i < |s.children| ==> offset <= s.children[i].startAt)
       else
         && path[0] < |s.children|
         && IsPlace(s.children[path[0]], path[1..], k, offset)
  }

  /** The search goes down as far as it can. */
  predicate Innermost(s: Segment, path: Path, offset: int)
    decreases path
  {
    if path == [] then
      s.children == [] || s.startAt == offset || forall i :: 0 <= i < |s.children| ==> !s.children[i].Touches(offset)
    else
      path[0] < |s.children| && Innermost(s.children[path[0]], path[1..], offset)
  }

  lemma PlaceIsPath(s: Segment, path: Path, k: nat, offset: int)
    requires IsPlace(s, path, k, offset)
    ensures IsPath(s, path) && k <= |At(s, path).children| && At(s, path).Touches(offset)
    decreases path
  {
    if path != [] { PlaceIsPath(s.children[path[0]], path[1..], k, offset); }
  }

  // ----- shape -----

  lemma HereShape(s: Segment, k: nat, offset: int, length: nat, p: Option<Context>)
    requires Valid(s) && Fits(s.context, p) && IsPlace(s, [], k, offset)
    ensures ValidForest(InsertHere(s, k, offset, length), s.startAt, s.endAt + length, p)
  {
    if s.IsInvalid() {
      SingleShape(s.(endAt := s.endAt + length), s.startAt, s.endAt + length, p);
    } else if s.IsSimple() {
      if s.startAt < offset < s.endAt {
        var l, i, r := s.(endAt := offset), InvalidSegment(offset, offset + length),
                       Segment(s.context, offset + length, s.endAt + length, false, []);
        SingleShape(l, s.startAt, offset, p);
        SingleShape(i, offset, offset + length, p);
        SingleShape(r, offset + length, s.endAt + length, p);
        JoinShape([l], s.startAt, offset, [i], offset + length, s.startAt, p);
        JoinShape([l] + [i], s.startAt, offset + length, [r], s.endAt + length, s.startAt, p);
        assert InsertHere(s, k, offset, length) == [l] + [i] + [r];
      } else {
        SingleShape(s.(context := None, isStart := false, endAt := s.endAt + length), s.startAt, s.endAt + length, p);
      }
    } else {
      ContainerShape(s, k, offset, length);
      SingleShape(InsertHere(s, k, offset, length)[0], s.startAt, s.endAt + length, p);
    }
  }

  lemma ContainerShape(s: Segment, k: nat, offset: int, length: nat)
    requires Valid(s) && s.IsContainer() && IsPlace(s, [], k, offset)
    ensures Valid(InsertHere(s, k, offset, length)[0])
  {
    var i := InvalidSegment(offset, offset + length);
    SideShape(s, k, k, offset, length);
    SingleShape(i, offset, offset + length, s.context);
    JoinShape(s.children[..k], s.startAt, offset, [i], offset + length, s.startAt, s.context);
    JoinShape(s.children[..k] + [i], s.startAt, offset + length, ShiftAll(s.children[k..], length), s.endAt + length, s.startAt, s.context);
  }

  /** The children on either side of an insertion place. */
  lemma SideShape(s: Segment, i: nat, j: nat, offset: int, length: nat)
    requires Valid(s) && i <= j <= |s.children| && s.Touches(offset)
    requires forall n :: 0 <= n < i ==> s.children[n].endAt <= offset
    requires forall n :: j <= n < |s.children| ==> offset <= s.children[n].startAt
    ensures ValidForest(s.children[..i], s.startAt, offset, s.context)
    ensures ValidForest(ShiftAll(s.children[j..], length), offset + length, s.endAt + length, s.context)
  {
    SliceShape(s.children, s.startAt, s.endAt, s.context, i, j);
    ForestRebound(s.children[..i], s.startAt, s.endAt, s.startAt, offset, s.context);
    ForestRebound(s.children[j..], EndOf(s.children[..j], s.startAt), s.endAt, offset, s.endAt, s.context);
    ShiftShape(s.children[j..], offset, s.endAt, s.context, length);
  }

  lemma {:induction false} AlongShape(s: Segment, path: Path, k: nat, offset: int, length: nat, p: Option<Context>)
    requires Valid(s) && Fits(s.context, p) && IsPlace(s, path, k, offset) && IsPath(s, path)
    requires k <= |At(s, path).children|
    ensures ValidForest(InsertAlong(s, path, k, offset, length), s.startAt, s.endAt + length, p)
    decreases path
  {
    hide ValidForest, ShiftAll;
    if path == [] {
      HereShape(s, k, offset, length, p);
    } else {
      var c := s.children[path[0]];
      ChildBounds(s, path[0]);
      AlongShape(c, path[1..], k, offset, length, s.context);
      ParentShape(s, path, k, offset, length);
      SingleShape(InsertAlong(s, path, k, offset, length)[0], s.startAt, s.endAt + length, p);
    }
  }

  /** Child `i` replaced by `m`, the later siblings moved, the end extended. */
  lemma ReplaceShape(s: Segment, i: nat, m: seq<Segment>, length: nat)
    requires Valid(s) && i < |s.children|
    requires ValidForest(m, s.children[i].startAt, s.children[i].endAt + length, s.context)
    ensures Valid(s.(endAt := s.endAt + length,
                     children := s.children[..i] + m + ShiftAll(s.children[i + 1..], length)))
  {
    var c, l, r := s.children[i], s.children[..i], ShiftAll(s.children[i + 1..], length);
    SiblingShape(s, i, length);
    JoinShape(l, s.startAt, c.startAt, m, c.endAt + length, s.startAt, s.context);
    JoinShape(l + m, s.startAt, c.endAt + length, r, s.endAt + length, s.startAt, s.context);
  }

  /** A segment on the way to the insertion place. */
  lemma ParentShape(s: Segment, path: Path, k: nat, offset: int, length: nat)
    requires Valid(s) && path != [] && IsPath(s, path) && k <= |At(s, path).children|
    requires var c := s.children[path[0]];
      ValidForest(InsertAlong(c, path[1..], k, offset, length), c.startAt, c.endAt + length, s.context)
    ensures var r := InsertAlong(s, path, k, offset, length);
      |r| == 1 && Valid(r[0]) && r[0].context == s.context && r[0].startAt == s.startAt && r[0].endAt == s.endAt + length
  {
    hide ValidForest, ShiftAll, Valid;
    ReplaceShape(s, path[0], InsertAlong(s.children[path[0]], path[1..], k, offset, length), length);
  }

  /** The same for a segment that no other contains. */
  lemma RootShape(s: Segment, path: Path, k: nat, offset: int, length: nat)
    requires Valid(s) && s.IsContainer() && IsPlace(s, path, k, offset) && IsPath(s, path)
    requires k <= |At(s, path).children|
    ensures Valid(InsertAlong(s, path, k, offset, length)[0])
  {
    if path == [] {
      ContainerShape(s, k, offset, length);
    } else {
      var c := s.children[path[0]];
      ChildBounds(s, path[0]);
      AlongShape(c, path[1..], k, offset, length, s.context);
      ParentShape(s, path, k, offset, length);
    }
  }

  /** The siblings before and after child `i`. */
  lemma SiblingShape(s: Segment, i: nat, length: nat)
    requires Valid(s) && i < |s.children|
    ensures ValidForest(s.children[..i], s.startAt, s.children[i].startAt, s.context)
    ensures ValidForest(ShiftAll(s.children[i + 1..], length), s.children[i].endAt + length, s.endAt + length, s.context)
  {
    hide ValidForest, ShiftAll;
    ForestBounds(s.children, s.startAt, s.endAt, s.context);
    SliceShape(s.children, s.startAt, s.endAt, s.context, i, i + 1);
    ForestRebound(s.children[..i], s.startAt, s.endAt, s.startAt, s.children[i].startAt, s.context);
    ShiftShape(s.children[i + 1..], s.children[i].endAt, s.endAt, s.context, length);
  }

  // ----- the invalid segment is there -----

  lemma {:induction false} AlongInvalid(s: Segment, path: Path, k: nat, offset: int, length: nat)
    requires IsPlace(s, path, k, offset) && IsPath(s, path) && k <= |At(s, path).children|
    ensures HasInvalid(InsertAlong(s, path, k, offset, length), offset, offset + length)
    decreases path
  {
    if path == [] {
      if s.IsContainer() {
        var i := InvalidSegment(offset, offset + length);
        HasInvalidAppend(s.children[..k] + [i], ShiftAll(s.children[k..], length), offset, offset + length);
        HasInvalidAppend(s.children[..k], [i], offset, offset + length);
      } else if s.IsSimple() && s.startAt < offset < s.endAt {
        assert InsertHere(s, k, offset, length)[1..][0] == InvalidSegment(offset, offset + length);
      }
    } else {
      var i, c := path[0], s.children[path[0]];
      AlongInvalid(c, path[1..], k, offset, length);
      var l, m, r := s.children[..i], InsertAlong(c, path[1..], k, offset, length), ShiftAll(s.children[i + 1..], length);
      HasInvalidAppend(l + m, r, offset, offset + length);
      HasInvalidAppend(l, m, offset, offset + length);
    }
  }

  // ----- marks -----

  /** The segment whose characters an insertion at place `s` makes invalid: a
      simple segment that the text is inserted next to, not into. */
  function Lost(s: Segment, offset: int): Option<Mark> {
    if s.IsSimple() && !(s.startAt < offset < s.endAt) then Some(Own(s)) else None
  }

  /** What becomes of the mark of a character: its deepest segment is the same
      one, which may have been moved with the character or be the second half of
      a split simple segment; or it was the lost segment. */
  predicate InsertedMark(m': Mark, m: Mark, offset: int, length: nat, lost: Option<Mark>) {
    m' == m || m' == ShiftMark(m, length) || m' == Mark(m.context, offset + length, false)
    || (Some(m) == lost && m'.context.None?)
  }

  /** The position after the insertion of the character that was at `o`. */
  function Moved(o: int, offset: int, length: nat): int {
    if o < offset then o else o + length
  }

  lemma MovedMarks(cs: seq<Segment>, delta: int, o: int, outer: Mark)
    ensures MarkIn(ShiftAll(cs, delta), o + delta, outer) ==
            if Covered(cs, o) then ShiftMark(MarkIn(cs, o, outer), delta) else outer
  {
    hide MarkIn;
    ShiftCovered(cs, delta, o);
    if Covered(cs, o) {
      ShiftMarks(cs, delta, o, outer);
      MarkCovered(ShiftAll(cs, delta), o + delta, outer, ShiftMark(outer, delta));
    } else {
      MarkUncovered(ShiftAll(cs, delta), o + delta, outer);
    }
  }

  /** The marks of a list of siblings l + m + moved(r) that replaces l + x + r,
      where m holds the insertion. */
  lemma ReplaceMarks(l: seq<Segment>, x: seq<Segment>, m: seq<Segment>, r: seq<Segment>,
                     lo: int, mid: int, end: int, hi: int, p: Option<Context>,
                     offset: int, length: nat, lost: Option<Mark>, o: int, outer: Mark)
    requires ValidForest(l, lo, mid, p) && ValidForest(m, mid, end + length, p) && ValidForest(r, end, hi, p)
    requires ValidForest(x, mid, end, p) && mid <= offset <= end
    requires var o' := Moved(o, offset, length);
      if Covered(x, o) then InsertedMark(MarkIn(m, o', outer), MarkIn(x, o, outer), offset, length, lost) && Covered(m, o')
      else !Covered(m, o')
    ensures var o' := Moved(o, offset, length);
      InsertedMark(MarkIn(l + m + ShiftAll(r, length), o', outer), MarkIn(l + x + r, o, outer), offset, length, lost)
  {
    var o', r' := Moved(o, offset, length), ShiftAll(r, length);
    MarkAppend(l + m, r', o', outer);
    MarkAppend(l, m, o', MarkIn(r', o', outer));
    MarkAppend(l + x, r, o, outer);
    MarkAppend(l, x, o, MarkIn(r, o, outer));
    ForestBounds(l, lo, mid, p);
    ForestBounds(r, end, hi, p);
    if o < offset {
      LeftOfMoved(r, end, hi, p, length, o);
      MarkUncovered(r', o', outer);
      MarkUncovered(r, o, outer);
      if !Covered(x, o) {
        MarkUncovered(x, o, outer);
        MarkUncovered(m, o, outer);
      }
      LeftMarks(l, o, MarkIn(m, o, outer), MarkIn(x, o, outer), offset, length, lost);
    } else {
      assert !Covered(l, o) && !Covered(l, o');
      MarkUncovered(l, o', MarkIn(m, o', MarkIn(r', o', outer)));
      MarkUncovered(l, o, MarkIn(x, o, MarkIn(r, o, outer)));
      MovedMarks(r, length, o, outer);
      if Covered(x, o) {
        MarkCovered(x, o, outer, MarkIn(r, o, outer));
        MarkCovered(m, o', outer, MarkIn(r', o', outer));
      } else {
        MarkUncovered(x, o, MarkIn(r, o, outer));
        MarkUncovered(m, o', MarkIn(r', o', outer));
        if !Covered(r, o) { MarkUncovered(r, o, outer); }
      }
    }
  }

  lemma LeftMarks(l: seq<Segment>, o: int, m': Mark, m: Mark, offset: int, length: nat, lost: Option<Mark>)
    requires InsertedMark(m', m, offset, length, lost)
    ensures InsertedMark(MarkIn(l, o, m'), MarkIn(l, o, m), offset, length, lost)
  {
    if Covered(l, o) {
      MarkCovered(l, o, m', m);
    } else {
      MarkUncovered(l, o, m);
      MarkUncovered(l, o, m');
    }
  }

  lemma LeftOfMoved(r: seq<Segment>, lo: int, hi: int, p: Option<Context>, length: nat, o: int)
    requires ValidForest(r, lo, hi, p) && o < lo
    ensures !Covered(r, o) && !Covered(ShiftAll(r, length), o)
  {
    ForestBounds(r, lo, hi, p);
  }

  /** What the insertion into `s` with result `r` does to the character at `o`. */
  predicate MarksMoved(s: Segment, r: seq<Segment>, offset: int, length: nat, lost: Option<Mark>, o: int, outer: Mark) {
    var o' := Moved(o, offset, length);
    if s.Covers(o) then InsertedMark(MarkIn(r, o', outer), MarkAt(s, o), offset, length, lost) && Covered(r, o')
    else !Covered(r, o')
  }

  lemma HereMarks(s: Segment, k: nat, offset: int, length: nat, o: int, outer: Mark)
    requires Valid(s) && IsPlace(s, [], k, offset)
    ensures MarksMoved(s, InsertHere(s, k, offset, length), offset, length, Lost(s, offset), o, outer)
  {
    hide ValidForest, MarkIn, ShiftAll;
    var o', r := Moved(o, offset, length), InsertHere(s, k, offset, length);
    if s.IsSimple() && s.startAt < offset < s.endAt {
      ThreeMarks(s.(endAt := offset), InvalidSegment(offset, offset + length), Segment(s.context, offset + length, s.endAt + length, false, []), o', outer);
      ChildlessMark(s, o);
    } else {
      MarkSingle(r[0], o', outer);
      CoveredSingle(r[0], o');
      if s.IsContainer() && s.Covers(o) {
        ContainerMarks(s, k, offset, length, o);
      } else if !s.IsContainer() {
        ChildlessMark(s, o);
        ChildlessMark(r[0], o');
      }
    }
  }

  lemma ChildlessMark(s: Segment, o: int)
    requires s.children == []
    ensures MarkAt(s, o) == Own(s)
  {
  }

  lemma ThreeMarks(x: Segment, i: Segment, y: Segment, o: int, outer: Mark)
    requires x.children == [] && i.children == [] && y.children == []
    ensures MarkIn([x, i, y], o, outer) == if x.Covers(o) then Own(x) else if i.Covers(o) then Own(i) else if y.Covers(o) then Own(y) else outer
    ensures Covered([x, i, y], o) <==> x.Covers(o) || i.Covers(o) || y.Covers(o)
  {
    hide MarkIn;
    assert [x, i, y] == [x] + [i] + [y];
    MarkAppend([x] + [i], [y], o, outer);
    MarkAppend([x], [i], o, MarkIn([y], o, outer));
    MarkSingle(x, o, MarkIn([i], o, MarkIn([y], o, outer)));
    MarkSingle(i, o, MarkIn([y], o, outer));
    MarkSingle(y, o, outer);
    CoveredAppend([x] + [i], [y], o);
    CoveredAppend([x], [i], o);
    CoveredSingle(x, o);
    CoveredSingle(i, o);
    CoveredSingle(y, o);
    ChildlessMark(x, o);
    ChildlessMark(i, o);
    ChildlessMark(y, o);
  }

  lemma NothingShape(lo: int, hi: int, p: Option<Context>)
    requires lo <= hi
    ensures ValidForest([], lo, hi, p)
  {
  }

  lemma NothingMarked(o: int, outer: Mark)
    ensures MarkIn([], o, outer) == outer
  {
  }

  lemma ContainerMarks(s: Segment, k: nat, offset: int, length: nat, o: int)
    requires Valid(s) && IsPlace(s, [], k, offset)
    ensures InsertedMark(
      MarkIn(s.children[..k] + [InvalidSegment(offset, offset + length)] + ShiftAll(s.children[k..], length),
             Moved(o, offset, length), Own(s)),
      MarkAt(s, o), offset, length, None)
  {
    hide ValidForest, MarkIn, ShiftAll;
    var i := InvalidSegment(offset, offset + length);
    SliceShape(s.children, s.startAt, s.endAt, s.context, k, k);
    ForestRebound(s.children[..k], s.startAt, s.endAt, s.startAt, offset, s.context);
    ForestRebound(s.children[k..], EndOf(s.children[..k], s.startAt), s.endAt, offset, s.endAt, s.context);
    NothingShape(offset, offset, s.context);
    NothingShape(offset, offset + length, None);
    SingleShape(i, offset, offset + length, s.context);
    CoveredSingle(i, Moved(o, offset, length));
    NothingMarked(o, Own(s));
    ReplaceMarks(s.children[..k], [], [i], s.children[k..], s.startAt, offset, offset, s.endAt, s.context,
                 offset, length, None, o, Own(s));
    assert s.children == s.children[..k] + [] + s.children[k..];
  }

  lemma {:induction false} AlongMarks(s: Segment, path: Path, k: nat, offset: int, length: nat, o: int, outer: Mark)
    requires Valid(s) && IsPlace(s, path, k, offset) && IsPath(s, path) && k <= |At(s, path).children|
    ensures MarksMoved(s, InsertAlong(s, path, k, offset, length), offset, length, Lost(At(s, path), offset), o, outer)
    decreases path
  {
    if path == [] {
      HereMarks(s, k, offset, length, o, outer);
    } else {
      var c := s.children[path[0]];
      ChildBounds(s, path[0]);
      AlongMarks(c, path[1..], k, offset, length, o, Own(s));
      AlongShape(c, path[1..], k, offset, length, s.context);
      ChildMarks(s, path[0], InsertAlong(c, path[1..], k, offset, length), offset, length, Lost(At(s, path), offset), o, outer);
    }
  }

  lemma ChildMarks(s: Segment, i: nat, m: seq<Segment>, offset: int, length: nat, lost: Option<Mark>, o: int, outer: Mark)
    requires Valid(s) && s.Touches(offset) && i < |s.children| && s.children[i].Touches(offset)
    requires ValidForest(m, s.children[i].startAt, s.children[i].endAt + length, s.context)
    requires MarksMoved(s.children[i], m, offset, length, lost, o, Own(s))
    ensures MarksMoved(s,
      [s.(endAt := s.endAt + length, children := s.children[..i] + m + ShiftAll(s.children[i + 1..], length))],
      offset, length, lost, o, outer)
  {
    hide ValidForest, MarkIn, ShiftAll;
    var c, l, r := s.children[i], s.children[..i], s.children[i + 1..];
    var s' := s.(endAt := s.endAt + length, children := l + m + ShiftAll(r, length));
    MarkSingle(s', Moved(o, offset, length), outer);
    CoveredSingle(s', Moved(o, offset, length));
    if s.Covers(o) {
      SliceShape(s.children, s.startAt, s.endAt, s.context, i, i + 1);
      assert EndOf(s.children[..i + 1], s.startAt) == c.endAt;
      assert s.children == l + [c] + r;
      PrefixShape(s.children, s.startAt, s.endAt, s.context, i);
      CoveredSingle(c, o);
      MarkSingle(c, o, Own(s));
      ReplaceMarks(l, [c], m, r, s.startAt, c.startAt, c.endAt, s.endAt, s.context, offset, length, lost, o, Own(s));
    }
  }

  /** The siblings before child `i`, and child `i` alone. */
  lemma PrefixShape(cs: seq<Segment>, lo: int, hi: int, p: Option<Context>, i: nat)
    requires ValidForest(cs, lo, hi, p) && i < |cs|
    ensures ValidForest(cs[..i], lo, cs[i].startAt, p)
    ensures ValidForest([cs[i]], cs[i].startAt, cs[i].endAt, p)
  {
    ForestBounds(cs, lo, hi, p);
    SliceShape(cs, lo, hi, p, i, i);
    ForestRebound(cs[..i], lo, hi, lo, cs[i].startAt, p);
    SingleShape(cs[i], cs[i].startAt, cs[i].endAt, p);
  }

  // ----- the search for the insertion place -----

  /** `find_insertion_place`.  `hint` is the child of `s` that the search hint
      lies under; a value that is no child index stands for no hint. */
  method FindInsertionPlace(s: Segment, offset: int, hint: nat) returns (path: Path, k: nat)
    requires Valid(s) && s.Touches(offset)
    ensures IsPlace(s, path, k, offset) && Innermost(s, path, offset)
    decreases s, 1
  {
    ForestBounds(s.children, s.startAt, s.endAt, s.context);
    if s.IsInvalid() || s.children == [] || s.startAt == offset {
      path, k := [], 0;
      return;
    }
    var from := if hint < |s.children| then hint else 0;
    if s.children[from].endAt < offset {
      path, k := FindForward(s, offset, from);
    } else {
      path, k := FindBackward(s, offset, from);
    }
  }

  method FindForward(s: Segment, offset: int, from: nat) returns (path: Path, k: nat)
    requires Valid(s) && s.Touches(offset) && from < |s.children| && s.children[from].endAt < offset
    ensures IsPlace(s, path, k, offset) && Innermost(s, path, offset)
    decreases s, 0
  {
    ForestBounds(s.children, s.startAt, s.endAt, s.context);
    var i := from;
    while i < |s.children|
      invariant from <= i <= |s.children|
      invariant forall j :: 0 <= j < i ==> s.children[j].endAt < offset
    {
      var child := s.children[i];
      if child.startAt <= offset && child.endAt >= offset {
        path, k := FindInsertionPlace(child, offset, |child.children|);
        path := [i] + path;
        return;
      }
      if child.startAt > offset {
        break;
      }
      i := i + 1;
    }
    path, k := [], i;
  }

  method FindBackward(s: Segment, offset: int, from: nat) returns (path: Path, k: nat)
    requires Valid(s) && s.Touches(offset) && from < |s.children| && s.children[from].endAt >= offset
    ensures IsPlace(s, path, k, offset) && Innermost(s, path, offset)
    decreases s, 0
  {
    hide ValidForest;
    ForestBounds(s.children, s.startAt, s.endAt, s.context);
    var i := from + 1;
    while i > 0
      invariant 0 <= i <= from + 1
      invariant forall j :: i <= j < |s.children| ==> offset <= s.children[j].startAt && (i <= from ==> offset < s.children[j].startAt)
    {
      var child := s.children[i - 1];
      if child.startAt <= offset && child.endAt >= offset {
        path, k := FindInsertionPlace(child, offset, |child.children|);
        path := [i - 1] + path;
        return;
      }
      if child.endAt < offset {
        break;
      }
      i := i - 1;
    }
    path, k := [], i;
  }
}
