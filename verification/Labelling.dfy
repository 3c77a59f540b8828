/** What the tree operations do to the whole tree, seen character by character. */
module Labelling {
  import opened Wrappers
  import opened Contexts
  import opened SegmentTree
  import opened SegmentErase
  import opened SegmentInsert
  import opened InvalidList
  import opened SegmentDelete
  import opened SegmentCreate

  /** The context path of the character at `o`; None when it is invalid. */
  function ContextAt(root: Segment, o: int): Option<Context> {
    MarkAt(root, o).context
  }

  /** An edit of [lo, hi] may cost a character outside it its context only when
      the character belongs to a simple segment that reaches the edit: the one
      that runs up to `lo`, or one that starts at or before `hi`. */
  predicate MayLose(before: Segment, o: int, lo: int, hi: int) {
    var m := MarkAt(before, o);
    && m.context.Some?
    && m.context.value.IsSimple()
    && (if o < lo then m == MarkAt(before, lo - 1) else m.startAt <= hi)
  }

  predicate KeptOrLost(c': Option<Context>, before: Segment, o: int, lo: int, hi: int) {
    c' == ContextAt(before, o) || (c' == None && MayLose(before, o, lo, hi))
  }

  // ----- erasing -----

  function Erased(root: Segment, a: int, b: int): Segment {
    root.(children := EraseForest(root.children, a, b))
  }

  lemma ErasedRoot(root: Segment, a: int, b: int)
    requires ValidRoot(root) && a < b
    ensures ValidRoot(Erased(root, a, b)) && AllClear(EraseForest(root.children, a, b), a, b)
  {
    EraseForestShape(root.children, root.startAt, root.endAt, a, b, root.context);
  }

  lemma ErasedRootMarks(root: Segment, a: int, b: int, o: int)
    requires ValidRoot(root) && a < b && (o < a || b <= o)
    ensures MarkAt(Erased(root, a, b), o) ==
            if Covered(root.children, o) then ErasedMark(MarkAt(root, o), o, b) else Own(root)
    ensures ContextAt(Erased(root, a, b), o) == ContextAt(root, o)
  {
    var kids := EraseForest(root.children, a, b);
    EraseForestMarks(root.children, root.startAt, root.endAt, a, b, root.context, o, Own(root));
    if Covered(root.children, o) {
      MarkCovered(kids, o, Own(root), ErasedMark(Own(root), o, b));
    } else {
      MarkUncovered(root.children, o, Own(root));
      MarkUncovered(kids, o, Own(root));
    }
  }

  // ----- inserting -----

  function Inserted(root: Segment, path: Path, k: nat, offset: int, length: nat): Segment
    requires ValidRoot(root) && IsPlace(root, path, k, offset)
  {
    PlaceIsPath(root, path, k, offset);
    InsertAlong(root, path, k, offset, length)[0]
  }

  lemma InsertedRoot(root: Segment, path: Path, k: nat, offset: int, length: nat)
    requires ValidRoot(root) && IsPlace(root, path, k, offset)
    ensures var r := Inserted(root, path, k, offset, length);
      ValidRoot(r) && r.endAt == root.endAt + length && HasInvalid(r.children, offset, offset + length)
  {
    PlaceIsPath(root, path, k, offset);
    RootShape(root, path, k, offset, length);
    AlongInvalid(root, path, k, offset, length);
  }

  /** The mark of the character that was at `o` before `length` characters were
      inserted at `offset`. */
  predicate KeptMark(m': Mark, before: Segment, o: int, offset: int, length: nat) {
    var m := MarkAt(before, o);
    m' == m || m' == ShiftMark(m, length) || m' == Mark(m.context, offset + length, false)
    || (m'.context == None && MayLose(before, o, offset, offset))
  }

  lemma InsertedRootMarks(root: Segment, path: Path, k: nat, offset: int, length: nat, o: int)
    requires ValidRoot(root) && IsPlace(root, path, k, offset) && root.Covers(o)
    ensures KeptMark(MarkAt(Inserted(root, path, k, offset, length), Moved(o, offset, length)), root, o, offset, length)
  {
    PlaceIsPath(root, path, k, offset);
    var r := InsertAlong(root, path, k, offset, length);
    AlongMarks(root, path, k, offset, length, o, Own(root));
    assert r == [r[0]];
    MarkSingle(r[0], Moved(o, offset, length), Own(root));
    CoveredSingle(r[0], Moved(o, offset, length));
    if Some(MarkAt(root, o)) == Lost(At(root, path), offset) {
      LostMayLose(root, path, k, offset, o);
    }
  }

  lemma LostMayLose(root: Segment, path: Path, k: nat, offset: int, o: int)
    requires ValidRoot(root) && IsPlace(root, path, k, offset) && IsPath(root, path) && root.Covers(o)
    requires Some(MarkAt(root, o)) == Lost(At(root, path), offset)
    ensures MayLose(root, o, offset, offset)
  {
    PlaceIsPath(root, path, k, offset);
    MarkStarts(root, o);
    WithinSegment(root, path);
    if o < offset {
      LeafMark(root, path, offset - 1);
    }
  }

  /** The deepest segment at a character starts at or before it. */
  lemma {:induction false} MarkStarts(s: Segment, o: int)
    requires s.Covers(o)
    ensures MarkAt(s, o).startAt <= o
    decreases s, 1
  {
    KidMarkStarts(s.children, o, Own(s));
  }

  lemma {:induction false} KidMarkStarts(cs: seq<Segment>, o: int, outer: Mark)
    requires outer.startAt <= o
    ensures MarkIn(cs, o, outer).startAt <= o
    decreases cs, 0
  {
    if cs != [] {
      if cs[0].Covers(o) { MarkStarts(cs[0], o); } else { KidMarkStarts(cs[1..], o, outer); }
    }
  }

  /** A segment without children is the deepest one at its characters. */
  lemma {:induction false} LeafMark(s: Segment, path: Path, o: int)
    requires Valid(s) && IsPath(s, path) && At(s, path).children == [] && At(s, path).Covers(o)
    ensures MarkAt(s, o) == Own(At(s, path))
    decreases path
  {
    if path != [] {
      var i, c := path[0], s.children[path[0]];
      ForestBounds(s.children, s.startAt, s.endAt, s.context);
      WithinSegment(c, path[1..]);
      LeafMark(c, path[1..], o);
      assert s.children == s.children[..i] + ([c] + s.children[i + 1..]);
      MarkAppend(s.children[..i], [c] + s.children[i + 1..], o, Own(s));
      MarkAppend([c], s.children[i + 1..], o, Own(s));
      MarkSingle(c, o, MarkIn(s.children[i + 1..], o, Own(s)));
      MarkUncovered(s.children[..i], o, MarkAt(c, o));
    }
  }

  // ----- deleting -----

  function Deleted(root: Segment, a: int, b: int): Segment {
    FixDelete(Erased(root, a, b), a, b - a)
  }

  /** The children of the toplevel segment after erasing, as two parts. */
  lemma ErasedParts(root: Segment, a: int, b: int) returns (l: seq<Segment>, r: seq<Segment>)
    requires ValidRoot(root) && 0 <= a < b <= root.endAt
    ensures EraseForest(root.children, a, b) == l + r
    ensures ValidForest(l, 0, a, root.context) && ValidForest(r, b, root.endAt, root.context)
  {
    var kids := EraseForest(root.children, a, b);
    l, r := kids[..LeftCount(kids, a)], kids[LeftCount(kids, a)..];
    EraseForestShape(root.children, 0, root.endAt, a, b, root.context);
    SplitShape(kids, 0, root.endAt, a, b, root.context);
    assert kids == l + r;
  }

  /** Removing the range moves the second part. */
  lemma DeletedParts(root: Segment, a: int, b: int) returns (l: seq<Segment>, r: seq<Segment>)
    requires ValidRoot(root) && 0 <= a < b <= root.endAt
    ensures EraseForest(root.children, a, b) == l + r
    ensures ValidForest(l, 0, a, root.context) && ValidForest(r, b, root.endAt, root.context)
    ensures Deleted(root, a, b) == root.(endAt := root.endAt - (b - a), children := l + ShiftAll(r, a - b))
  {
    l, r := ErasedParts(root, a, b);
    FixSplit(l, r, 0, root.endAt, a, b, root.context);
  }

  lemma DeletedRoot(root: Segment, a: int, b: int)
    requires ValidRoot(root) && 0 <= a < b <= root.endAt
    ensures ValidRoot(Deleted(root, a, b)) && Deleted(root, a, b).endAt == root.endAt - (b - a)
  {
    var l, r := DeletedParts(root, a, b);
    FixSplit(l, r, 0, root.endAt, a, b, root.context);
  }

  /** The mark of a character after [a, b), which was before it, was removed: the
      start is cut off at the removed range and moved. */
  predicate DeletedMark(m': Mark, m: Mark, a: int, b: int) {
    m' == m || m' == ShiftMark(Clip(m, b), a - b)
  }

  lemma DeletedRootMarks(root: Segment, a: int, b: int, o: int)
    requires ValidRoot(root) && 0 <= a < b <= root.endAt && (o < a || b <= o)
    ensures o < a ==> MarkAt(Deleted(root, a, b), o) == MarkAt(root, o)
    ensures b <= o ==> DeletedMark(MarkAt(Deleted(root, a, b), o + (a - b)), MarkAt(root, o), a, b)
  {
    var kids := EraseForest(root.children, a, b);
    var l, r := DeletedParts(root, a, b);
    ErasedRootMarks(root, a, b, o);
    FixSplitMarks(l, r, 0, root.endAt, a, b, root.context, o, Own(root));
    EraseForestMarks(root.children, 0, root.endAt, a, b, root.context, o, Own(root));
    if !Covered(kids, o) {
      MarkUncovered(kids, o, Own(root));
      MarkUncovered(root.children, o, Own(root));
    }
  }

  // ----- a new invalid segment in an erased range -----

  function Invalidated(root: Segment, a: int, b: int, k: nat): Segment
    requires k <= |EraseForest(root.children, a, b)|
  {
    root.(children := Link(EraseForest(root.children, a, b), k, InvalidSegment(a, b)))
  }

  lemma ErasedHasRoom(root: Segment, a: int, b: int)
    requires ValidRoot(root) && a < b
    ensures HasRoom(EraseForest(root.children, a, b), a, b)
  {
    ErasedRoot(root, a, b);
    forall i | 0 <= i < |EraseForest(root.children, a, b)|
      ensures var c := EraseForest(root.children, a, b)[i]; c.endAt <= a || b <= c.startAt
    {
      assert Clear(EraseForest(root.children, a, b)[i], a, b);
    }
  }

  lemma InvalidatedRoot(root: Segment, a: int, b: int, k: nat)
    requires ValidRoot(root) && 0 <= a < b <= root.endAt && IsPosition(EraseForest(root.children, a, b), k, a, b)
    ensures ValidRoot(Invalidated(root, a, b, k)) && HasInvalid(Invalidated(root, a, b, k).children, a, b)
    ensures forall o :: ContextAt(Invalidated(root, a, b, k), o) == (if a <= o < b then None else ContextAt(root, o))
  {
    var kids, x := EraseForest(root.children, a, b), InvalidSegment(a, b);
    ErasedRoot(root, a, b);
    LinkShape(kids, 0, root.endAt, root.context, k, x);
    HasInvalidAppend(kids[..k] + [x], kids[k..], a, b);
    HasInvalidAppend(kids[..k], [x], a, b);
    forall o ensures ContextAt(Invalidated(root, a, b, k), o) == if a <= o < b then None else ContextAt(root, o) {
      LinkMarks(kids, 0, root.endAt, root.context, k, x, o, Own(root));
      if !(a <= o < b) { ErasedRootMarks(root, a, b, o); }
    }
  }

  // ----- invalid characters and invalid segments -----

  lemma {:induction false} PathHasInvalid(s: Segment, p: Path, lo: int, hi: int)
    requires p != [] && IsPath(s, p) && At(s, p).IsInvalid() && At(s, p).startAt <= lo && hi <= At(s, p).endAt
    ensures HasInvalid(s.children, lo, hi)
    decreases p
  {
    var c := s.children[p[0]];
    assert s.children == s.children[..p[0]] + ([c] + s.children[p[0] + 1..]);
    HasInvalidAppend(s.children[..p[0]], [c] + s.children[p[0] + 1..], lo, hi);
    HasInvalidAppend([c], s.children[p[0] + 1..], lo, hi);
    if p[1..] != [] { PathHasInvalid(c, p[1..], lo, hi); }
  }

  /** An invalid segment that contains [lo, hi] is at the end of some path. */
  lemma {:induction false} HasInvalidPath(s: Segment, cs: seq<Segment>, i: nat, lo: int, hi: int) returns (p: Path)
    requires i <= |s.children| && cs == s.children[i..] && HasInvalid(cs, lo, hi)
    ensures p != [] && IsPath(s, p) && At(s, p).IsInvalid() && At(s, p).startAt <= lo && hi <= At(s, p).endAt
    decreases s, |s.children| - i
  {
    var c := s.children[i];
    if c.IsInvalid() && c.startAt <= lo && hi <= c.endAt {
      p := [i];
    } else if HasInvalid(c.children, lo, hi) {
      var q := HasInvalidPath(c, c.children, 0, lo, hi);
      p := [i] + q;
    } else {
      p := HasInvalidPath(s, cs[1..], i + 1, lo, hi);
    }
  }

  lemma {:induction false} InvalidMarkHasInvalid(cs: seq<Segment>, o: int, outer: Mark)
    requires MarkIn(cs, o, outer).context == None && outer.context.Some?
    ensures HasInvalid(cs, o, o)
    decreases cs
  {
    if cs[0].Covers(o) {
      if cs[0].context.Some? { InvalidMarkHasInvalid(cs[0].children, o, Own(cs[0])); }
    } else {
      InvalidMarkHasInvalid(cs[1..], o, outer);
    }
  }

  lemma {:induction false} HasInvalidNarrow(cs: seq<Segment>, lo: int, hi: int, lo': int, hi': int)
    requires HasInvalid(cs, lo, hi) && lo <= lo' && hi' <= hi
    ensures HasInvalid(cs, lo', hi')
    decreases cs
  {
    if HasInvalid(cs[0].children, lo, hi) {
      HasInvalidNarrow(cs[0].children, lo, hi, lo', hi');
    } else if HasInvalid(cs[1..], lo, hi) {
      HasInvalidNarrow(cs[1..], lo, hi, lo', hi');
    }
  }
}
