/** Removing text from the tree (`fix_offsets_delete_`, `delete_range_`). */
module SegmentDelete {
  import opened Wrappers
  import opened Contexts
  import opened SegmentTree
  import opened SegmentInsert

  /** `fix_offset_delete_one_` */
  function FixOne(offset: int, start: int, length: int): int {
    if offset > start then
      if offset >= start + length then offset - length else start
    else offset
  }

  function FixDelete(s: Segment, offset: int, length: int): Segment
    decreases s, 1
  {
    s.(startAt := FixOne(s.startAt, offset, length),
       endAt := FixOne(s.endAt, offset, length),
       children := FixAll(s.children, offset, length))
  }

  function FixAll(cs: seq<Segment>, offset: int, length: int): (r: seq<Segment>)
    ensures |r| == |cs|
    ensures forall i :: 0 <= i < |cs| ==>
      r[i] == if cs[i].endAt <= offset then cs[i] else FixDelete(cs[i], offset, length)
    decreases cs, 0
  {
    if cs == [] then []
    else [if cs[0].endAt <= offset then cs[0] else FixDelete(cs[0], offset, length)] + FixAll(cs[1..], offset, length)
  }

  lemma TwoPasses(all: seq<Segment>, from: nat)
    requires from <= |all|
    ensures all[..from] + all[from..] == all
  {
  }

  /** `fix_offsets_delete_`: one pass from the hinted child to the right, one to
      its left.  Wherever the hint is, each child is handled once. */
  method FixOffsetsDelete(s: Segment, offset: int, length: int, hint: nat) returns (r: Segment)
    requires Valid(s)
    ensures r == FixDelete(s, offset, length)
    decreases s, 1
  {
    hide FixAll;
    ForestBounds(s.children, s.startAt, s.endAt, s.context);
    var from := if hint < |s.children| then hint else 0;
    var right := FixRight(s.children, offset, length, from);
    var left := FixLeft(s.children, offset, length, from);
    TwoPasses(FixAll(s.children, offset, length), from);
    r := s.(startAt := FixOne(s.startAt, offset, length), endAt := FixOne(s.endAt, offset, length),
            children := left + right);
  }

  method FixRight(cs: seq<Segment>, offset: int, length: int, from: nat) returns (r: seq<Segment>)
    requires from <= |cs| && forall i :: 0 <= i < |cs| ==> Valid(cs[i])
    ensures r == FixAll(cs, offset, length)[from..]
    decreases cs, 0
  {
    ghost var all := FixAll(cs, offset, length);
    r := [];
    for i := from to |cs|
      invariant r == all[from..i]
    {
      var child := cs[i];
      if child.endAt > offset {
        child := FixOffsetsDelete(child, offset, length, |child.children|);
      }
      r := r + [child];
    }
  }

  method FixLeft(cs: seq<Segment>, offset: int, length: int, from: nat) returns (r: seq<Segment>)
    requires from <= |cs| && forall i :: 0 <= i < |cs| ==> Valid(cs[i])
    requires forall i, j :: 0 <= i < j < |cs| ==> cs[i].endAt <= cs[j].startAt
    ensures r == FixAll(cs, offset, length)[..from]
    decreases cs, 0
  {
    hide FixAll, FixDelete;
    ghost var all := FixAll(cs, offset, length);
    r := [];
    var i := from;
    while i > 0
      invariant 0 <= i <= from
      invariant r == all[i..from]
    {
      if cs[i - 1].endAt <= offset {
        assert forall j :: 0 <= j < i ==> all[j] == cs[j];
        return cs[..i] + r;
      }
      var child := FixOffsetsDelete(cs[i - 1], offset, length, |cs[i - 1].children|);
      r := [child] + r;
      i := i - 1;
    }
  }

  // ----- after the range was erased, removing it moves what follows -----

  lemma {:induction false} FixIsShift(s: Segment, offset: int, length: int)
    requires Valid(s) && 0 < length && offset + length <= s.startAt
    ensures FixDelete(s, offset, length) == Shift(s, -length)
    decreases s, 1
  {
    FixAllIsShift(s.children, s.startAt, s.endAt, s.context, offset, length);
  }

  lemma {:induction false} FixAllIsShift(cs: seq<Segment>, lo: int, hi: int, p: Option<Context>, offset: int, length: int)
    requires ValidForest(cs, lo, hi, p) && 0 < length && offset + length <= lo
    ensures FixAll(cs, offset, length) == ShiftAll(cs, -length)
    decreases cs, 0
  {
    if cs != [] {
      FixIsShift(cs[0], offset, length);
      FixAllIsShift(cs[1..], cs[0].endAt, hi, p, offset, length);
    }
  }

  lemma {:induction false} FixAllLeft(cs: seq<Segment>, offset: int, length: int)
    requires forall i :: 0 <= i < |cs| ==> cs[i].endAt <= offset
    ensures FixAll(cs, offset, length) == cs
    decreases cs
  {
    if cs != [] {
      assert forall i :: 0 <= i < |cs[1..]| ==> cs[1..][i] == cs[i + 1];
      FixAllLeft(cs[1..], offset, length);
    }
  }

  lemma FixAllAppend(x: seq<Segment>, y: seq<Segment>, offset: int, length: int)
    ensures FixAll(x + y, offset, length) == FixAll(x, offset, length) + FixAll(y, offset, length)
    decreases x
  {
    if x == [] {
      assert x + y == y;
    } else {
      assert (x + y)[1..] == x[1..] + y;
      FixAllAppend(x[1..], y, offset, length);
    }
  }

  /** The children l + r of the toplevel segment around a removed range [a, b):
      what was left of it stays, what was right of it moves. */
  lemma FixSplit(l: seq<Segment>, r: seq<Segment>, lo: int, hi: int, a: int, b: int, p: Option<Context>)
    requires a < b && ValidForest(l, lo, a, p) && ValidForest(r, b, hi, p)
    ensures FixAll(l + r, a, b - a) == l + ShiftAll(r, a - b)
    ensures ValidForest(l + ShiftAll(r, a - b), lo, hi - (b - a), p)
  {
    hide ValidForest, ShiftAll, FixAll;
    FixAllAppend(l, r, a, b - a);
    ForestBounds(l, lo, a, p);
    FixAllLeft(l, a, b - a);
    FixAllIsShift(r, b, hi, p, a, b - a);
    ShiftShape(r, b, hi, p, a - b);
    JoinShape(l, lo, a, ShiftAll(r, a - b), hi - (b - a), lo, p);
  }

  lemma FixSplitMarks(l: seq<Segment>, r: seq<Segment>, lo: int, hi: int, a: int, b: int, p: Option<Context>, o: int, outer: Mark)
    requires a < b && ValidForest(l, lo, a, p) && ValidForest(r, b, hi, p)
    ensures o < a ==> MarkIn(l + ShiftAll(r, a - b), o, outer) == MarkIn(l + r, o, outer)
    ensures b <= o ==> MarkIn(l + ShiftAll(r, a - b), o - (b - a), outer) ==
                       if Covered(l + r, o) then ShiftMark(MarkIn(l + r, o, outer), a - b) else outer
  {
    hide ValidForest, MarkIn;
    var r', o' := ShiftAll(r, a - b), o - (b - a);
    ForestBounds(l, lo, a, p);
    ForestBounds(r, b, hi, p);
    CoveredAppend(l, r, o);
    MarkAppend(l, r, o, outer);
    if o < a {
      MarkAppend(l, r', o, outer);
      MarkUncovered(r', o, outer);
      MarkUncovered(r, o, outer);
    } else if b <= o {
      MarkAppend(l, r', o', outer);
      MarkUncovered(l, o', MarkIn(r', o', outer));
      MarkUncovered(l, o, MarkIn(r, o, outer));
      MovedMarks(r, a - b, o, outer);
    }
  }
}
