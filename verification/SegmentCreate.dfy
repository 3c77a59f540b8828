/** Linking a new segment between its siblings (`create_segment`,
    `find_segment_position`). */
module SegmentCreate {
  import opened Wrappers
  import opened Contexts
  import opened SegmentTree

  /** What `create_segment` needs of the siblings: none of them overlaps the new
      segment [a, b), and no non-empty one starts at an empty new segment. */
  predicate HasRoom(cs: seq<Segment>, a: int, b: int) {
    forall i :: 0 <= i < |cs| ==>
      (cs[i].endAt <= a || b <= cs[i].startAt) &&
      (a == b && cs[i].startAt == a ==> cs[i].endAt == a)
  }

  /** `k` siblings are to the left of [a, b) and the others to its right. */
  predicate IsPosition(cs: seq<Segment>, k: nat, a: int, b: int) {
    && k <= |cs|
    && (forall i :: 0 <= i < k ==> cs[i].endAt <= a)
    && (forall i :: k <= i < |cs| ==> b <= cs[i].startAt)
  }

  /** `find_segment_position`: the two searches meet the same gap from any hint. */
  method FindSegmentPosition(cs: seq<Segment>, lo: int, hi: int, ghost p: Option<Context>, hint: nat, a: int, b: int) returns (k: nat)
    requires ValidForest(cs, lo, hi, p) && a <= b && HasRoom(cs, a, b)
    ensures IsPosition(cs, k, a, b)
  {
    ForestBounds(cs, lo, hi, p);
    if cs == [] {
      return 0;
    }
    if |cs| == 1 {
      return if a >= cs[0].endAt then 1 else 0;
    }
    var from := if hint < |cs| then hint else 0;
    if cs[from].endAt <= a {
      k := PositionForward(cs, from, a, b);
    } else {
      k := PositionBackward(cs, from, a, b);
    }
  }

  method PositionForward(cs: seq<Segment>, from: nat, a: int, b: int) returns (k: nat)
    requires from < |cs| && cs[from].endAt <= a <= b && HasRoom(cs, a, b)
    requires forall i :: 0 <= i < |cs| ==> cs[i].startAt <= cs[i].endAt
    requires forall i, j :: 0 <= i < j < |cs| ==> cs[i].endAt <= cs[j].startAt
    ensures IsPosition(cs, k, a, b)
  {
    k := from;
    while k < |cs|
      invariant from <= k <= |cs|
      invariant forall i :: 0 <= i < k ==> cs[i].endAt <= a
    {
      if cs[k].endAt == a {
        k := k + 1;
        while k < |cs| && cs[k].startAt == a
          invariant from < k <= |cs|
          invariant forall i :: 0 <= i < k ==> cs[i].endAt <= a
        {
          k := k + 1;
        }
        return;
      }
      if cs[k].startAt >= b {
        return;
      }
      k := k + 1;
    }
  }

  method PositionBackward(cs: seq<Segment>, from: nat, a: int, b: int) returns (k: nat)
    requires from < |cs| && a < cs[from].endAt && a <= b && HasRoom(cs, a, b)
    requires forall i :: 0 <= i < |cs| ==> cs[i].startAt <= cs[i].endAt
    requires forall i, j :: 0 <= i < j < |cs| ==> cs[i].endAt <= cs[j].startAt
    ensures IsPosition(cs, k, a, b)
  {
    k := from + 1;
    while k > 0 && cs[k - 1].endAt > a
      invariant 0 <= k <= from + 1
      invariant forall i :: k <= i < |cs| ==> b <= cs[i].startAt
    {
      k := k - 1;
    }
  }

  function Link(cs: seq<Segment>, k: nat, s: Segment): seq<Segment>
    requires k <= |cs|
  {
    cs[..k] + [s] + cs[k..]
  }

  lemma LinkShape(cs: seq<Segment>, lo: int, hi: int, p: Option<Context>, k: nat, s: Segment)
    requires ValidForest(cs, lo, hi, p) && IsPosition(cs, k, s.startAt, s.endAt)
    requires Valid(s) && Fits(s.context, p) && lo <= s.startAt && s.endAt <= hi
    ensures ValidForest(Link(cs, k, s), lo, hi, p)
  {
    SliceShape(cs, lo, hi, p, k, k);
    ForestRebound(cs[..k], lo, hi, lo, s.startAt, p);
    ForestRebound(cs[k..], EndOf(cs[..k], lo), hi, s.endAt, hi, p);
    SingleShape(s, s.startAt, s.endAt, p);
    JoinShape(cs[..k], lo, s.startAt, [s], s.endAt, lo, p);
    JoinShape(cs[..k] + [s], lo, s.endAt, cs[k..], hi, lo, p);
  }

  /** The new segment answers for its own characters and for no others. */
  lemma LinkMarks(cs: seq<Segment>, lo: int, hi: int, p: Option<Context>, k: nat, s: Segment, o: int, outer: Mark)
    requires ValidForest(cs, lo, hi, p) && IsPosition(cs, k, s.startAt, s.endAt) && s.startAt <= s.endAt
    ensures MarkIn(Link(cs, k, s), o, outer) == if s.Covers(o) then MarkAt(s, o) else MarkIn(cs, o, outer)
    ensures Covered(Link(cs, k, s), o) <==> s.Covers(o) || Covered(cs, o)
  {
    var l, r := cs[..k], cs[k..];
    assert cs == l + r;
    MarkAppend(l + [s], r, o, outer);
    MarkAppend(l, [s], o, MarkIn(r, o, outer));
    MarkAppend(l, r, o, outer);
    MarkSingle(s, o, MarkIn(r, o, outer));
    CoveredAppend(l + [s], r, o);
    CoveredAppend(l, [s], o);
    CoveredAppend(l, r, o);
    CoveredSingle(s, o);
    if s.Covers(o) {
      assert !Covered(l, o);
      MarkUncovered(l, o, MarkAt(s, o));
    }
  }
}
