/** Finding the deepest segment at an offset, from a hint (`get_segment_at_offset`,
    `get_segment_`, `get_segment_in_`) and without one
    (`get_segment_at_offset_slow_`). */
module SegmentLookup {
  import opened Wrappers
  import opened SegmentTree
  import opened InvalidList

  predicate EmptyAt(s: Segment, o: int) {
    s.startAt == o && s.endAt == o
  }

  function Abs(x: int): int { if x < 0 then -x else x }

  function Distance(s: Segment, o: int): int {
    var x, y := Abs(s.startAt - o), Abs(s.endAt - o);
    if x < y then x else y
  }

  /** The segment at `p` contains the character at `o` and no child of it does. */
  predicate IsDeepest(s: Segment, p: Path, o: int) {
    IsPath(s, p) && At(s, p).Covers(o) && !Covered(At(s, p).children, o)
  }

  /** What a lookup returns: the deepest segment, or an empty one at the offset. */
  predicate Found(s: Segment, p: Path, o: int) {
    IsPath(s, p) && (IsDeepest(s, p, o) || EmptyAt(At(s, p), o))
  }

  ghost predicate NoEmptyAt(s: Segment, o: int) {
    forall p :: IsPath(s, p) ==> !EmptyAt(At(s, p), o)
  }

  // ----- paths -----

  lemma {:induction false} AtAppend(s: Segment, p: Path, q: Path)
    requires IsPath(s, p) && IsPath(At(s, p), q)
    ensures IsPath(s, p + q) && At(s, p + q) == At(At(s, p), q)
    decreases p
  {
    if p == [] {
      assert p + q == q;
    } else {
      assert (p + q)[1..] == p[1..] + q;
      AtAppend(s.children[p[0]], p[1..], q);
    }
  }

  lemma {:induction false} AtPrefix(s: Segment, p: Path, q: Path)
    requires IsPath(s, p + q)
    ensures IsPath(s, p) && IsPath(At(s, p), q) && At(s, p + q) == At(At(s, p), q)
    decreases p
  {
    if p == [] {
      assert p + q == q;
    } else {
      assert (p + q)[1..] == p[1..] + q;
      AtPrefix(s.children[p[0]], p[1..], q);
    }
  }

  /** The parent of a segment and its place among the children. */
  lemma ParentOf(s: Segment, p: Path)
    requires Valid(s) && IsPath(s, p) && p != []
    ensures var up, i := p[..|p| - 1], p[|p| - 1];
      IsPath(s, up) && Valid(At(s, up)) && i < |At(s, up).children| && At(s, p) == At(s, up).children[i]
  {
    var up, i := p[..|p| - 1], p[|p| - 1];
    assert p == up + [i];
    AtPrefix(s, up, [i]);
    WithinSegment(s, up);
  }

  lemma ChildAt(s: Segment, up: Path, i: nat, q: Path)
    requires IsPath(s, up) && i < |At(s, up).children| && IsPath(At(s, up).children[i], q)
    ensures IsPath(s, up + [i] + q) && At(s, up + [i] + q) == At(At(s, up).children[i], q)
  {
    AtAppend(s, up, [i] + q);
    assert up + [i] + q == up + ([i] + q);
  }

  /** There is one deepest segment at a character. */
  lemma {:induction false} DeepestUnique(s: Segment, p: Path, q: Path, o: int)
    requires Valid(s) && IsDeepest(s, p, o) && IsDeepest(s, q, o)
    ensures p == q
    decreases p
  {
    ForestBounds(s.children, s.startAt, s.endAt, s.context);
    if p != [] {
      WithinSegment(s.children[p[0]], p[1..]);
      assert Covered(s.children, o);
    }
    if q != [] {
      WithinSegment(s.children[q[0]], q[1..]);
      assert Covered(s.children, o);
    }
    if p != [] {
      assert p[0] == q[0];
      DeepestUnique(s.children[p[0]], p[1..], q[1..], o);
    }
  }

  /** The deepest segment is the one the mark of the character describes. */
  lemma {:induction false} DeepestMark(s: Segment, p: Path, o: int)
    requires Valid(s) && IsDeepest(s, p, o)
    ensures MarkAt(s, o) == Own(At(s, p))
    decreases p
  {
    if p == [] {
      MarkUncovered(s.children, o, Own(s));
    } else {
      var i, c := p[0], s.children[p[0]];
      ForestBounds(s.children, s.startAt, s.endAt, s.context);
      WithinSegment(c, p[1..]);
      DeepestMark(c, p[1..], o);
      assert s.children == s.children[..i] + ([c] + s.children[i + 1..]);
      MarkAppend(s.children[..i], [c] + s.children[i + 1..], o, Own(s));
      MarkAppend([c], s.children[i + 1..], o, Own(s));
      MarkSingle(c, o, MarkIn(s.children[i + 1..], o, Own(s)));
      MarkUncovered(s.children[..i], o, MarkAt(c, o));
    }
  }

  // ----- the hinted search -----

  /** The first of the empty segments at `o` that end at child `i`. */
  method FirstEmpty(cs: seq<Segment>, i: nat, o: int) returns (k: nat)
    requires i < |cs| && EmptyAt(cs[i], o)
    ensures k <= i && EmptyAt(cs[k], o) && (k > 0 ==> !EmptyAt(cs[k - 1], o))
  {
    k := i;
    while k > 0 && EmptyAt(cs[k - 1], o)
      invariant k <= i && EmptyAt(cs[k], o)
    {
      k := k - 1;
    }
  }

  lemma FoundHere(s: Segment, o: int)
    requires s.Covers(o) && !Covered(s.children, o)
    ensures Found(s, [], o)
  {
  }

  lemma FoundBelow(s: Segment, i: nat, p: Path, o: int)
    requires i < |s.children| && Found(s.children[i], p, o)
    ensures Found(s, [i] + p, o)
  {
    assert ([i] + p)[1..] == p;
  }

  lemma FoundEmpty(s: Segment, i: nat, o: int)
    requires i < |s.children| && EmptyAt(s.children[i], o)
    ensures Found(s, [i], o)
  {
    assert [i][1..] == [];
  }

  /** `get_segment_in_` */
  method GetSegmentIn(s: Segment, o: int) returns (p: Path)
    requires Valid(s) && s.Covers(o)
    ensures Found(s, p, o)
    decreases s
  {
    var cs := s.children;
    hide Found;
    ForestBounds(cs, s.startAt, s.endAt, s.context);
    if cs == [] {
      FoundHere(s, o);
      return [];
    }
    if |cs| == 1 {
      if EmptyAt(cs[0], o) {
        FoundEmpty(s, 0, o);
        return [0];
      }
      if cs[0].Covers(o) {
        p := GetSegmentIn(cs[0], o);
        FoundBelow(s, 0, p, o);
        return [0] + p;
      }
      FoundHere(s, o);
      return [];
    }
    var last := |cs| - 1;
    if cs[0].startAt > o || cs[last].endAt < o {
      FoundHere(s, o);
      return [];
    }
    if Distance(cs[0], o) >= Distance(cs[last], o) {
      var i := 0;
      while i < |cs|
        invariant i <= |cs|
        invariant forall j :: 0 <= j < i ==> cs[j].endAt <= o
      {
        if cs[i].startAt > o {
          FoundHere(s, o);
          return [];
        }
        if EmptyAt(cs[i], o) {
          FoundEmpty(s, i, o);
          return [i];
        }
        if cs[i].Covers(o) {
          p := GetSegmentIn(cs[i], o);
          FoundBelow(s, i, p, o);
          return [i] + p;
        }
        i := i + 1;
      }
    } else {
      var i := |cs|;
      while i > 0
        invariant 0 <= i <= |cs|
        invariant forall j :: i <= j < |cs| ==> cs[j].startAt > o
      {
        if EmptyAt(cs[i - 1], o) {
          var k := FirstEmpty(cs, i - 1, o);
          FoundEmpty(s, k, o);
          return [k];
        }
        if cs[i - 1].endAt <= o {
          FoundHere(s, o);
          return [];
        }
        if cs[i - 1].Covers(o) {
          p := GetSegmentIn(cs[i - 1], o);
          FoundBelow(s, i - 1, p, o);
          return [i - 1] + p;
        }
        i := i - 1;
      }
    }
    FoundHere(s, o);
    return [];
  }

  /** `get_segment_`: up from the hint to the ancestor whose parent contains the
      offset, then along its siblings. */
  method GetSegment(root: Segment, hint: Path, o: int) returns (p: Path)
    requires ValidRoot(root) && IsPath(root, hint) && 0 <= o < root.endAt
    ensures Found(root, p, o)
    decreases |hint|
  {
    if hint == [] {
      p := GetSegmentIn(root, o);
      return;
    }
    ParentOf(root, hint);
    var up, i := hint[..|hint| - 1], hint[|hint| - 1];
    var parent := At(root, up);
    if !parent.Covers(o) {
      p := GetSegment(root, up, o);
      return;
    }
    var q := GetAmong(parent, i, o);
    AtAppend(root, up, q);
    p := up + q;
  }

  /** The part of `get_segment_` that looks at the siblings of child `i`. */
  method GetAmong(s: Segment, i: nat, o: int) returns (p: Path)
    requires Valid(s) && s.Covers(o) && i < |s.children|
    ensures Found(s, p, o)
  {
    var cs := s.children;
    hide Found, Valid, ValidForest;
    ForestOf(s);
    if cs[i].Covers(o) {
      p := GetSegmentIn(cs[i], o);
      FoundBelow(s, i, p, o);
      return [i] + p;
    }
    if EmptyAt(cs[i], o) {
      var k := FirstEmpty(cs, i, o);
      FoundEmpty(s, k, o);
      return [k];
    }
    if o < cs[i].startAt {
      p := GetBefore(s, i, o);
    } else {
      p := GetAfter(s, i, o);
    }
  }

  method GetBefore(s: Segment, i: nat, o: int) returns (p: Path)
    requires Valid(s) && s.Covers(o) && i < |s.children| && o < s.children[i].startAt
    ensures Found(s, p, o)
  {
    var cs := s.children;
    hide Found, Valid, ValidForest;
    ForestOf(s);
    var k := i;
    while k > 0 && cs[k - 1].startAt > o
      invariant 0 <= k <= i < |cs| && cs[k].startAt > o
    {
      k := k - 1;
    }
    if k == 0 {
      FoundHere(s, o);
      return [];
    }
    if cs[k - 1].endAt > o {
      p := GetSegmentIn(cs[k - 1], o);
      FoundBelow(s, k - 1, p, o);
      return [k - 1] + p;
    }
    if cs[k - 1].endAt == o && EmptyAt(cs[k - 1], o) {
      var e := FirstEmpty(cs, k - 1, o);
      FoundEmpty(s, e, o);
      return [e];
    }
    FoundHere(s, o);
    return [];
  }

  method GetAfter(s: Segment, i: nat, o: int) returns (p: Path)
    requires Valid(s) && s.Covers(o) && i < |s.children| && s.children[i].endAt <= o
    ensures Found(s, p, o)
  {
    var cs := s.children;
    hide Found, Valid, ValidForest;
    ForestOf(s);
    var k := i;
    while k + 1 < |cs|
      invariant i <= k < |cs| && cs[k].endAt <= o
    {
      if EmptyAt(cs[k + 1], o) {
        FoundEmpty(s, k + 1, o);
        return [k + 1];
      }
      if cs[k + 1].endAt > o {
        if cs[k + 1].startAt <= o {
          p := GetSegmentIn(cs[k + 1], o);
          FoundBelow(s, k + 1, p, o);
          return [k + 1] + p;
        }
        FoundHere(s, o);
        return [];
      }
      k := k + 1;
    }
    FoundHere(s, o);
    return [];
  }

  lemma ForestOf(s: Segment)
    requires Valid(s)
    ensures ValidForest(s.children, s.startAt, s.endAt, s.context)
    ensures forall i :: 0 <= i < |s.children| ==> s.startAt <= s.children[i].startAt <= s.children[i].endAt <= s.endAt && Valid(s.children[i])
    ensures forall i, j :: 0 <= i < j < |s.children| ==> s.children[i].endAt <= s.children[j].startAt
  {
    ForestBounds(s.children, s.startAt, s.endAt, s.context);
  }

  /** `get_segment_at_offset` */
  method GetSegmentAtOffset(root: Segment, hint: Option<Path>, o: int) returns (p: Path)
    requires ValidRoot(root) && 0 <= o <= root.endAt
    requires hint.Some? ==> IsPath(root, hint.value)
    ensures o == root.endAt ==> p == []
    ensures o < root.endAt ==> Found(root, p, o)
    ensures o < root.endAt && NoEmptyAt(root, o) ==> IsDeepest(root, p, o)
  {
    if o == root.endAt {
      return [];
    }
    p := GetSegment(root, if hint.Some? then hint.value else [], o);
  }

  // ----- the reference search -----

  /** The reference search goes up and to the right until it is at a segment that
      contains the offset or starts at it, and down from there on. */
  predicate Descending(s: Segment, o: int) {
    s.Covers(o) || s.startAt == o
  }

  function SiblingsRight(root: Segment, p: Path): int
    requires Valid(root) && IsPath(root, p)
  {
    if p == [] then 0
    else
      ParentOf(root, p);
      |At(root, p[..|p| - 1]).children| - p[|p| - 1]
  }

  /** The child the reference search goes down to, if any. */
  method SlowChild(s: Segment, o: int) returns (r: Option<nat>)
    requires Valid(s) && s.Covers(o)
    ensures r.Some? ==> r.value < |s.children| && (s.children[r.value].Covers(o) || EmptyAt(s.children[r.value], o))
    ensures r.None? ==> !Covered(s.children, o)
  {
    var cs := s.children;
    ForestBounds(cs, s.startAt, s.endAt, s.context);
    var i := 0;
    while i < |cs|
      invariant 0 <= i <= |cs|
      invariant forall j :: 0 <= j < i ==> cs[j].endAt <= o
    {
      if cs[i].startAt == o {
        return Some(i);
      }
      if cs[i].endAt > o {
        if cs[i].startAt > o {
          break;
        }
        return Some(i);
      }
      i := i + 1;
    }
    return None;
  }

  /** `get_segment_at_offset_slow_` */
  method GetSegmentSlow(root: Segment, hint: Path, o: int) returns (p: Path)
    requires ValidRoot(root) && IsPath(root, hint) && 0 <= o <= root.endAt
    ensures IsPath(root, p)
    ensures o < root.endAt ==> Found(root, p, o)
    ensures o == root.endAt ==> p == [] || EmptyAt(At(root, p), o)
  {
    p := hint;
    while true
      invariant IsPath(root, p)
      decreases if Descending(At(root, p), o) then 0 else 1,
                if Descending(At(root, p), o) then 0 else |p|,
                if Descending(At(root, p), o) then 0 else SiblingsRight(root, p),
                At(root, p)
    {
      var s := At(root, p);
      WithinSegment(root, p);
      ForestBounds(s.children, s.startAt, s.endAt, s.context);
      if p == [] && o == s.endAt {
        return;
      }
      if s.startAt == o {
        if s.children == [] || s.children[0].startAt != o {
          return;
        }
        ChildAt(root, p, 0, []);
        assert p + [0] + [] == p + [0];
        p := p + [0];
      } else if s.Covers(o) {
        var c := SlowChild(s, o);
        if c.None? {
          return;
        }
        ChildAt(root, p, c.value, []);
        assert p + [c.value] + [] == p + [c.value];
        p := p + [c.value];
      } else {
        var done;
        p, done := SlowStep(root, p, o);
        if done {
          WithinSegment(root, p);
          return;
        }
      }
    }
  }

  /** One step up or to the right, from a segment that does not contain `o`. */
  method SlowStep(root: Segment, p: Path, o: int) returns (q: Path, done: bool)
    requires ValidRoot(root) && IsPath(root, p) && p != [] && 0 <= o <= root.endAt
    requires !Descending(At(root, p), o)
    ensures IsPath(root, q)
    ensures done ==> IsDeepest(root, q, o)
    ensures !done ==> Descending(At(root, q), o) || |q| < |p| ||
                      (|q| == |p| && 0 <= SiblingsRight(root, q) < SiblingsRight(root, p))
  {
    ParentOf(root, p);
    var up, i := p[..|p| - 1], p[|p| - 1];
    var cs := At(root, up).children;
    ForestBounds(cs, At(root, up).startAt, At(root, up).endAt, At(root, up).context);
    if cs[i].startAt > o || i + 1 == |cs| {
      return up, false;
    }
    if cs[i + 1].startAt > o {
      return up, true;
    }
    ChildAt(root, up, i + 1, []);
    q, done := up + [i + 1], false;
    assert up + [i + 1] + [] == q;
    assert q[..|q| - 1] == up;
  }

  /** The assertion in `get_segment_at_offset`: where no empty segment is at the
      offset, both searches find the same segment, whatever the hints. */
  method CheckedLookup(root: Segment, hint: Option<Path>, slowHint: Path, o: int) returns (p: Path, q: Path)
    requires ValidRoot(root) && IsPath(root, slowHint) && 0 <= o <= root.endAt
    requires hint.Some? ==> IsPath(root, hint.value)
    ensures NoEmptyAt(root, o) ==> p == q
  {
    p := GetSegmentAtOffset(root, hint, o);
    q := GetSegmentSlow(root, slowHint, o);
    if o < root.endAt {
      if IsDeepest(root, p, o) && IsDeepest(root, q, o) {
        DeepestUnique(root, p, q, o);
      }
    }
  }
}
